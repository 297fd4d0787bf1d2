/** The objects the operator works on: requests, reviews, jobs and deployments.
    Kubernetes metadata is reduced to what the controllers look at: a uid naming the
    incarnation, the resource version used for optimistic concurrency, the creation time
    and the one annotation that carries the caller's identity. */
module Api {

  datatype Option<+T> = None | Some(value: T)

  /** A namespaced name. */
  datatype Key = Key(namespace: string, name: string)

  /** JobRequestState. `Unset` is the empty string and `Unlisted` any text that is none of
      the declared constants. */
  datatype RequestState =
    | Unset
    | Pending
    | Approved
    | Rejected
    | Started
    | Complete
    | Failed
    | Malformed
    | Conflicted
    | Unlisted(text: string)

  /** JobRequestReviewState, with `Undecided` for the empty string. */
  datatype ReviewState =
    | Undecided
    | ReviewApproved
    | ReviewRejected
    | ReviewMalformed
    | ReviewNotFound
    | ReviewConflict
    | ReviewUnlisted(reviewText: string)

  /** The two decisions the resource definition admits. */
  datatype Decision = Approve | Reject {
    function AsRequestState(): RequestState {
      match this
      case Approve => Approved
      case Reject => Rejected
    }

    function AsReviewState(): ReviewState {
      match this
      case Approve => ReviewApproved
      case Reject => ReviewRejected
    }
  }

  datatype RequestSpec = RequestSpec(deployment: string, container: string, command: string, args: seq<string>)

  datatype RequestStatus = RequestStatus(jobName: string, state: RequestState, reviewName: string)

  const BLANK_STATUS := RequestStatus("", Unset, "")

  datatype JobRequest = JobRequest(
    uid: nat,
    version: nat,
    created: nat,
    requestedBy: Option<string>,
    spec: RequestSpec,
    status: RequestStatus)
  {
    predicate WasReviewedBy(reviewName: string) {
      status.reviewName == reviewName
    }

    predicate HasBeenReviewed() {
      status.state != Unset && status.state != Pending && status.state != Malformed
    }

    predicate HasBeenRejected() {
      status.state == Rejected
    }

    predicate HasBeenApproved() {
      HasBeenReviewed() && !HasBeenRejected()
    }

    /** The same request as held in memory with another state. */
    function WithState(state: RequestState): JobRequest {
      this.(status := status.(state := state))
    }
  }

  datatype Review = Review(
    uid: nat,
    version: nat,
    created: nat,
    reviewedBy: Option<string>,
    requestName: string,
    decision: Decision,
    state: ReviewState)

  datatype Container = Container(name: string, command: seq<string>, args: seq<string>, rest: string)

  /** Of a pod template `rest` is whatever no controller looks at. */
  datatype PodTemplate = PodTemplate(
    initContainers: seq<Container>,
    containers: seq<Container>,
    restartPolicy: string,
    labels: map<string, string>,
    annotations: map<string, string>,
    rest: string)

  datatype Deployment = Deployment(template: PodTemplate)

  datatype ConditionKind = JobComplete | JobFailed | OtherKind(text: string)

  datatype Condition = Condition(kind: ConditionKind, isTrue: bool)

  /** A Job: the uid of the request that owns it, its pod template and retry limit, and the
      conditions the cluster reports. */
  datatype Job = Job(owner: nat, template: PodTemplate, backoffLimit: int, conditions: seq<Condition>)

  /** The states in which a reconcile ends at once. */
  predicate Terminal(state: RequestState) {
    state == Complete || state == Failed || state == Malformed || state == Conflicted
  }
}
