/** Identities read from assumed-role ARNs (api/v1/user_identity.go). */
module UserIdentity {
  import opened Api
  import opened Strings

  datatype Identity = Identity(accountId: string, userName: string, roleName: string)

  /** The role suffixes of GDS users, in the order the source tries them. */
  const VALID_GDS_USERS_ROLES: seq<string> :=
    ["-fulladmin", "-tempadmin", "-platformengineer", "-developer", "-readonly", "-ithctester"]

  predicate IsDigit(c: char) {
    '0' <= c <= '9'
  }

  /** The text starts with twelve digits. */
  predicate StartsWithAccountId(s: string) {
    |s| >= 12 && forall i | 0 <= i < 12 :: IsDigit(s[i])
  }

  predicate IsAssumedRole(arnParts: seq<string>) {
    && |arnParts| == 6
    && arnParts[0] == "arn"
    && arnParts[1] == "aws"
    && arnParts[2] == "sts"
    && StartsWithAccountId(arnParts[4])
    && HasPrefix(arnParts[5], "assumed-role")
  }

  /** The first of `roles` that ends `roleName`. */
  function FirstSuffix(roles: seq<string>, roleName: string): (r: Option<string>)
    ensures r.Some? ==> r.value in roles && HasSuffix(roleName, r.value)
    ensures r.None? ==> forall role | role in roles :: !HasSuffix(roleName, role)
  {
    if roles == [] then None
    else if HasSuffix(roleName, roles[0]) then Some(roles[0])
    else FirstSuffix(roles[1..], roleName)
  }

  function GdsUsersIdentity(roleName: string): Option<Identity> {
    match FirstSuffix(VALID_GDS_USERS_ROLES, roleName)
    case None => None
    case Some(role) => Some(Identity("", TrimSuffix(roleName, role), TrimPrefix(role, "-")))
  }

  function EntraIdIdentity(roleName: string, sessionName: string): Option<Identity> {
    if Contains(sessionName, '@') then Some(Identity("", sessionName, roleName)) else None
  }

  /** The six parts between colons, if the text has exactly that many. */
  function ArnParts(arn: string): seq<string> {
    SplitN(arn, ':', 7)
  }

  /** The three parts of the resource, if it has exactly that many. */
  function IdentityParts(resource: string): seq<string> {
    SplitN(resource, '/', 4)
  }

  /** The identity a role and a session give: GDS users first, then Entra ID. */
  function IdentityFrom(account: string, roleName: string, sessionName: string): Option<Identity> {
    var gds := GdsUsersIdentity(roleName);
    var found := if gds.Some? then gds else EntraIdIdentity(roleName, sessionName);
    if found.None? then None else Some(found.value.(accountId := account))
  }

  /** What the parser computes; `None` is the error return. */
  function Parse(arn: string): Option<Identity> {
    var arnParts := ArnParts(arn);
    if !IsAssumedRole(arnParts) then None
    else
      var identityParts := IdentityParts(arnParts[5]);
      if |identityParts| != 3 then None
      else IdentityFrom(arnParts[4], identityParts[1], identityParts[2])
  }

  method ParseGdsUsersARN(roleName: string, sessionName: string) returns (r: Option<Identity>)
    ensures r == GdsUsersIdentity(roleName)
  {
    var i := 0;
    while i < |VALID_GDS_USERS_ROLES|
      invariant 0 <= i <= |VALID_GDS_USERS_ROLES|
      invariant FirstSuffix(VALID_GDS_USERS_ROLES, roleName) == FirstSuffix(VALID_GDS_USERS_ROLES[i..], roleName)
    {
      var validRole := VALID_GDS_USERS_ROLES[i];
      if HasSuffix(roleName, validRole) {
        return Some(Identity("", TrimSuffix(roleName, validRole), TrimPrefix(validRole, "-")));
      }
      i := i + 1;
    }
    return None;
  }

  method ParseUserIdentityFromARN(arn: string) returns (r: Option<Identity>)
    ensures r == Parse(arn)
  {
    var arnParts := ArnParts(arn);
    if !IsAssumedRole(arnParts) {
      return None;
    }
    var identityParts := IdentityParts(arnParts[5]);
    if |identityParts| != 3 {
      return None;
    }
    var accountId := arnParts[4];
    var roleName := identityParts[1];
    var sessionName := identityParts[2];
    var userIdentity := ParseGdsUsersARN(roleName, sessionName);
    if userIdentity.None? {
      userIdentity := EntraIdIdentity(roleName, sessionName);
    }
    if userIdentity.None? {
      return None;
    }
    return Some(userIdentity.value.(accountId := accountId));
  }

  /* ---------- the accepted language ---------- */

  /** The fields of an assumed-role ARN. */
  datatype Fields = Fields(region: string, account: string, head: string, role: string, session: string)

  function Render(f: Fields): string {
    Join(["arn", "aws", "sts", f.region, f.account, Join([f.head, f.role, f.session], '/')], ':')
  }

  lemma JoinThree(x: string, y: string, z: string, sep: char)
    ensures Join([x, y, z], sep) == x + [sep] + y + [sep] + z
  {
    JoinStep(y, [z], sep);
    JoinStep(x, [y, z], sep);
    assert [x] + [y, z] == [x, y, z] && [y] + [z] == [y, z];
  }

  lemma JoinArn(x: string, y: string, z: string)
    ensures Join(["arn", "aws", "sts", x, y, z], ':') == "arn:aws:sts:" + Join([x, y, z], ':')
  {
    JoinStep("sts", [x, y, z], ':');
    JoinStep("aws", ["sts"] + [x, y, z], ':');
    JoinStep("arn", ["aws"] + (["sts"] + [x, y, z]), ':');
    assert ["arn", "aws", "sts", x, y, z] == ["arn"] + (["aws"] + (["sts"] + [x, y, z]));
  }

  /** The text of the fields, written out. */
  lemma RenderIs(f: Fields)
    ensures Render(f) == "arn:aws:sts:" + f.region + ":" + f.account + ":" + f.head + "/" + f.role + "/" + f.session
  {
    var r := Join([f.head, f.role, f.session], '/');
    JoinThree(f.head, f.role, f.session, '/');
    JoinThree(f.region, f.account, r, ':');
    JoinArn(f.region, f.account, r);
    assert "arn:aws:sts:" + (f.region + ":" + f.account + ":" + r)
        == "arn:aws:sts:" + f.region + ":" + f.account + ":" + f.head + "/" + f.role + "/" + f.session;
  }

  /** Nothing in a field can be mistaken for a separator, the account starts with twelve
      digits and the resource with "assumed-role". */
  predicate WellFormed(f: Fields) {
    && ':' !in f.region && ':' !in f.account && ':' !in f.head && ':' !in f.role && ':' !in f.session
    && '/' !in f.head && '/' !in f.role && '/' !in f.session
    && |f.account| >= 12 && (forall i | 0 <= i < 12 :: f.account[i] in "0123456789")
    && "assumed-role" <= f.head
  }

  lemma DigitExactly(c: char)
    ensures IsDigit(c) <==> c in "0123456789"
  {
    var i := c as int - '0' as int;
    if IsDigit(c) {
      assert "0123456789"[i] == c;
    }
  }

  /** An account is recognised by its first twelve characters. */
  lemma AccountExactly(s: string)
    ensures StartsWithAccountId(s) <==> |s| >= 12 && forall i | 0 <= i < 12 :: s[i] in "0123456789"
  {
    forall i | 0 <= i < |s| ensures IsDigit(s[i]) <==> s[i] in "0123456789" {
      DigitExactly(s[i]);
    }
  }

  predicate GdsRole(roleName: string) {
    exists suffix | suffix in VALID_GDS_USERS_ROLES :: HasSuffix(roleName, suffix)
  }

  /** The parser accepts exactly the rendered well-formed fields whose role ends in a listed
      suffix or whose session holds an '@'. */
  lemma AcceptsExactly(arn: string)
    ensures Parse(arn).Some? <==>
              exists f :: WellFormed(f) && arn == Render(f) && (GdsRole(f.role) || '@' in f.session)
  {
    if Parse(arn).Some? {
      var f := FieldsOf(arn);
      assert WellFormed(f) && arn == Render(f);
    }
    if f :| WellFormed(f) && arn == Render(f) && (GdsRole(f.role) || '@' in f.session) {
      ParseOfRender(f);
      IdentityFromExactly(f.account, f.role, f.session);
    }
  }

  lemma ArnPartsJoin(arn: string)
    requires |ArnParts(arn)| == 6
    ensures Join(ArnParts(arn), ':') == arn && Free(ArnParts(arn), ':')
  {
    SplitJoins(arn, ':', 7);
    SplitFree(arn, ':', 7);
  }

  lemma IdentityPartsJoin(resource: string)
    requires |IdentityParts(resource)| == 3
    ensures Join(IdentityParts(resource), '/') == resource && Free(IdentityParts(resource), '/')
  {
    SplitJoins(resource, '/', 4);
    SplitFree(resource, '/', 4);
  }

  lemma TrimmedJoins(s: string, suffix: string)
    requires HasSuffix(s, suffix)
    ensures s == TrimSuffix(s, suffix) + suffix
  {
  }

  /** A GDS user is read exactly from a role with a listed suffix, and the role is the user name,
      a dash and the role name. */
  lemma GdsExactly(role: string)
    ensures GdsUsersIdentity(role).Some? <==> GdsRole(role)
    ensures GdsRole(role) ==>
              var r := GdsUsersIdentity(role).value;
              role == r.userName + ("-" + r.roleName) && "-" + r.roleName in VALID_GDS_USERS_ROLES
  {
    var first := FirstSuffix(VALID_GDS_USERS_ROLES, role);
    if first.Some? {
      SuffixShape(first.value);
      TrimmedJoins(role, first.value);
    }
  }

  /** What the role and session must be for an identity, and what it then is. */
  lemma IdentityFromExactly(account: string, role: string, session: string)
    ensures IdentityFrom(account, role, session).Some? <==> GdsRole(role) || '@' in session
    ensures GdsRole(role) ==>
              var r := IdentityFrom(account, role, session).value;
              r.accountId == account && role == r.userName + ("-" + r.roleName) && "-" + r.roleName in VALID_GDS_USERS_ROLES
    ensures !GdsRole(role) && '@' in session ==>
              IdentityFrom(account, role, session) == Some(Identity(account, session, role))
  {
    GdsExactly(role);
  }

  /** The fields of an accepted text: they rebuild it. */
  lemma FieldsOf(arn: string) returns (f: Fields)
    requires Parse(arn).Some?
    ensures WellFormed(f) && arn == Render(f) && (GdsRole(f.role) || '@' in f.session)
  {
    var a := ArnParts(arn);
    ArnPartsJoin(arn);
    var p := IdentityParts(a[5]);
    IdentityPartsJoin(a[5]);
    f := Fields(a[3], a[4], p[0], p[1], p[2]);
    IdentityFromExactly(f.account, f.role, f.session);
    PartsAreFields(a, p, f);
  }

  lemma PartsAreFields(a: seq<string>, p: seq<string>, f: Fields)
    requires IsAssumedRole(a) && Free(a, ':')
    requires |p| == 3 && Free(p, '/') && Join(p, '/') == a[5]
    requires f == Fields(a[3], a[4], p[0], p[1], p[2])
    ensures WellFormed(f) && Render(f) == Join(a, ':')
  {
    assert p == [f.head, f.role, f.session];
    assert ':' !in a[3] && ':' !in a[4] && ':' !in a[5] && '/' !in p[0] && '/' !in p[1] && '/' !in p[2];
    AccountExactly(f.account);
    assert a == ["arn", "aws", "sts", f.region, f.account, a[5]];
    ResourceOf(f);
  }

  /** The resource part of the text, and what its separators and prefix say of the pieces. */
  lemma ResourceOf(f: Fields)
    ensures var r := Join([f.head, f.role, f.session], '/');
            && r == f.head + "/" + f.role + "/" + f.session
            && (':' !in r <==> ':' !in f.head && ':' !in f.role && ':' !in f.session)
            && ('/' !in f.head ==> (HasPrefix(f.head, "assumed-role") <==> HasPrefix(r, "assumed-role")))
  {
    JoinStep(f.role, [f.session], '/');
    JoinStep(f.head, [f.role, f.session], '/');
    assert [f.head] + [f.role, f.session] == [f.head, f.role, f.session];
    assert [f.role] + [f.session] == [f.role, f.session];
    PrefixUpTo("assumed-role", f.head, f.role + "/" + f.session, '/');
    var r := f.head + "/" + f.role + "/" + f.session;
    assert r == f.head + "/" + (f.role + "/" + f.session);
    assert ':' in f.head ==> ':' in r;
  }

  /** A prefix without `sep` does not reach past a separator. */
  lemma PrefixUpTo(want: string, head: string, tail: string, sep: char)
    requires sep !in want
    ensures want <= head <==> want <= head + [sep] + tail
  {
    var r := head + [sep] + tail;
    assert r[|head|] == sep;
    if want <= r {
      assert forall i | 0 <= i < |want| :: want[i] == r[i] && want[i] != sep;
    }
  }

  lemma ArnPartsOfRender(f: Fields)
    requires WellFormed(f)
    ensures ArnParts(Render(f)) ==
              ["arn", "aws", "sts", f.region, f.account, Join([f.head, f.role, f.session], '/')]
  {
    var a := ["arn", "aws", "sts", f.region, f.account, Join([f.head, f.role, f.session], '/')];
    ResourceOf(f);
    assert ':' !in a[5];
    assert Free(a, ':');
    JoinSplits(a, ':', 7);
  }

  /** What the parser reads from well-formed fields: the round trip. */
  lemma ParseOfRender(f: Fields)
    requires WellFormed(f)
    ensures Parse(Render(f)) == IdentityFrom(f.account, f.role, f.session)
  {
    var p := [f.head, f.role, f.session];
    ArnPartsOfRender(f);
    JoinSplits(p, '/', 4);
    ResourceOf(f);
    AccountExactly(f.account);
    assert p[0] == f.head && '/' !in f.head;
  }

  /** A text has one reading: the fields are determined by it. */
  lemma RenderInjective(f: Fields, g: Fields)
    requires WellFormed(f) && WellFormed(g) && Render(f) == Render(g)
    ensures f == g
  {
    ArnPartsOfRender(f);
    ArnPartsOfRender(g);
    var p, q := [f.head, f.role, f.session], [g.head, g.role, g.session];
    JoinSplits(p, '/', 4);
    JoinSplits(q, '/', 4);
    var a, b := ArnParts(Render(f)), ArnParts(Render(g));
    assert a[3] == b[3] && a[4] == b[4] && a[5] == b[5];
    assert p[0] == q[0] && p[1] == q[1] && p[2] == q[2];
  }

  /* ---------- the suffix table ---------- */

  /** Every listed suffix is one '-' followed by text without '-'. */
  lemma SuffixShape(suffix: string)
    requires suffix in VALID_GDS_USERS_ROLES
    ensures Marked(suffix, '-')
    ensures "-" + TrimPrefix(suffix, "-") == suffix
  {
    assert suffix[1..] in ["fulladmin", "tempadmin", "platformengineer", "developer", "readonly", "ithctester"];
  }

  /** At most one listed suffix ends a text, so trying them in another order, or with repeats,
      finds the same one. */
  lemma TableOrderIrrelevant(roles: seq<string>, roleName: string)
    requires forall role :: role in roles <==> role in VALID_GDS_USERS_ROLES
    ensures FirstSuffix(roles, roleName) == FirstSuffix(VALID_GDS_USERS_ROLES, roleName)
  {
    var a := FirstSuffix(roles, roleName);
    var b := FirstSuffix(VALID_GDS_USERS_ROLES, roleName);
    if a.Some? && b.Some? {
      SuffixShape(a.value);
      SuffixShape(b.value);
      MarkedSuffixUnique(roleName, a.value, b.value, '-');
    }
  }

  /** A user keeps the same name under every listed role, region, account and session. */
  lemma SameUserUnderEveryRole(f: Fields, g: Fields, user: string, roleF: string, roleG: string)
    requires WellFormed(f) && WellFormed(g)
    requires roleF in VALID_GDS_USERS_ROLES && roleG in VALID_GDS_USERS_ROLES
    requires f.role == user + roleF && g.role == user + roleG
    ensures Parse(Render(f)).Some? && Parse(Render(g)).Some?
    ensures Parse(Render(f)).value.userName == user == Parse(Render(g)).value.userName
  {
    UserNameOf(f, user, roleF);
    UserNameOf(g, user, roleG);
  }

  lemma UserNameOf(f: Fields, user: string, role: string)
    requires WellFormed(f) && role in VALID_GDS_USERS_ROLES && f.role == user + role
    ensures Parse(Render(f)).Some? && Parse(Render(f)).value.userName == user
    ensures Parse(Render(f)).value.accountId == f.account && "-" + Parse(Render(f)).value.roleName == role
  {
    assert HasSuffix(f.role, role) && GdsRole(f.role);
    ParseOfRender(f);
    IdentityFromExactly(f.account, f.role, f.session);
    var r := IdentityFrom(f.account, f.role, f.session).value;
    var suffix := "-" + r.roleName;
    assert f.role == r.userName + suffix;
    assert HasSuffix(f.role, suffix);
    SuffixShape(role);
    SuffixShape(suffix);
    MarkedSuffixUnique(f.role, role, suffix, '-');
    assert f.role[..|f.role| - |role|] == user;
    assert f.role[..|f.role| - |suffix|] == r.userName;
  }

  /* ---------- identities of annotations ---------- */

  /** The identity in an annotation that may be missing. */
  function IdentityOf(annotation: Option<string>): Option<Identity> {
    if annotation.None? then None else Parse(annotation.value)
  }

  /** Both annotations name a user, and not the same one. */
  predicate DifferentPeople(requestedBy: Option<string>, reviewedBy: Option<string>) {
    && IdentityOf(requestedBy).Some?
    && IdentityOf(reviewedBy).Some?
    && IdentityOf(requestedBy).value.userName != IdentityOf(reviewedBy).value.userName
  }

  /* ---------- whose identity it is ---------- */

  /** The role is a user's name, a dash and the name of one of the six GDS roles. */
  predicate GdsName(role: string, user: string, name: string) {
    && role == user + "-" + name
    && name in ["fulladmin", "tempadmin", "platformengineer", "developer", "readonly", "ithctester"]
  }

  /** The fields are those of `user`: the one named in a GDS role, or else the session, which then is an
      address. Accounts, regions and other roles do not matter. */
  ghost predicate Names(f: Fields, user: string) {
    if exists u, name :: GdsName(f.role, u, name) then exists name :: GdsName(f.role, user, name)
    else '@' in f.session && user == f.session
  }

  /** The annotation is the text of such fields. */
  ghost predicate NamesUser(annotation: Option<string>, user: string) {
    exists f :: WellFormed(f) && annotation == Some(Render(f)) && Names(f, user)
  }

  /** The annotations name two different users. */
  ghost predicate TwoUsers(requestedBy: Option<string>, reviewedBy: Option<string>) {
    exists u, w :: NamesUser(requestedBy, u) && NamesUser(reviewedBy, w) && u != w
  }

  lemma DashedIsListed(name: string)
    requires name in ["fulladmin", "tempadmin", "platformengineer", "developer", "readonly", "ithctester"]
    ensures "-" + name in VALID_GDS_USERS_ROLES
  {
    var names := ["fulladmin", "tempadmin", "platformengineer", "developer", "readonly", "ithctester"];
    var i :| 0 <= i < |names| && name == names[i];
    assert "-" + name == VALID_GDS_USERS_ROLES[i];
  }

  lemma GdsNameIsListed(role: string, user: string, name: string)
    requires GdsName(role, user, name)
    ensures "-" + name in VALID_GDS_USERS_ROLES && role == user + ("-" + name) && HasSuffix(role, "-" + name)
  {
    assert role == user + ("-" + name);
    DashedIsListed(name);
  }

  /** A GDS role is read as that user's. */
  lemma GdsNameIsRead(f: Fields, user: string, name: string)
    requires WellFormed(f) && GdsName(f.role, user, name)
    ensures Parse(Render(f)).Some? && Parse(Render(f)).value.userName == user
  {
    GdsNameIsListed(f.role, user, name);
    UserNameOf(f, user, "-" + name);
  }

  lemma GdsRoleHasName(role: string)
    ensures GdsRole(role) <==> exists u, name :: GdsName(role, u, name)
  {
    if suffix :| suffix in VALID_GDS_USERS_ROLES && HasSuffix(role, suffix) {
      TrimmedJoins(role, suffix);
      assert suffix[0] == '-' && suffix == "-" + suffix[1..];
      assert role == TrimSuffix(role, suffix) + "-" + suffix[1..];
      assert GdsName(role, TrimSuffix(role, suffix), suffix[1..]);
    }
    if u, name :| GdsName(role, u, name) {
      GdsNameIsListed(role, u, name);
    }
  }

  /** What is read from well-formed fields is the user they name, if they name one. */
  lemma ReadsUser(f: Fields, user: string)
    requires WellFormed(f)
    ensures Parse(Render(f)).Some? && Parse(Render(f)).value.userName == user <==> Names(f, user)
  {
    GdsRoleHasName(f.role);
    if u, name :| GdsName(f.role, u, name) {
      GdsNameIsRead(f, u, name);
      if other :| GdsName(f.role, user, other) {
        GdsNameIsRead(f, user, other);
      }
    } else {
      ParseOfRender(f);
      IdentityFromExactly(f.account, f.role, f.session);
    }
  }

  /** The user of an annotation is the one it names, and there is one exactly when it names one. */
  lemma UserExactly(annotation: Option<string>, user: string)
    ensures IdentityOf(annotation).Some? && IdentityOf(annotation).value.userName == user <==> NamesUser(annotation, user)
  {
    if IdentityOf(annotation).Some? {
      var f := FieldsOf(annotation.value);
      ReadsUser(f, user);
      if g :| WellFormed(g) && annotation == Some(Render(g)) && Names(g, user) {
        RenderInjective(f, g);
      }
    } else if g :| WellFormed(g) && annotation == Some(Render(g)) && Names(g, user) {
      ReadsUser(g, user);
    }
  }

  /** An annotation is accepted exactly when it names somebody. */
  lemma IdentityExactly(annotation: Option<string>)
    ensures IdentityOf(annotation).Some? <==> exists user :: NamesUser(annotation, user)
  {
    if IdentityOf(annotation).Some? {
      UserExactly(annotation, IdentityOf(annotation).value.userName);
    }
    if user :| NamesUser(annotation, user) {
      UserExactly(annotation, user);
    }
  }

  /** Reviewer and requester pass for different people exactly when they name two users. */
  lemma DifferentExactly(requestedBy: Option<string>, reviewedBy: Option<string>)
    ensures DifferentPeople(requestedBy, reviewedBy) <==> TwoUsers(requestedBy, reviewedBy)
  {
    if DifferentPeople(requestedBy, reviewedBy) {
      UserExactly(requestedBy, IdentityOf(requestedBy).value.userName);
      UserExactly(reviewedBy, IdentityOf(reviewedBy).value.userName);
    }
    if u, w :| NamesUser(requestedBy, u) && NamesUser(reviewedBy, w) && u != w {
      UserExactly(requestedBy, u);
      UserExactly(reviewedBy, w);
    }
  }

  /** Of well-formed fields that name users, these are two exactly when the names differ, whatever the
      kinds of user, accounts, regions and roles. */
  lemma DifferentByName(f: Fields, g: Fields, u: string, w: string)
    requires WellFormed(f) && WellFormed(g) && Names(f, u) && Names(g, w)
    ensures DifferentPeople(Some(Render(f)), Some(Render(g))) <==> u != w
  {
    ReadsUser(f, u);
    ReadsUser(g, w);
  }
}
