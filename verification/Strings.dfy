/** The few operations on text the identity parser needs, over sequences of characters. */
module Strings {
  import opened Api

  function Contains(s: string, c: char): bool {
    c in s
  }

  predicate HasPrefix(s: string, prefix: string) {
    prefix <= s
  }

  predicate HasSuffix(s: string, suffix: string) {
    |suffix| <= |s| && s[|s| - |suffix|..] == suffix
  }

  /** `s` without `suffix` when it ends in it, else `s`. */
  function TrimSuffix(s: string, suffix: string): string {
    if HasSuffix(s, suffix) then s[..|s| - |suffix|] else s
  }

  function TrimPrefix(s: string, prefix: string): string {
    if HasPrefix(s, prefix) then s[|prefix|..] else s
  }

  /** The part of `s` before the first `sep`, or all of it. */
  function Before(s: string, sep: char): (b: string)
    ensures sep !in b && b <= s
    ensures b != s ==> s[|b|] == sep
  {
    if s == [] || s[0] == sep then [] else [s[0]] + Before(s[1..], sep)
  }

  /** At most `n` pieces of `s` cut at `sep`; the last piece keeps what is left uncut. */
  function SplitN(s: string, sep: char, n: nat): (parts: seq<string>)
    requires n >= 1
    ensures 1 <= |parts| <= n
  {
    var head := Before(s, sep);
    if n == 1 || head == s then [s] else [head] + SplitN(s[|head| + 1..], sep, n - 1)
  }

  function Join(parts: seq<string>, sep: char): string
    requires |parts| >= 1
  {
    if |parts| == 1 then parts[0] else parts[0] + [sep] + Join(parts[1..], sep)
  }

  ghost predicate Free(parts: seq<string>, sep: char) {
    forall i | 0 <= i < |parts| :: sep !in parts[i]
  }

  /** One cut: the head, and the pieces of what follows the separator. */
  lemma SplitStep(s: string, sep: char, n: nat, head: string)
    requires n > 1 && head == Before(s, sep) && head != s
    ensures |head| < |s| && s == head + [sep] + s[|head| + 1..]
    ensures SplitN(s, sep, n) == [head] + SplitN(s[|head| + 1..], sep, n - 1)
  {
  }

  /** Joining a head to at least one more piece. */
  lemma JoinStep(head: string, tail: seq<string>, sep: char)
    requires |tail| >= 1
    ensures Join([head] + tail, sep) == head + [sep] + Join(tail, sep)
  {
    assert ([head] + tail)[1..] == tail;
  }

  lemma FreeCons(head: string, tail: seq<string>, sep: char)
    requires sep !in head && Free(tail, sep)
    ensures Free([head] + tail, sep)
  {
  }

  /** Cutting loses nothing. */
  lemma {:induction false} SplitJoins(s: string, sep: char, n: nat)
    requires n >= 1
    ensures Join(SplitN(s, sep, n), sep) == s
  {
    var head := Before(s, sep);
    if n > 1 && head != s {
      var rest := s[|head| + 1..];
      SplitStep(s, sep, n, head);
      SplitJoins(rest, sep, n - 1);
      JoinStep(head, SplitN(rest, sep, n - 1), sep);
    }
  }

  /** Fewer than `n` pieces means no separator is left in any of them. */
  lemma {:induction false} SplitFree(s: string, sep: char, n: nat)
    requires n >= 1 && |SplitN(s, sep, n)| < n
    ensures Free(SplitN(s, sep, n), sep)
  {
    var head := Before(s, sep);
    if n > 1 && head != s {
      var rest := s[|head| + 1..];
      SplitStep(s, sep, n, head);
      SplitFree(rest, sep, n - 1);
      FreeCons(head, SplitN(rest, sep, n - 1), sep);
    }
  }

  /** Pieces free of the separator come back from their join. */
  lemma {:induction false} JoinSplits(parts: seq<string>, sep: char, n: nat)
    requires 1 <= |parts| < n && Free(parts, sep)
    ensures SplitN(Join(parts, sep), sep, n) == parts
  {
    var head := parts[0];
    if |parts| == 1 {
      BeforeOfJoin(head, [], sep);
      assert head + [] == head;
    } else {
      var s, rest := Join(parts, sep), Join(parts[1..], sep);
      assert parts == [head] + parts[1..];
      BeforeOfJoin(head, [sep] + rest, sep);
      assert head + ([sep] + rest) == s;
      SplitStep(s, sep, n, head);
      assert s[|head| + 1..] == rest;
      JoinSplits(parts[1..], sep, n - 1);
    }
  }

  lemma {:induction false} BeforeOfJoin(head: string, tail: string, sep: char)
    requires sep !in head
    requires tail == [] || tail[0] == sep
    ensures Before(head + tail, sep) == head
  {
    if head == [] {
      assert head + tail == tail;
    } else {
      assert (head + tail)[1..] == head[1..] + tail;
      BeforeOfJoin(head[1..], tail, sep);
    }
  }

  /** The text starts with `mark` and holds it nowhere else. */
  ghost predicate Marked(s: string, mark: char) {
    |s| > 0 && s[0] == mark && forall i | 1 <= i < |s| :: s[i] != mark
  }

  lemma SuffixAt(s: string, suffix: string, i: nat)
    requires HasSuffix(s, suffix) && i < |suffix|
    ensures suffix[i] == s[|s| - |suffix| + i]
  {
  }

  /** Of two marked texts that end `s`, neither is longer, so they are equal. */
  lemma MarkedSuffixUnique(s: string, a: string, b: string, mark: char)
    requires HasSuffix(s, a) && HasSuffix(s, b)
    requires Marked(a, mark) && Marked(b, mark)
    ensures a == b
  {
    SuffixAt(s, a, 0);
    SuffixAt(s, b, 0);
    SuffixAt(s, if |a| < |b| then b else a, if |a| < |b| then |b| - |a| else |a| - |b|);
  }
}
