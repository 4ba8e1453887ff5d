/**
 * The two functions of Go's `strings` package the relay calls, `HasPrefix`
 * and `Split` (with a non-empty separator), and the helpers `Index` and
 * `Join` that define and specify `Split`.
 */
module Strings {
  import opened Wrappers

  /** `p` occurs in `s` starting at position `k`. */
  predicate OccursAt(s: string, p: string, k: nat) {
    k + |p| <= |s| && s[k..k + |p|] == p
  }

  /** `p` occurs somewhere in `s`. */
  ghost predicate Contains(s: string, p: string) {
    exists k: nat :: OccursAt(s, p, k)
  }

  /** Go's `strings.HasPrefix`. */
  predicate HasPrefix(s: string, prefix: string)
    ensures HasPrefix(s, prefix) <==> |prefix| <= |s| && s == prefix + s[|prefix|..]
  {
    |prefix| <= |s| && s[..|prefix|] == prefix
  }

  /** The first position at or after `from` where `p` occurs in `s`, if any. */
  function IndexFrom(s: string, p: string, from: nat): (r: Option<nat>)
    decreases |s| - from
    ensures r.Some? ==> from <= r.value && OccursAt(s, p, r.value)
    ensures forall k: nat :: from <= k && (r.None? || k < r.value) ==> !OccursAt(s, p, k)
  {
    if from + |p| > |s| then None
    else if s[from..from + |p|] == p then Some(from)
    else IndexFrom(s, p, from + 1)
  }

  /** Go's `strings.Index`: the first occurrence of `p` in `s`. */
  function Index(s: string, p: string): (r: Option<nat>)
    ensures r.None? <==> !Contains(s, p)
    ensures r.Some? ==> OccursAt(s, p, r.value)
    ensures r.Some? ==> forall k: nat :: k < r.value ==> !OccursAt(s, p, k)
  {
    var r := IndexFrom(s, p, 0);
    assert r.Some? ==> OccursAt(s, p, r.value);
    r
  }

  /** Go's `strings.Join`. */
  function Join(parts: seq<string>, sep: string): string {
    if |parts| == 0 then ""
    else if |parts| == 1 then parts[0]
    else parts[0] + sep + Join(parts[1..], sep)
  }

  /**
   * Go's `strings.Split` for a non-empty separator: the pieces of `s` between
   * the non-overlapping occurrences of `sep`, found from left to right.
   */
  function Split(s: string, sep: string): (r: seq<string>)
    requires |sep| > 0
    decreases |s|
    ensures |r| >= 1
    ensures Join(r, sep) == s
    ensures forall k :: 0 <= k < |r| ==> !Contains(r[k], sep)
    ensures forall k :: 0 <= k < |r| - 1 ==> !Contains(r[k] + sep[..|sep| - 1], sep)
    ensures |r| == 1 <==> !Contains(s, sep)
  {
    match Index(s, sep)
    case None => [s]
    case Some(i) =>
      var rest := Split(s[i + |sep|..], sep);
      SplitStep(s, sep, i, rest);
      NoStraddle(s, sep, i);
      var r := [s[..i]] + rest;
      assert forall k :: 1 <= k < |r| ==> r[k] == rest[k - 1];
      r
  }

  /** One step of `Split`: the piece before the first occurrence, then the rest. */
  lemma SplitStep(s: string, sep: string, i: nat, rest: seq<string>)
    requires |sep| > 0 && OccursAt(s, sep, i)
    requires forall k: nat :: k < i ==> !OccursAt(s, sep, k)
    requires |rest| >= 1 && Join(rest, sep) == s[i + |sep|..]
    ensures Join([s[..i]] + rest, sep) == s
    ensures !Contains(s[..i], sep)
    ensures Contains(s, sep)
  {
    NoOccurrenceInPrefix(s, sep, i);
    assert s == s[..i] + sep + s[i + |sep|..];
    assert ([s[..i]] + rest)[1..] == rest;
  }

  /** A prefix ending before the first occurrence of `p` contains no occurrence. */
  lemma NoOccurrenceInPrefix(s: string, p: string, i: nat)
    requires |p| > 0 && i <= |s|
    requires forall k: nat :: k < i ==> !OccursAt(s, p, k)
    ensures !Contains(s[..i], p)
  {
    forall k: nat | OccursAt(s[..i], p, k)
      ensures false
    {
      assert s[..i][k..k + |p|] == s[k..k + |p|];
      assert OccursAt(s, p, k);
    }
  }

  /**
   * No occurrence of `p` straddles the cut at its first occurrence `i`: the
   * text before it, followed by all but the last character of `p`, does not
   * contain `p`. So the cut is at the leftmost occurrence.
   */
  lemma NoStraddle(s: string, p: string, i: nat)
    requires |p| > 0 && OccursAt(s, p, i)
    requires forall k: nat :: k < i ==> !OccursAt(s, p, k)
    ensures !Contains(s[..i] + p[..|p| - 1], p)
  {
    var t := s[..i] + p[..|p| - 1];
    assert t == s[..i + |p| - 1];
    forall k: nat | k + |p| <= |t|
      ensures !OccursAt(t, p, k)
    {
      assert k < i && !OccursAt(s, p, k);
      assert t[k..k + |p|] == s[k..k + |p|];
    }
  }

  /** Occurrences in a suffix `s[d..]` are occurrences in `s`, shifted by `d`. */
  lemma OccursAtShift(s: string, p: string, d: nat, k: nat)
    requires d <= |s|
    ensures OccursAt(s[d..], p, k) <==> OccursAt(s, p, d + k)
  {
    if d + k + |p| <= |s| {
      assert s[d..][k..k + |p|] == s[d + k..d + k + |p|];
    }
  }
}
