/**
 * The two JavaScript string operations the controller relies on:
 * `String.prototype.split` with a non-empty separator and
 * `Array.prototype.join`. Strings are sequences of UTF-16 code units in
 * JavaScript; here they are `seq<char>`.
 */
module JsText {
  import opened Wrappers

  /** `sep` occurs in `s` starting at index `k`. */
  predicate OccursAt(s: string, sep: string, k: nat) {
    k + |sep| <= |s| && s[k..k + |sep|] == sep
  }

  predicate Contains(s: string, sep: string) {
    exists k: nat :: k <= |s| && OccursAt(s, sep, k)
  }

  /** The first occurrence of `sep` at or after index `from`, if any. */
  function IndexFrom(s: string, sep: string, from: nat): (r: Option<nat>)
    requires |sep| > 0
    ensures r.Some? ==> from <= r.value && OccursAt(s, sep, r.value)
    ensures r.Some? ==> forall k: nat :: from <= k < r.value ==> !OccursAt(s, sep, k)
    ensures r.None? ==> forall k: nat :: from <= k ==> !OccursAt(s, sep, k)
    decreases |s| - from
  {
    if from + |sep| > |s| then None
    else if OccursAt(s, sep, from) then Some(from)
    else IndexFrom(s, sep, from + 1)
  }

  /** `s.indexOf(sep)`: the first occurrence of `sep`, if any. */
  function IndexOf(s: string, sep: string): (r: Option<nat>)
    requires |sep| > 0
    ensures r.Some? ==> OccursAt(s, sep, r.value)
    ensures r.Some? ==> forall k: nat :: k < r.value ==> !OccursAt(s, sep, k)
    ensures r.None? <==> !Contains(s, sep)
  {
    IndexFrom(s, sep, 0)
  }

  /** An occurrence with none before it is the one `IndexOf` finds. */
  lemma IndexOfFirst(s: string, sep: string, i: nat)
    requires |sep| > 0
    requires OccursAt(s, sep, i)
    requires forall k: nat :: k < i ==> !OccursAt(s, sep, k)
    ensures IndexOf(s, sep) == Some(i)
  {
    assert Contains(s, sep);
  }

  /**
   * `s.split(sep)` for a non-empty separator: the pieces between
   * successive leftmost occurrences of `sep`, scanning left to right.
   */
  function Split(s: string, sep: string): (parts: seq<string>)
    requires |sep| > 0
    ensures |parts| >= 1
    decreases |s|
  {
    match IndexOf(s, sep)
    case None => [s]
    case Some(i) => [s[..i]] + Split(s[i + |sep|..], sep)
  }

  /** `parts.join(sep)`: the pieces in order, with `sep` between neighbours. */
  function Join(parts: seq<string>, sep: string): (r: string)
    ensures |parts| == 0 ==> r == ""
    ensures |parts| >= 1 ==> |parts[0]| <= |r| && r[..|parts[0]|] == parts[0]
    ensures |parts| >= 2 ==> OccursAt(r, sep, |parts[0]|)
    decreases |parts|
  {
    if |parts| == 0 then ""
    else if |parts| == 1 then parts[0]
    else parts[0] + sep + Join(parts[1..], sep)
  }

  /** No occurrence before the first one means none inside the prefix. */
  lemma PrefixFree(s: string, sep: string, i: nat)
    requires |sep| > 0 && i <= |s|
    requires forall k: nat :: k < i ==> !OccursAt(s, sep, k)
    ensures !Contains(s[..i], sep)
  {
    forall k: nat | k <= i && OccursAt(s[..i], sep, k)
      ensures false
    {
      assert s[..i][k..k + |sep|] == s[k..k + |sep|];
      assert OccursAt(s, sep, k);
    }
  }

  /** The first piece of a split holds no separator. */
  lemma SplitFirstPiece(s: string, sep: string)
    requires |sep| > 0
    ensures !Contains(Split(s, sep)[0], sep)
    ensures !Contains(s, sep) ==> Split(s, sep) == [s]
  {
    var r := IndexOf(s, sep);
    if r.Some? {
      PrefixFree(s, sep, r.value);
    }
  }

  /** Where `sep` occurs, the first piece, `sep` and the rejoined rest give back `s`. */
  lemma SplitRejoin(s: string, sep: string)
    requires |sep| > 0 && Contains(s, sep)
    ensures Split(s, sep)[0] + sep + Join(Split(s, sep)[1..], sep) == s
  {
    var r := IndexOf(s, sep);
    var i := r.value;
    var rest := s[i + |sep|..];
    SplitUnfold(s, sep, i);
    JoinSplit(rest, sep);
    assert Split(s, sep)[1..] == Split(rest, sep);
    assert s == s[..i] + s[i..i + |sep|] + rest;
  }

  lemma SplitUnfold(s: string, sep: string, i: nat)
    requires |sep| > 0 && IndexOf(s, sep) == Some(i)
    ensures Split(s, sep) == [s[..i]] + Split(s[i + |sep|..], sep)
  {
  }

  /** Joining the pieces of a split gives back the string. */
  lemma {:induction false} JoinSplit(s: string, sep: string)
    requires |sep| > 0
    ensures Join(Split(s, sep), sep) == s
    decreases |s|
  {
    var r := IndexOf(s, sep);
    if r.Some? {
      var i := r.value;
      var rest := s[i + |sep|..];
      SplitUnfold(s, sep, i);
      JoinSplit(rest, sep);
      var parts := Split(s, sep);
      assert parts[1..] == Split(rest, sep);
      assert Join(parts, sep) == s[..i] + sep + rest;
      assert s == s[..i] + s[i..i + |sep|] + rest;
    }
  }

  lemma OccursAtSingle(s: string, sep: string, k: nat)
    requires |sep| == 1
    ensures OccursAt(s, sep, k) <==> k < |s| && s[k] == sep[0]
  {
    if k < |s| && s[k] == sep[0] {
      assert s[k..k + 1] == [s[k]];
    }
    if OccursAt(s, sep, k) {
      assert s[k..k + 1][0] == s[k];
    }
  }

  /** A piece without the separator's character holds no occurrence of it. */
  lemma NoOccurrence(p: string, sep: string)
    requires |sep| == 1 && sep[0] !in p
    ensures !Contains(p, sep)
  {
    forall k: nat | k <= |p|
      ensures !OccursAt(p, sep, k)
    {
      OccursAtSingle(p, sep, k);
    }
  }

  /** In `p + sep + rest`, the first occurrence is the one right after `p`. */
  lemma FirstAfterPiece(p: string, sep: string, rest: string)
    requires |sep| == 1 && sep[0] !in p
    ensures IndexOf(p + sep + rest, sep) == Some(|p|)
  {
    var s := p + sep + rest;
    forall k: nat | k < |p|
      ensures !OccursAt(s, sep, k)
    {
      OccursAtSingle(s, sep, k);
      assert s[k] == p[k];
    }
    assert s[|p|..|p| + 1] == sep;
    IndexOfFirst(s, sep, |p|);
  }

  /**
   * Splitting a join gives back the pieces, provided the separator is a
   * single character that occurs in none of them and there is at least
   * one piece (`[].join(sep)` and `[""].join(sep)` are both empty).
   */
  lemma {:induction false} SplitJoin(parts: seq<string>, sep: string)
    requires |sep| == 1 && |parts| >= 1
    requires forall i :: 0 <= i < |parts| ==> sep[0] !in parts[i]
    ensures Split(Join(parts, sep), sep) == parts
    decreases |parts|
  {
    var p := parts[0];
    if |parts| == 1 {
      NoOccurrence(p, sep);
    } else {
      var rest := Join(parts[1..], sep);
      var s := p + sep + rest;
      assert Join(parts, sep) == s;
      FirstAfterPiece(p, sep, rest);
      SplitUnfold(s, sep, |p|);
      assert s[..|p|] == p && s[|p| + 1..] == rest;
      SplitJoin(parts[1..], sep);
      assert parts == [p] + parts[1..];
    }
  }
}
