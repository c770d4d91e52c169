/** The shapes of the plugins' `for _, line := range lines` loops, stated once:
    the first line that stops a scan, the last line that sets a field, and
    the lines an append-loop keeps. */
module LineScan {
  import opened GoValues
  import opened GoStrings

  /** Index of the first element satisfying `p`, or `|xs|` when there is none. */
  function FirstWhere<T>(xs: seq<T>, p: T -> bool): (i: nat)
    ensures i <= |xs|
    ensures i < |xs| ==> p(xs[i])
    ensures forall j :: 0 <= j < i ==> !p(xs[j])
  {
    if xs == [] then 0
    else if p(xs[0]) then 0
    else 1 + FirstWhere(xs[1..], p)
  }

  /** A scan that has not reached the first match may pass a non-match. */
  lemma FirstWhereNext<T>(xs: seq<T>, p: T -> bool, i: nat)
    requires i < |xs| && i <= FirstWhere(xs, p) && !p(xs[i])
    ensures i + 1 <= FirstWhere(xs, p)
  {
  }

  /** The elements a scan that stops after the first match reads. */
  function UpTo<T>(xs: seq<T>, p: T -> bool): (r: seq<T>)
    ensures |r| <= |xs| && r == xs[..|r|]
  {
    var stop := FirstWhere(xs, p);
    if stop < |xs| then xs[..stop + 1] else xs
  }

  /** A match no earlier match precedes is where the scan stops. */
  lemma UpToAt<T>(xs: seq<T>, p: T -> bool, i: nat)
    requires i < |xs| && p(xs[i]) && i <= FirstWhere(xs, p)
    ensures FirstWhere(xs, p) == i && UpTo(xs, p) == xs[..i + 1]
  {
  }

  /** The first match after a prefix of non-matches is where the scan stops,
      whatever follows it. */
  lemma FirstWhereAfter<T>(pre: seq<T>, d: T, post: seq<T>, p: T -> bool)
    requires forall j :: 0 <= j < |pre| ==> !p(pre[j])
    requires p(d)
    ensures FirstWhere(pre + [d] + post, p) == |pre|
    ensures UpTo(pre + [d] + post, p) == pre + [d]
  {
    var xs := pre + [d] + post;
    assert xs[|pre|] == d;
    forall j | 0 <= j < |pre| ensures !p(xs[j]) {
      assert xs[j] == pre[j];
    }
    assert xs[..|pre| + 1] == pre + [d];
  }

  /** Index of the last element satisfying `p`, if any. */
  function LastWhere<T>(xs: seq<T>, p: T -> bool): (r: Option<nat>)
    ensures r.Some? ==> r.value < |xs| && p(xs[r.value])
    ensures r.Some? ==> forall j :: r.value < j < |xs| ==> !p(xs[j])
    ensures r.None? ==> forall j :: 0 <= j < |xs| ==> !p(xs[j])
  {
    if xs == [] then None
    else if p(xs[|xs| - 1]) then Some(|xs| - 1)
    else LastWhere(xs[..|xs| - 1], p)
  }

  /** The last match is the one that a later match does not override. */
  lemma LastWhereIs<T>(xs: seq<T>, p: T -> bool, k: nat)
    requires k < |xs| && p(xs[k])
    requires forall j :: k < j < |xs| ==> !p(xs[j])
    ensures LastWhere(xs, p) == Some(k)
  {
    var r := LastWhere(xs, p);
    assert r.Some?;
    assert p(xs[k]);
  }

  /** Extending the scanned prefix by one element: the loop step of a
      "last match wins" scan. */
  lemma LastWhereStep<T>(xs: seq<T>, p: T -> bool, i: nat)
    requires i < |xs|
    ensures LastWhere(xs[..i + 1], p) == if p(xs[i]) then Some(i) else LastWhere(xs[..i], p)
  {
    assert xs[..i + 1][..i] == xs[..i];
  }

  /** The value a "last match wins" scan leaves behind: `f` of the last
      element satisfying `p`, or `none` when there is none. */
  function LastMapped<T, U>(xs: seq<T>, p: T -> bool, f: T -> U, none: U): U
  {
    match LastWhere(xs, p)
    case None => none
    case Some(k) => f(xs[k])
  }

  /** The loop step of such a scan. */
  lemma LastMappedStep<T, U>(xs: seq<T>, p: T -> bool, f: T -> U, none: U, i: nat)
    requires i < |xs|
    ensures LastMapped(xs[..i + 1], p, f, none) ==
      if p(xs[i]) then f(xs[i]) else LastMapped(xs[..i], p, f, none)
  {
    LastWhereStep(xs, p, i);
    assert xs[..i + 1][i] == xs[i];
    match LastWhere(xs[..i], p)
    case None =>
    case Some(k) => assert xs[..i + 1][k] == xs[..i][k];
  }

  /** The elements satisfying `p`, in their original order. */
  function Filter<T>(xs: seq<T>, p: T -> bool): (r: seq<T>)
    ensures |r| <= |xs|
    ensures forall i :: 0 <= i < |r| ==> r[i] in xs && p(r[i])
    ensures forall i :: 0 <= i < |xs| && p(xs[i]) ==> xs[i] in r
  {
    if xs == [] then []
    else Filter(xs[..|xs| - 1], p) + (if p(xs[|xs| - 1]) then [xs[|xs| - 1]] else [])
  }

  /** Filtering distributes over concatenation, so the kept elements keep
      their relative order. */
  lemma {:induction false} FilterAppend<T>(xs: seq<T>, ys: seq<T>, p: T -> bool)
    ensures Filter(xs + ys, p) == Filter(xs, p) + Filter(ys, p)
    decreases |ys|
  {
    if ys == [] {
      assert xs + ys == xs;
    } else {
      var init, last := ys[..|ys| - 1], ys[|ys| - 1];
      var tail := if p(last) then [last] else [];
      FilterAppend(xs, init, p);
      assert (xs + ys)[..|xs + ys| - 1] == xs + init;
      assert (xs + ys)[|xs + ys| - 1] == last;
      assert Filter(xs + ys, p) == Filter(xs + init, p) + tail;
      ConcatAssoc(Filter(xs, p), Filter(init, p), tail);
    }
  }

  /** Nothing is kept when no element satisfies `p`. */
  lemma {:induction false} FilterNone<T>(xs: seq<T>, p: T -> bool)
    requires forall i :: 0 <= i < |xs| ==> !p(xs[i])
    ensures Filter(xs, p) == []
    decreases |xs|
  {
    if xs != [] {
      FilterNone(xs[..|xs| - 1], p);
    }
  }

  /** Concatenation is associative. */
  lemma ConcatAssoc<T>(a: seq<T>, b: seq<T>, c: seq<T>)
    ensures a + b + c == a + (b + c)
  {
  }

  /** The value of a `key: value` line: `strings.Split(line, ":")[1]`
      trimmed, or "" for a line without a colon (where the plugins either
      do not read it or index out of range, which their callers model). */
  function FieldValue(line: string): (v: string)
    ensures Contains(line, ":") ==> v == TrimSpace(Split(line, ":")[1])
  {
    var parts := Split(line, ":");
    if |parts| >= 2 then TrimSpace(parts[1]) else ""
  }
}
