/** The functions of Go's `strings` package that the plugins use, over
    sequences of Unicode scalar values. Every separator the plugins pass is
    non-empty, so the empty-separator cases of Go are not modelled. */
module GoStrings {

  /** `sub` occurs in `s` starting at index `i`. */
  predicate OccursAt(s: string, sub: string, i: int)
  {
    0 <= i && i + |sub| <= |s| && s[i..i + |sub|] == sub
  }

  lemma OccursAtShift(s: string, sub: string)
    requires |s| > 0
    ensures forall j :: 1 <= j ==> (OccursAt(s, sub, j) <==> OccursAt(s[1..], sub, j - 1))
  {
    forall j | 1 <= j
      ensures OccursAt(s, sub, j) <==> OccursAt(s[1..], sub, j - 1)
    {
      if j + |sub| <= |s| {
        calc {
          s[1..][j - 1..j - 1 + |sub|];
          s[1..][..j - 1 + |sub|][j - 1..];
          s[..j + |sub|][1..][j - 1..];
          s[..j + |sub|][j..];
          s[j..j + |sub|];
        }
      }
    }
  }

  /** strings.Index: the index of the first occurrence of `sub` in `s`, or -1. */
  function Index(s: string, sub: string): (r: int)
    ensures r == -1 || OccursAt(s, sub, r)
    ensures forall j :: 0 <= j && (r == -1 || j < r) ==> !OccursAt(s, sub, j)
    decreases |s|
  {
    if |s| < |sub| then -1
    else if s[..|sub|] == sub then 0
    else
      var k := Index(s[1..], sub);
      OccursAtShift(s, sub);
      if k < 0 then -1 else k + 1
  }

  /** strings.Contains. */
  predicate Contains(s: string, sub: string)
  {
    Index(s, sub) >= 0
  }

  /** Contains holds exactly when `sub` occurs somewhere in `s`. */
  lemma ContainsIff(s: string, sub: string)
    ensures Contains(s, sub) <==> exists j :: OccursAt(s, sub, j)
  {
  }

  lemma ContainsAt(s: string, sub: string, i: int)
    requires OccursAt(s, sub, i)
    ensures Contains(s, sub)
  {
  }

  /** A string lacking one of the characters of `sub` cannot contain `sub`. */
  lemma NotContainsByChar(s: string, sub: string, c: char)
    requires c in sub && c !in s
    ensures !Contains(s, sub)
  {
    var k :| 0 <= k < |sub| && sub[k] == c;
    forall j | 0 <= j && j + |sub| <= |s|
      ensures !OccursAt(s, sub, j)
    {
      assert s[j..j + |sub|][k] == s[j + k];
    }
  }

  /** When the first character of `sub` does not occur in `a`, the first
      occurrence of `sub` in `a + sub + b` is the one right after `a`. */
  lemma IndexAfterPrefix(a: string, sub: string, b: string)
    requires sub != [] && sub[0] !in a
    ensures Index(a + sub + b, sub) == |a|
  {
    var s := a + sub + b;
    assert s[|a|..|a| + |sub|] == sub;
    assert OccursAt(s, sub, |a|);
    forall j | 0 <= j < |a|
      ensures !OccursAt(s, sub, j)
    {
      if j + |sub| <= |s| {
        assert s[j..j + |sub|][0] == a[j];
      }
    }
  }

  /** An occurrence inside a slice of `s` is an occurrence in `s`. */
  lemma OccursShift(x: string, s: string, sub: string, j: int, d: nat)
    requires OccursAt(x, sub, j)
    requires d + |x| <= |s| && s[d..d + |x|] == x
    ensures OccursAt(s, sub, d + j)
  {
    forall i | 0 <= i < |sub|
      ensures s[d + j..d + j + |sub|][i] == sub[i]
    {
      assert s[d + j + i] == s[d..d + |x|][j + i];
      assert x[j..j + |sub|][i] == x[j + i];
    }
    assert s[d + j..d + j + |sub|] == sub;
  }

  /** An occurrence in `s` that lies inside the slice `s[d..d + |x|] == x`
      is an occurrence in `x`. */
  lemma OccursInSlice(s: string, x: string, sub: string, j: int, d: nat)
    requires OccursAt(s, sub, j)
    requires d + |x| <= |s| && s[d..d + |x|] == x
    requires d <= j && j + |sub| <= d + |x|
    ensures OccursAt(x, sub, j - d)
  {
    forall i | 0 <= i < |sub|
      ensures x[j - d..j - d + |sub|][i] == sub[i]
    {
      assert x[j - d + i] == s[d..d + |x|][j - d + i];
      assert s[j..j + |sub|][i] == s[j + i];
    }
    assert x[j - d..j - d + |sub|] == sub;
  }

  /** No occurrence of `sub` covers a position holding a character `sub` lacks. */
  lemma OccursAvoids(s: string, sub: string, j: int, p: int)
    requires OccursAt(s, sub, j) && 0 <= p < |s| && s[p] !in sub
    ensures !(j <= p < j + |sub|)
  {
    forall i | j <= i < j + |sub|
      ensures s[i] in sub
    {
      assert s[j..j + |sub|][i - j] == s[i];
    }
  }

  /** An occurrence in either piece is an occurrence in `x + [c] + y`. */
  lemma ContainsJoined(x: string, c: char, y: string, sub: string)
    requires Contains(x, sub) || Contains(y, sub)
    ensures Contains(x + [c] + y, sub)
  {
    var s := x + [c] + y;
    if Contains(x, sub) {
      assert s[0..|x|] == x;
      OccursShift(x, s, sub, Index(x, sub), 0);
      ContainsAt(s, sub, Index(x, sub));
    } else {
      assert s[|x| + 1..|x| + 1 + |y|] == y;
      OccursShift(y, s, sub, Index(y, sub), |x| + 1);
      ContainsAt(s, sub, |x| + 1 + Index(y, sub));
    }
  }

  /** An occurrence in `x + [c] + y` of a `sub` lacking `c` is in one piece. */
  lemma ContainsSplitsAt(x: string, c: char, y: string, sub: string)
    requires c !in sub && Contains(x + [c] + y, sub)
    ensures Contains(x, sub) || Contains(y, sub)
  {
    var s := x + [c] + y;
    var j := Index(s, sub);
    assert s[|x|] == c;
    OccursAvoids(s, sub, j, |x|);
    if j + |sub| <= |x| {
      assert s[0..|x|] == x;
      OccursInSlice(s, x, sub, j, 0);
      ContainsAt(x, sub, j);
    } else {
      assert s[|x| + 1..|x| + 1 + |y|] == y;
      OccursInSlice(s, y, sub, j, |x| + 1);
      ContainsAt(y, sub, j - |x| - 1);
    }
  }

  /** An occurrence of `sub` in `x + [c] + y` lies wholly in `x` or wholly
      in `y` when `sub` does not contain `c`. */
  lemma ContainsAcross(x: string, c: char, y: string, sub: string)
    requires c !in sub
    ensures Contains(x + [c] + y, sub) <==> Contains(x, sub) || Contains(y, sub)
  {
    if Contains(x, sub) || Contains(y, sub) {
      ContainsJoined(x, c, y, sub);
    }
    if Contains(x + [c] + y, sub) {
      ContainsSplitsAt(x, c, y, sub);
    }
  }

  /** A leading character that `sub` does not start with adds no occurrence. */
  lemma ContainsAfterChar(c: char, y: string, sub: string)
    requires sub != [] && sub[0] != c
    ensures Contains([c] + y, sub) <==> Contains(y, sub)
  {
    var s := [c] + y;
    assert s[1..1 + |y|] == y;
    if Contains(y, sub) {
      OccursShift(y, s, sub, Index(y, sub), 1);
      ContainsAt(s, sub, 1 + Index(y, sub));
    }
    if Contains(s, sub) {
      var j := Index(s, sub);
      assert s[j..j + |sub|][0] == s[j];
      assert j != 0;
      OccursInSlice(s, y, sub, j, 1);
      ContainsAt(y, sub, j - 1);
    }
  }

  /** strings.HasPrefix. */
  predicate HasPrefix(s: string, prefix: string)
  {
    |prefix| <= |s| && s[..|prefix|] == prefix
  }

  /** strings.HasSuffix. */
  predicate HasSuffix(s: string, suffix: string)
  {
    |suffix| <= |s| && s[|s| - |suffix|..] == suffix
  }

  /** strings.TrimPrefix: drops `prefix` once when `s` starts with it. */
  function TrimPrefix(s: string, prefix: string): (r: string)
    ensures HasPrefix(s, prefix) ==> prefix + r == s
    ensures !HasPrefix(s, prefix) ==> r == s
  {
    if HasPrefix(s, prefix) then s[|prefix|..] else s
  }

  /** strings.TrimSuffix: drops `suffix` once when `s` ends with it. */
  function TrimSuffix(s: string, suffix: string): (r: string)
    ensures HasSuffix(s, suffix) ==> r + suffix == s
    ensures !HasSuffix(s, suffix) ==> r == s
  {
    if HasSuffix(s, suffix) then s[..|s| - |suffix|] else s
  }

  lemma TrimSuffixOf(x: string, suffix: string)
    ensures TrimSuffix(x + suffix, suffix) == x
  {
    assert (x + suffix)[|x|..] == suffix;
  }

  /** strings.Split with a non-empty separator: the pieces between the
      non-overlapping occurrences of `sep`, found from the left. */
  function Split(s: string, sep: string): (parts: seq<string>)
    requires sep != []
    ensures |parts| >= 1
    ensures |parts| >= 2 <==> Contains(s, sep)
    ensures !Contains(s, sep) ==> parts == [s]
    ensures Contains(s, sep) ==> parts[0] == s[..Index(s, sep)]
    decreases |s|
  {
    var i := Index(s, sep);
    if i < 0 then [s] else [s[..i]] + Split(s[i + |sep|..], sep)
  }

  /** The text between the first occurrence of `sep` and the next one, or
      the end of `s` when there is none. */
  function Between(s: string, sep: string): string
    requires sep != [] && Contains(s, sep)
  {
    var rest := s[Index(s, sep) + |sep|..];
    if Contains(rest, sep) then rest[..Index(rest, sep)] else rest
  }

  /** `strings.Split(s, sep)[1]` is that text. */
  lemma SplitSecond(s: string, sep: string)
    requires sep != [] && Contains(s, sep)
    ensures Split(s, sep)[1] == Between(s, sep)
  {
    var rest := s[Index(s, sep) + |sep|..];
    SplitTail(s, sep);
    if Contains(rest, sep) {
      assert Split(rest, sep)[0] == rest[..Index(rest, sep)];
    } else {
      assert Split(rest, sep) == [rest];
    }
  }

  /** After the first separator, splitting goes on with the rest. */
  lemma SplitTail(s: string, sep: string)
    requires sep != [] && Contains(s, sep)
    ensures Split(s, sep)[1] == Split(s[Index(s, sep) + |sep|..], sep)[0]
  {
    var i := Index(s, sep);
    assert Split(s, sep) == [s[..i]] + Split(s[i + |sep|..], sep);
  }

  /** strings.Join. */
  function Join(parts: seq<string>, sep: string): string
  {
    if |parts| == 0 then ""
    else if |parts| == 1 then parts[0]
    else parts[0] + sep + Join(parts[1..], sep)
  }

  /** Joining the pieces of a split gives back the original string. */
  lemma {:induction false} SplitJoin(s: string, sep: string)
    requires sep != []
    ensures Join(Split(s, sep), sep) == s
    decreases |s|
  {
    var i := Index(s, sep);
    if i >= 0 {
      var rest := s[i + |sep|..];
      SplitJoin(rest, sep);
      SplitJoinStep(s, sep);
      Glue(s, sep, i);
    }
  }

  lemma SplitJoinStep(s: string, sep: string)
    requires sep != [] && Index(s, sep) >= 0
    ensures var i := Index(s, sep);
      Join(Split(s, sep), sep) == s[..i] + sep + Join(Split(s[i + |sep|..], sep), sep)
  {
    var i := Index(s, sep);
    assert Split(s, sep) == [s[..i]] + Split(s[i + |sep|..], sep);
    JoinCons(s[..i], Split(s[i + |sep|..], sep), sep);
  }

  lemma Glue(s: string, sep: string, i: int)
    requires OccursAt(s, sep, i)
    ensures s == s[..i] + sep + s[i + |sep|..]
  {
    SliceAround(s, i, i + |sep|);
  }

  lemma JoinCons(head: string, p: seq<string>, sep: string)
    requires |p| >= 1
    ensures Join([head] + p, sep) == head + sep + Join(p, sep)
  {
    assert ([head] + p)[1..] == p;
  }

  lemma SliceAround(s: string, i: nat, j: nat)
    requires i <= j <= |s|
    ensures s == s[..i] + s[i..j] + s[j..]
  {
  }

  /** No piece of a split contains the separator. */
  lemma {:induction false} SplitPiecesFree(s: string, sep: string)
    requires sep != []
    ensures forall k :: 0 <= k < |Split(s, sep)| ==> !Contains(Split(s, sep)[k], sep)
    decreases |s|
  {
    var i := Index(s, sep);
    if i >= 0 {
      var rest := s[i + |sep|..];
      SplitPiecesFree(rest, sep);
      var head := s[..i];
      forall j | 0 <= j && j + |sep| <= |head|
        ensures !OccursAt(head, sep, j)
      {
        assert head[j..j + |sep|] == s[j..j + |sep|];
        assert !OccursAt(s, sep, j);
      }
      assert !Contains(head, sep);
      assert Split(s, sep) == [head] + Split(rest, sep);
    }
  }

  /** Splitting on a character that none of the pieces contains undoes the
      join: lines joined with "\n" split back into the same lines. */
  lemma {:induction false} JoinSplitChar(parts: seq<string>, c: char)
    requires |parts| >= 1
    requires forall k :: 0 <= k < |parts| ==> c !in parts[k]
    ensures Split(Join(parts, [c]), [c]) == parts
  {
    if |parts| == 1 {
      NotContainsByChar(parts[0], [c], c);
    } else {
      JoinSplitChar(parts[1..], c);
      JoinSplitCharStep(parts[0], Join(parts[1..], [c]), c);
      assert parts == [parts[0]] + parts[1..];
    }
  }

  lemma JoinSplitCharStep(head: string, tail: string, c: char)
    requires c !in head
    ensures Split(head + [c] + tail, [c]) == [head] + Split(tail, [c])
  {
    IndexAfterPrefix(head, [c], tail);
    var s := head + [c] + tail;
    assert s[..|head|] == head;
    assert s[|head| + 1..] == tail;
  }

  /** Splitting on a single character gives one piece more than there are
      occurrences of that character: "exactly two parts" means "exactly one
      separator". */
  lemma {:induction false} SplitCharCount(s: string, c: char)
    ensures |Split(s, [c])| == multiset(s)[c] + 1
    decreases |s|
  {
    if Index(s, [c]) < 0 {
      CharAbsent(s, c);
    } else {
      var i := Index(s, [c]);
      SplitCharCount(s[i + 1..], c);
      CharSplitStep(s, c);
    }
  }

  lemma CharAbsent(s: string, c: char)
    requires Index(s, [c]) < 0
    ensures multiset(s)[c] == 0
  {
    forall j | 0 <= j < |s| ensures s[j] != c {
      assert !OccursAt(s, [c], j);
      assert s[j..j + 1] == [s[j]];
    }
    assert c !in s;
  }

  lemma CharSplitStep(s: string, c: char)
    requires Index(s, [c]) >= 0
    ensures var i := Index(s, [c]);
      multiset(s)[c] == multiset(s[i + 1..])[c] + 1 &&
      |Split(s, [c])| == 1 + |Split(s[i + 1..], [c])|
  {
    var i := Index(s, [c]);
    var rest := s[i + 1..];
    forall j | 0 <= j < i ensures s[j] != c {
      assert !OccursAt(s, [c], j);
      assert s[j..j + 1] == [s[j]];
    }
    assert OccursAt(s, [c], i);
    assert s[i..i + 1] == [c];
    assert s == s[..i] + [c] + rest;
    assert multiset(s) == multiset(s[..i]) + multiset([c]) + multiset(rest);
    assert c !in s[..i];
    assert Split(s, [c]) == [s[..i]] + Split(rest, [c]);
  }

  /** Split of a string holding `sep` once, where `sep` cannot straddle the
      boundary after the head. */
  lemma SplitOnce(a: string, sep: string, b: string, c: char)
    requires sep != [] && sep[0] !in a
    requires c in sep && c !in b
    ensures Split(a + sep + b, sep) == [a, b]
  {
    IndexAfterPrefix(a, sep, b);
    var s := a + sep + b;
    assert s[..|a|] == a;
    assert s[|a| + |sep|..] == b;
    NotContainsByChar(b, sep, c);
  }

  /** strings.Replace(s, target, repl, 1): the first occurrence of `target` replaced. */
  function ReplaceFirst(s: string, target: string, repl: string): (r: string)
    requires target != []
    ensures !Contains(s, target) ==> r == s
    ensures Contains(s, target) ==>
              r == s[..Index(s, target)] + repl + s[Index(s, target) + |target|..]
  {
    var i := Index(s, target);
    if i < 0 then s else s[..i] + repl + s[i + |target|..]
  }

  lemma ReplaceFirstAfterPrefix(a: string, target: string, b: string, repl: string)
    requires target != [] && target[0] !in a
    ensures ReplaceFirst(a + target + b, target, repl) == a + repl + b
  {
    IndexAfterPrefix(a, target, b);
    var s := a + target + b;
    assert s[..|a|] == a;
    assert s[|a| + |target|..] == b;
  }

  /** unicode.IsSpace: the White_Space characters of Unicode. */
  predicate IsSpace(c: char)
  {
    ('\t' <= c <= '\r') || c == ' ' || c == '\U{85}' || c == '\U{A0}' || c == '\U{1680}'
    || ('\U{2000}' <= c <= '\U{200A}') || c == '\U{2028}' || c == '\U{2029}'
    || c == '\U{202F}' || c == '\U{205F}' || c == '\U{3000}'
  }

  /** strings.TrimLeftFunc: drops the longest prefix whose characters satisfy `p`. */
  function TrimLeftFunc(s: string, p: char -> bool): (r: string)
    ensures |r| <= |s|
    ensures forall i :: 0 <= i < |s| - |r| ==> p(s[i])
    ensures r == [] || !p(r[0])
  {
    if s == [] || !p(s[0]) then s else TrimLeftFunc(s[1..], p)
  }

  /** What TrimLeftFunc keeps is a suffix of its input. */
  lemma {:induction false} TrimLeftIsSuffix(s: string, p: char -> bool)
    ensures TrimLeftFunc(s, p) == s[|s| - |TrimLeftFunc(s, p)|..]
    decreases |s|
  {
    if s != [] && p(s[0]) {
      TrimLeftIsSuffix(s[1..], p);
    }
  }

  /** strings.TrimRightFunc: drops the longest suffix whose characters satisfy `p`. */
  function TrimRightFunc(s: string, p: char -> bool): (r: string)
    ensures |r| <= |s|
    ensures forall i :: |r| <= i < |s| ==> p(s[i])
    ensures r == [] || !p(r[|r| - 1])
  {
    if s == [] || !p(s[|s| - 1]) then s else TrimRightFunc(s[..|s| - 1], p)
  }

  /** What TrimRightFunc keeps is a prefix of its input. */
  lemma {:induction false} TrimRightIsPrefix(s: string, p: char -> bool)
    ensures TrimRightFunc(s, p) == s[..|TrimRightFunc(s, p)|]
    decreases |s|
  {
    if s != [] && p(s[|s| - 1]) {
      TrimRightIsPrefix(s[..|s| - 1], p);
    }
  }

  /** strings.TrimRight: `cutset` is a set of characters, not a suffix. */
  function TrimRight(s: string, cutset: string): string
  {
    TrimRightFunc(s, c => c in cutset)
  }

  /** strings.TrimSpace. */
  function TrimSpace(s: string): (r: string)
    ensures r == [] || (!IsSpace(r[0]) && !IsSpace(r[|r| - 1]))
  {
    var left := TrimLeftFunc(s, IsSpace);
    TrimRightIsPrefix(left, IsSpace);
    TrimRightFunc(left, IsSpace)
  }

  lemma {:induction false} TrimLeftSkips(pre: string, x: string, p: char -> bool)
    requires forall i :: 0 <= i < |pre| ==> p(pre[i])
    requires x == [] || !p(x[0])
    ensures TrimLeftFunc(pre + x, p) == x
    decreases |pre|
  {
    if pre != [] {
      assert (pre + x)[1..] == pre[1..] + x;
      TrimLeftSkips(pre[1..], x, p);
    } else {
      assert pre + x == x;
    }
  }

  lemma {:induction false} TrimRightSkips(x: string, post: string, p: char -> bool)
    requires forall i :: 0 <= i < |post| ==> p(post[i])
    requires x == [] || !p(x[|x| - 1])
    ensures TrimRightFunc(x + post, p) == x
    decreases |post|
  {
    if post != [] {
      assert (x + post)[..|x + post| - 1] == x + post[..|post| - 1];
      TrimRightSkips(x, post[..|post| - 1], p);
    } else {
      assert x + post == x;
    }
  }

  /** TrimSpace removes exactly the surrounding white space. */
  lemma TrimSpaceExact(pre: string, x: string, post: string)
    requires forall i :: 0 <= i < |pre| ==> IsSpace(pre[i])
    requires forall i :: 0 <= i < |post| ==> IsSpace(post[i])
    requires x != [] && !IsSpace(x[0]) && !IsSpace(x[|x| - 1])
    ensures TrimSpace(pre + x + post) == x
  {
    assert pre + x + post == pre + (x + post);
    TrimLeftSkips(pre, x + post, IsSpace);
    TrimRightSkips(x, post, IsSpace);
  }

  /** A string that neither starts nor ends with white space is its own trim. */
  lemma TrimSpaceKeeps(x: string)
    requires x == [] || (!IsSpace(x[0]) && !IsSpace(x[|x| - 1]))
    ensures TrimSpace(x) == x
  {
    if x != [] {
      TrimSpaceExact([], x, []);
      assert [] + x + [] == x;
    }
  }

  /** Trimming twice is trimming once. */
  lemma TrimSpaceIdempotent(s: string)
    ensures TrimSpace(TrimSpace(s)) == TrimSpace(s)
  {
    TrimSpaceKeeps(TrimSpace(s));
  }

  /** The trim is empty exactly when every character is white space. */
  lemma TrimSpaceBlank(s: string)
    ensures TrimSpace(s) == [] <==> forall i :: 0 <= i < |s| ==> IsSpace(s[i])
  {
    var left := TrimLeftFunc(s, IsSpace);
    if forall i :: 0 <= i < |s| ==> IsSpace(s[i]) {
      TrimLeftSkips(s, [], IsSpace);
      assert s + [] == s;
    }
    if TrimSpace(s) == [] {
      assert left == [];
    }
  }
}
