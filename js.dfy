/// The JavaScript values and built-ins that the bookmark code leans on:
/// `null` / `undefined`, `Array.prototype.findIndex`, `findLastIndex`,
/// `filter` and `splice`, and `String.prototype.replace` with a string
/// pattern. Each is stated with the contract the language specification
/// gives it, so that the modules built on top can reason about them.
module Js {

  datatype Option<+T> = None | Some(value: T) {
    /** `x ?? fallback` for a value that is either present or absent. */
    function GetOr(fallback: T): T {
      match this
      case Some(v) => v
      case None => fallback
    }
  }

  /** A value of type `string | null | undefined`. */
  datatype Nullish = Str(s: string) | Null | Undefined {
    /** JavaScript truthiness: only a non-empty string is truthy. */
    predicate Truthy() {
      Str? && s != ""
    }

    /** `this ?? fallback`: only `null` and `undefined` are replaced. */
    function Coalesce(fallback: string): (r: string)
      ensures Str? ==> r == s
      ensures !Str? ==> r == fallback
    {
      if Str? then s else fallback
    }
  }

  /** `s.findIndex(p)`: the first index whose element satisfies `p`, or -1. */
  function FindIndex<T>(s: seq<T>, p: T -> bool): (r: int)
    ensures -1 <= r < |s|
    ensures 0 <= r ==> p(s[r]) && forall k :: 0 <= k < r ==> !p(s[k])
    ensures r == -1 <==> forall k :: 0 <= k < |s| ==> !p(s[k])
  {
    if s == [] then -1
    else if p(s[0]) then 0
    else
      var r := FindIndex(s[1..], p);
      if r == -1 then -1 else r + 1
  }

  /** `s.find(p)`: the first element satisfying `p`, or `undefined`. */
  function Find<T>(s: seq<T>, p: T -> bool): (r: Option<T>)
    ensures r.None? <==> forall k :: 0 <= k < |s| ==> !p(s[k])
    ensures r.Some? ==> 0 <= FindIndex(s, p) && r.value == s[FindIndex(s, p)] && p(r.value)
  {
    var k := FindIndex(s, p);
    if k == -1 then None else Some(s[k])
  }

  /** `s.findLastIndex(p)`: the last index whose element satisfies `p`, or -1. */
  function FindLastIndex<T>(s: seq<T>, p: T -> bool): (r: int)
    ensures -1 <= r < |s|
    ensures 0 <= r ==> p(s[r]) && forall k :: r < k < |s| ==> !p(s[k])
    ensures r == -1 <==> forall k :: 0 <= k < |s| ==> !p(s[k])
  {
    if s == [] then -1
    else if p(s[|s| - 1]) then |s| - 1
    else FindLastIndex(s[..|s| - 1], p)
  }

  /**
   * `a` occurs in `b` in order, possibly with gaps. Matching greedily from
   * the front is complete for subsequences, so this is the usual relation.
   */
  ghost predicate IsSubsequence<T>(a: seq<T>, b: seq<T>)
    decreases |b|
  {
    if a == [] then true
    else if b == [] then false
    else if a[0] == b[0] then IsSubsequence(a[1..], b[1..])
    else IsSubsequence(a, b[1..])
  }

  /**
   * `s.filter(p)`: the elements of `s` that satisfy `p`, in their original
   * relative order (FilterIsSubsequence) and with their multiplicities
   * (FilterMultiplicity).
   */
  function Filter<T(!new)>(s: seq<T>, p: T -> bool): (r: seq<T>)
    ensures |r| <= |s|
  {
    if s == [] then []
    else (if p(s[0]) then [s[0]] else []) + Filter(s[1..], p)
  }

  /** `filter` keeps the elements that satisfy `p`, and only those. */
  lemma {:induction false} FilterMembers<T(!new)>(s: seq<T>, p: T -> bool)
    ensures forall x :: x in Filter(s, p) <==> x in s && p(x)
  {
    if s != [] {
      FilterMembers(s[1..], p);
      assert s == [s[0]] + s[1..];
    }
  }

  /** `filter` keeps each satisfying element as many times as `s` holds it, and no other. */
  lemma {:induction false} FilterMultiplicity<T(!new)>(s: seq<T>, p: T -> bool, x: T)
    ensures multiset(Filter(s, p))[x] == if p(x) then multiset(s)[x] else 0
  {
    if s != [] {
      assert s == [s[0]] + s[1..];
      FilterMultiplicity(s[1..], p, x);
    }
  }

  /** `filter` never reorders: its result is a subsequence of its input. */
  lemma {:induction false} FilterIsSubsequence<T(!new)>(s: seq<T>, p: T -> bool)
    ensures IsSubsequence(Filter(s, p), s)
  {
    if s != [] {
      FilterIsSubsequence(s[1..], p);
      var r := Filter(s, p);
      if p(s[0]) {
        assert r[0] == s[0] && r[1..] == Filter(s[1..], p);
      } else {
        assert r == Filter(s[1..], p);
        if r != [] {
          FilterMembers(s[1..], p);
          assert r[0] in r;
        }
      }
    }
  }

  /** `filter` distributes over concatenation: it keeps relative order. */
  lemma {:induction false} FilterConcat<T(!new)>(a: seq<T>, b: seq<T>, p: T -> bool)
    ensures Filter(a + b, p) == Filter(a, p) + Filter(b, p)
  {
    if a == [] {
      assert a + b == b;
    } else {
      assert (a + b)[0] == a[0];
      assert (a + b)[1..] == a[1..] + b;
      FilterConcat(a[1..], b, p);
      assert Filter(a + b, p) == (if p(a[0]) then [a[0]] else []) + Filter(a[1..] + b, p);
    }
  }

  /** When every element satisfies `p`, `filter` keeps the whole sequence. */
  lemma {:induction false} FilterAll<T(!new)>(s: seq<T>, p: T -> bool)
    requires forall k :: 0 <= k < |s| ==> p(s[k])
    ensures Filter(s, p) == s
  {
    if s != [] {
      FilterAll(s[1..], p);
    }
  }

  /** When no element satisfies `p`, `filter` yields the empty sequence. */
  lemma {:induction false} FilterNone<T(!new)>(s: seq<T>, p: T -> bool)
    requires forall k :: 0 <= k < |s| ==> !p(s[k])
    ensures Filter(s, p) == []
  {
    if s != [] {
      FilterNone(s[1..], p);
    }
  }

  /** An empty `filter` means no element satisfies `p`. */
  lemma {:induction false} FilterEmpty<T(!new)>(s: seq<T>, p: T -> bool)
    requires Filter(s, p) == []
    ensures forall k :: 0 <= k < |s| ==> !p(s[k])
  {
    if s != [] {
      FilterEmpty(s[1..], p);
    }
  }

  /** `p` holds outside `s[i..j]` and fails on every element inside it. */
  ghost predicate KeepsOutsideRun<T>(s: seq<T>, i: nat, j: nat, p: T -> bool)
    requires i <= j <= |s|
  {
    && (forall k :: 0 <= k < i ==> p(s[k]))
    && (forall k :: i <= k < j ==> !p(s[k]))
    && (forall k :: j <= k < |s| ==> p(s[k]))
  }

  /**
   * When the elements satisfying `p` are exactly those outside `s[i..j]`,
   * `filter` cuts that run out and keeps the rest in order.
   */
  lemma FilterCutsRun<T(!new)>(s: seq<T>, i: nat, j: nat, p: T -> bool)
    requires i <= j <= |s| && KeepsOutsideRun(s, i, j, p)
    ensures Filter(s, p) == s[..i] + s[j..]
  {
    FilterAllOfSlice(s, 0, i, p);
    FilterNoneOfSlice(s, i, j, p);
    FilterAllOfSlice(s, j, |s|, p);
    SplitThree(s, i, j);
    FilterKeepsOuterParts(s[..i], s[i..j], s[j..], p);
  }

  /** Two lists holding the same elements as often pass the same number of them through `filter`. */
  lemma FilterLengthOfPermutation<T(!new)>(a: seq<T>, b: seq<T>, p: T -> bool)
    requires multiset(a) == multiset(b)
    ensures |Filter(a, p)| == |Filter(b, p)|
  {
    forall x
      ensures multiset(Filter(a, p))[x] == multiset(Filter(b, p))[x]
    {
      FilterMultiplicity(a, p, x);
      FilterMultiplicity(b, p, x);
    }
    assert multiset(Filter(a, p)) == multiset(Filter(b, p));
    assert |multiset(Filter(a, p))| == |Filter(a, p)|;
    assert |multiset(Filter(b, p))| == |Filter(b, p)|;
  }

  /** `filter` of three joined parts, of which it keeps the outer two whole and drops the middle. */
  lemma FilterKeepsOuterParts<T(!new)>(a: seq<T>, b: seq<T>, c: seq<T>, p: T -> bool)
    requires Filter(a, p) == a && Filter(b, p) == [] && Filter(c, p) == c
    ensures Filter(a + b + c, p) == a + c
  {
    FilterOfParts(a, b, c, p);
    assert a + [] == a;
  }

  /** A slice whose every element satisfies `p` passes `filter` whole. */
  lemma FilterAllOfSlice<T(!new)>(s: seq<T>, lo: nat, hi: nat, p: T -> bool)
    requires lo <= hi <= |s|
    requires forall k :: lo <= k < hi ==> p(s[k])
    ensures Filter(s[lo..hi], p) == s[lo..hi]
    ensures lo == 0 ==> Filter(s[..hi], p) == s[..hi]
    ensures hi == |s| ==> Filter(s[lo..], p) == s[lo..]
  {
    var part := s[lo..hi];
    assert forall k :: 0 <= k < |part| ==> part[k] == s[lo + k];
    FilterAll(part, p);
    assert lo == 0 ==> part == s[..hi];
    assert hi == |s| ==> part == s[lo..];
  }

  /** A slice whose no element satisfies `p` is dropped by `filter`. */
  lemma FilterNoneOfSlice<T(!new)>(s: seq<T>, lo: nat, hi: nat, p: T -> bool)
    requires lo <= hi <= |s|
    requires forall k :: lo <= k < hi ==> !p(s[k])
    ensures Filter(s[lo..hi], p) == []
  {
    var part := s[lo..hi];
    assert forall k :: 0 <= k < |part| ==> part[k] == s[lo + k];
    FilterNone(part, p);
  }

  /** A sequence is its three parts around `s[i..j]`, joined. */
  lemma SplitThree<T>(s: seq<T>, i: nat, j: nat)
    requires i <= j <= |s|
    ensures s == s[..i] + s[i..j] + s[j..]
  {
    assert s[..j] == s[..i] + s[i..j];
  }

  /** `filter` of three joined parts is the `filter`s of the parts, joined. */
  lemma FilterOfParts<T(!new)>(a: seq<T>, b: seq<T>, c: seq<T>, p: T -> bool)
    ensures Filter(a + b + c, p) == Filter(a, p) + Filter(b, p) + Filter(c, p)
  {
    FilterConcat(a + b, c, p);
    FilterConcat(a, b, p);
  }

  /**
   * The element of `s` that lands at position `|Filter(s[..i], p)|` of
   * `Filter(s, p)` is `s[i]` itself: a match's rank among the matches is
   * the number of matches before it.
   */
  lemma FilterRank<T(!new)>(s: seq<T>, i: nat, p: T -> bool)
    requires i < |s| && p(s[i])
    ensures |Filter(s[..i], p)| < |Filter(s, p)|
    ensures Filter(s, p)[|Filter(s[..i], p)|] == s[i]
  {
    assert s == s[..i] + ([s[i]] + s[i + 1..]);
    FilterConcat(s[..i], [s[i]] + s[i + 1..], p);
    FilterConcat([s[i]], s[i + 1..], p);
  }

  /**
   * The last element of a non-empty `filter` is the element at the last
   * index satisfying `p`.
   */
  lemma {:induction false} FilterLast<T(!new)>(s: seq<T>, p: T -> bool)
    requires Filter(s, p) != []
    ensures 0 <= FindLastIndex(s, p)
    ensures Filter(s, p)[|Filter(s, p)| - 1] == s[FindLastIndex(s, p)]
  {
    var n := |s|;
    var init, last := s[..n - 1], s[n - 1];
    assert s == init + [last];
    FilterConcat(init, [last], p);
    assert Filter([last], p) == if p(last) then [last] else [] by {
      assert [last][1..] == [];
    }
    if !p(last) {
      assert Filter(s, p) == Filter(init, p);
      FilterLast(init, p);
    }
  }

  /** Where `splice(start, …)` begins on an array of length `len`. */
  function SpliceStart(len: nat, start: int): (r: nat)
    ensures r <= len
    ensures 0 <= start <= len ==> r == start
    ensures start > len ==> r == len
    ensures start < 0 ==> r == if len + start < 0 then 0 else len + start
  {
    if start < 0 then (if len + start < 0 then 0 else len + start)
    else if start > len then len
    else start
  }

  /** How many elements `splice(start, deleteCount, …)` removes. */
  function SpliceCount(len: nat, start: int, deleteCount: int): (r: nat)
    ensures SpliceStart(len, start) + r <= len
    ensures 0 <= deleteCount && SpliceStart(len, start) + deleteCount <= len ==> r == deleteCount
  {
    var a := SpliceStart(len, start);
    if deleteCount < 0 then 0
    else if a + deleteCount > len then len - a
    else deleteCount
  }

  /** The array after a `splice`, and the array `splice` returns. */
  datatype Spliced<T> = Spliced(after: seq<T>, removed: seq<T>)

  /**
   * `s.splice(start, deleteCount, ...items)`: removes a run of the array
   * and puts `items` in its place, returning the removed run. Everything
   * before the run and after it is kept, in order.
   */
  function Splice<T>(s: seq<T>, start: int, deleteCount: int, items: seq<T>): (r: Spliced<T>)
    ensures var a, d := SpliceStart(|s|, start), SpliceCount(|s|, start, deleteCount);
      && |r.removed| == d
      && r.removed == s[a..a + d]
      && r.after == s[..a] + items + s[a + d..]
      && |r.after| == |s| - d + |items|
      && (items == [] ==> r.after == s[..a] + s[a + d..])
  {
    var a, d := SpliceStart(|s|, start), SpliceCount(|s|, start, deleteCount);
    assert s == s[..a] + s[a..a + d] + s[a + d..];
    Spliced(s[..a] + items + s[a + d..], s[a..a + d])
  }

  /** A `splice` that deletes nothing puts `items` in at the clamped start. */
  lemma SpliceInsert<T>(s: seq<T>, j: nat, items: seq<T>)
    ensures var at := if j <= |s| then j else |s|;
      Splice(s, j, 0, items).after == s[..at] + items + s[at..]
  {
    var at := if j <= |s| then j else |s|;
    assert SpliceStart(|s|, j) == at && SpliceCount(|s|, j, 0) == 0;
    assert s[at + 0..] == s[at..];
  }

  /** A `splice` that adds nothing, from an index inside `s`, cuts out the clamped run there. */
  lemma SpliceCut<T>(s: seq<T>, i: nat, d: int)
    requires i <= |s|
    ensures var n, r := SpliceCount(|s|, i, d), Splice(s, i, d, []);
      r.after == s[..i] + s[i + n..] && r.removed == s[i..i + n]
  {
    assert SpliceStart(|s|, i) == i;
  }

  /** `splice` loses nothing: what it removed and what is left hold the input and the inserted items. */
  lemma SplicePermutes<T>(s: seq<T>, start: int, deleteCount: int, items: seq<T>)
    ensures var r := Splice(s, start, deleteCount, items);
      multiset(r.after) + multiset(r.removed) == multiset(s) + multiset(items)
  {
    var a, d := SpliceStart(|s|, start), SpliceCount(|s|, start, deleteCount);
    var r := Splice(s, start, deleteCount, items);
    var x, y, z := s[..a], s[a..a + d], s[a + d..];
    SplitThree(s, a, a + d);
    assert s == x + y + z && r.after == x + items + z && r.removed == y;
    assert multiset(s) == multiset(x) + multiset(y) + multiset(z);
    assert multiset(r.after) == multiset(x) + multiset(items) + multiset(z);
  }

  /** `t` occurs in `s` starting at position `k`. */
  predicate OccursAt(s: string, t: string, k: int) {
    0 <= k && k + |t| <= |s| && s[k..k + |t|] == t
  }

  /** `s.indexOf(t)`: the first position at which `t` occurs in `s`, or -1. */
  function IndexOf(s: string, t: string): (r: int)
    ensures r == -1 || 0 <= r <= |s| - |t|
    ensures 0 <= r ==> OccursAt(s, t, r) && forall k :: 0 <= k < r ==> !OccursAt(s, t, k)
    ensures r == -1 <==> forall k :: !OccursAt(s, t, k)
    decreases |s|
  {
    if |s| < |t| then -1
    else if s[..|t|] == t then 0
    else
      var r := IndexOf(s[1..], t);
      assert forall k :: 1 <= k ==> (OccursAt(s, t, k) <==> OccursAt(s[1..], t, k - 1)) by {
        forall k | 1 <= k ensures OccursAt(s, t, k) <==> OccursAt(s[1..], t, k - 1) {
          if k + |t| <= |s| {
            var a, b := s[k..k + |t|], s[1..][k - 1..k - 1 + |t|];
            assert |a| == |b| && forall j :: 0 <= j < |a| ==> a[j] == b[j];
          }
        }
      }
      assert !OccursAt(s, t, 0);
      if r == -1 then -1 else r + 1
  }

  /**
   * `s.replace(t, u)` with a string pattern: only the first occurrence is
   * replaced. The `$&`, `$1`, ... patterns a replacement string may hold are
   * not interpreted; the code replaces with `""`, which holds none.
   */
  function ReplaceFirst(s: string, t: string, u: string): (r: string)
    ensures IndexOf(s, t) == -1 ==> r == s
    ensures 0 <= IndexOf(s, t) ==>
      var i := IndexOf(s, t); r == s[..i] + u + s[i + |t|..]
  {
    var i := IndexOf(s, t);
    if i == -1 then s else s[..i] + u + s[i + |t|..]
  }
}
