/**
 Range values (liburb/source/values.cpp): the in-place coalescing pass, and the comparisons built on it.
 `<=` decides inclusion of the numbers covered, which is how `Values` represents them; `==` decides equality where no
 increment overflows at the largest 64-bit number.
 */
module RangeValues {

  /** The largest `uint64_t`. */
  const MAX: nat := 0xFFFF_FFFF_FFFF_FFFF

  datatype Range = Range(start: nat, end: nat)

  predicate InBounds(s: seq<Range>) {
    forall i :: 0 <= i < |s| ==> s[i].start <= s[i].end <= MAX
  }

  /** `x + 1` in 64 bits. */
  function Successor(x: nat): nat { if x >= MAX then 0 else x + 1 }

  predicate Before(a: Range, b: Range) {
    a.start < b.start || (a.start == b.start && a.end <= b.end)
  }

  predicate Sorted(s: seq<Range>) {
    forall i, j :: 0 <= i < j < |s| ==> Before(s[i], s[j])
  }

  /** The numbers covered. */
  ghost predicate Covered(s: seq<Range>, x: nat) {
    exists i :: 0 <= i < |s| && s[i].start <= x <= s[i].end
  }

  /** Coalesced: in order, with a gap between any two ranges. */
  ghost predicate Canonical(s: seq<Range>) {
    && (forall i :: 0 <= i < |s| ==> s[i].start <= s[i].end)
    && (forall i, j :: 0 <= i < j < |s| ==> s[i].end + 1 < s[j].start)
  }

  // ------------------------------------------------------------ sorting

  function Insert(r: Range, s: seq<Range>): seq<Range> {
    if s == [] || Before(r, s[0]) then [r] + s else [s[0]] + Insert(r, s[1..])
  }

  /** The result of `std::sort` on start and end. */
  function Sort(s: seq<Range>): seq<Range> {
    if s == [] then [] else Insert(s[0], Sort(s[1..]))
  }

  lemma {:induction false} InsertSorts(r: Range, s: seq<Range>)
    requires Sorted(s)
    ensures Sorted(Insert(r, s)) && multiset(Insert(r, s)) == multiset{r} + multiset(s)
  {
    if s != [] {
      assert s == [s[0]] + s[1..];
      if !Before(r, s[0]) {
        InsertSorts(r, s[1..]);
        var t := Insert(r, s[1..]);
        forall k | 0 <= k < |t| ensures Before(s[0], t[k]) {
          assert t[k] in multiset(t);
          if t[k] != r { assert t[k] in s[1..]; }
        }
      }
    }
  }

  lemma {:induction false} SortSorts(s: seq<Range>)
    ensures Sorted(Sort(s)) && multiset(Sort(s)) == multiset(s)
  {
    if s != [] {
      SortSorts(s[1..]);
      InsertSorts(s[0], Sort(s[1..]));
      assert s == [s[0]] + s[1..];
    }
  }

  lemma {:induction false} SameElements(s: seq<Range>, t: seq<Range>)
    requires multiset(s) == multiset(t)
    ensures InBounds(s) ==> InBounds(t)
    ensures forall x: nat :: Covered(s, x) <==> Covered(t, x)
  {
    forall r ensures r in s <==> r in t { assert r in s <==> r in multiset(s); assert r in t <==> r in multiset(t); }
    forall i | 0 <= i < |t| ensures t[i] in s {}
    forall x: nat ensures Covered(s, x) <==> Covered(t, x) {
      if Covered(s, x) { var i :| 0 <= i < |s| && s[i].start <= x <= s[i].end; assert s[i] in t; }
      if Covered(t, x) { var i :| 0 <= i < |t| && t[i].start <= x <= t[i].end; assert t[i] in s; }
    }
  }

  // ------------------------------------------------------------ the pass

  /** The ranges recorded so far, the range being extended, and the ranges still to come. */
  function Pass(done: seq<Range>, current: Range, rest: seq<Range>): seq<Range>
    decreases |rest|
  {
    if rest == [] then done + [current]
    else
      var r := rest[0];
      if r == current then Pass(done, current, rest[1..])
      else if r.start == current.start && r.end > current.end then Pass(done, current.(end := r.end), rest[1..])
      else if r.start > current.start then
        if r.start <= Successor(current.end)
        then Pass(done, current.(end := if current.end > r.end then current.end else r.end), rest[1..])
        else Pass(done + [current], r, rest[1..])
      else Pass(done, current, rest[1..])
  }

  function Coalesced(s: seq<Range>): seq<Range>
  {
    SortSorts(s);
    assert |multiset(Sort(s))| == |Sort(s)| && |multiset(s)| == |s|;
    if s == [] then [] else Pass([], Sort(s)[0], Sort(s))
  }

  /** The pass in place: results are written over ranges that have been read. */
  method CoalesceInPlace(ranges: array<Range>) returns (count: nat)
    requires ranges.Length > 0
    modifies ranges
    ensures count <= ranges.Length
    ensures ranges[..count] == Pass([], old(ranges[0]), old(ranges[..]))
  {
    count := 1;
    var current := ranges[0];
    var i := 0;
    while i < ranges.Length
      invariant 0 <= i <= ranges.Length && 1 <= count && (count <= i || (i == 0 && count == 1))
      invariant ranges[i..] == old(ranges[..])[i..]
      invariant Pass(ranges[..count - 1], current, ranges[i..]) == Pass([], old(ranges[0]), old(ranges[..]))
      invariant i == 0 ==> current == ranges[0]
    {
      var range := ranges[i];
      assert ranges[i..][0] == range && ranges[i..][1..] == ranges[i + 1..];
      i := i + 1;
      if range.start == current.start && range.end == current.end {
        continue;
      }
      if range.start == current.start && range.end > current.end {
        current := current.(end := range.end);
      } else if range.start > current.start {
        if range.start <= Successor(current.end) {
          current := current.(end := if current.end > range.end then current.end else range.end);
        } else {
          ghost var before := ranges[..count - 1];
          ranges[count - 1] := current;
          assert ranges[..count] == before + [current];
          count := count + 1;
          current := range;
        }
      }
    }
    ghost var before := ranges[..count - 1];
    ranges[count - 1] := current;
    assert ranges[..count] == before + [current];
  }

  /** `coalesce`: sort, then one pass. */
  method Coalesce(s: seq<Range>) returns (result: seq<Range>)
    ensures result == Coalesced(s)
  {
    if s == [] {
      return [];
    }
    var sorted := Sort(s);
    SortSorts(s);
    assert |multiset(sorted)| == |sorted| && |multiset(s)| == |s|;
    var ranges := new Range[|sorted|](i requires 0 <= i < |sorted| => sorted[i]);
    assert ranges[..] == sorted;
    var count := CoalesceInPlace(ranges);
    return ranges[..count];
  }

  // ------------------------------------------------------------ what the pass computes

  ghost predicate Follows(current: Range, rest: seq<Range>) {
    Sorted(rest) && forall i :: 0 <= i < |rest| ==> current.start <= rest[i].start
  }

  ghost predicate In(r: Range, x: nat) { r.start <= x <= r.end }

  lemma {:induction false} CoveredCons(s: seq<Range>, x: nat)
    requires s != []
    ensures Covered(s, x) <==> In(s[0], x) || Covered(s[1..], x)
  {
    if Covered(s, x) && !In(s[0], x) {
      var i :| 0 <= i < |s| && s[i].start <= x <= s[i].end;
      assert s[1..][i - 1] == s[i];
    }
    if Covered(s[1..], x) {
      var i :| 0 <= i < |s[1..]| && s[1..][i].start <= x <= s[1..][i].end;
      assert s[i + 1] == s[1..][i];
    }
  }

  lemma {:induction false} CoveredSnoc(s: seq<Range>, r: Range, x: nat)
    ensures Covered(s + [r], x) <==> Covered(s, x) || In(r, x)
  {
    var t := s + [r];
    if Covered(t, x) && !In(r, x) {
      var i :| 0 <= i < |t| && t[i].start <= x <= t[i].end;
      assert i < |s| && t[i] == s[i];
    }
    if Covered(s, x) {
      var i :| 0 <= i < |s| && s[i].start <= x <= s[i].end;
      assert t[i] == s[i];
    }
    if In(r, x) { assert t[|s|] == r; }
  }

  lemma {:induction false} CoveredBy(l: seq<Range>, r: seq<Range>, x: nat)
    requires forall y :: y in l ==> y in r
    ensures Covered(l, x) ==> Covered(r, x)
  {
    if Covered(l, x) {
      var i :| 0 <= i < |l| && l[i].start <= x <= l[i].end;
      assert l[i] in r;
      var j :| 0 <= j < |r| && r[j] == l[i];
      assert r[j].start <= x <= r[j].end;
    }
  }

  /** No number is gained or lost, not even by 64-bit overflow. */
  lemma {:induction false} PassCovers(done: seq<Range>, current: Range, rest: seq<Range>, x: nat)
    requires Follows(current, rest) && current.start <= current.end && InBounds(rest)
    ensures Covered(Pass(done, current, rest), x) <==> Covered(done, x) || In(current, x) || Covered(rest, x)
    decreases |rest|
  {
    if rest == [] {
      CoveredSnoc(done, current, x);
    } else {
      var r, tail := rest[0], rest[1..];
      CoveredCons(rest, x);
      assert r.start <= r.end <= MAX;
      if r == current {
        PassCovers(done, current, tail, x);
      } else if r.start == current.start && r.end > current.end {
        PassCovers(done, current.(end := r.end), tail, x);
      } else if r.start > current.start {
        if r.start <= Successor(current.end) {
          PassCovers(done, current.(end := if current.end > r.end then current.end else r.end), tail, x);
        } else {
          CoveredSnoc(done, current, x);
          PassCovers(done + [current], r, tail, x);
        }
      } else {
        PassCovers(done, current, tail, x);
      }
    }
  }

  /** What is recorded stays, and the range being extended keeps its start. */
  lemma {:induction false} PassPrefix(done: seq<Range>, current: Range, rest: seq<Range>)
    ensures var p := Pass(done, current, rest); done < p && p[|done|].start == current.start
    decreases |rest|
  {
    if rest != [] {
      var r, tail := rest[0], rest[1..];
      if r == current {
        PassPrefix(done, current, tail);
      } else if r.start == current.start && r.end > current.end {
        PassPrefix(done, current.(end := r.end), tail);
      } else if r.start > current.start && r.start <= Successor(current.end) {
        PassPrefix(done, current.(end := if current.end > r.end then current.end else r.end), tail);
      } else if r.start > current.start {
        PassPrefix(done + [current], r, tail);
      } else {
        PassPrefix(done, current, tail);
      }
    }
  }

  /** Starts ascend, and no range is empty. */
  ghost predicate Ascending(s: seq<Range>) {
    && (forall i :: 0 <= i < |s| ==> s[i].start <= s[i].end)
    && (forall i, j :: 0 <= i < j < |s| ==> s[i].start < s[j].start)
  }

  lemma {:induction false} PassAscends(done: seq<Range>, current: Range, rest: seq<Range>)
    requires Follows(current, rest) && InBounds(rest) && Ascending(done + [current])
    ensures Ascending(Pass(done, current, rest))
    decreases |rest|
  {
    if rest != [] {
      var r, tail := rest[0], rest[1..];
      var all := done + [current];
      assert r.start <= r.end && all[|done|] == current && forall i :: 0 <= i < |done| ==> all[i] == done[i];
      if r == current {
        PassAscends(done, current, tail);
      } else if r.start == current.start && r.end > current.end {
        PassAscends(done, current.(end := r.end), tail);
      } else if r.start > current.start {
        if r.start <= Successor(current.end) {
          PassAscends(done, current.(end := if current.end > r.end then current.end else r.end), tail);
        } else {
          PassAscends(all, r, tail);
        }
      } else {
        PassAscends(done, current, tail);
      }
    }
  }

  ghost predicate Apart(done: seq<Range>, current: Range) {
    Canonical(done) && forall i :: 0 <= i < |done| ==> done[i].end + 1 < current.start
  }

  lemma {:induction false} ApartSnoc(done: seq<Range>, current: Range)
    requires Apart(done, current) && current.start <= current.end
    ensures Canonical(done + [current])
  {
  }

  /** A range that ends at the largest number covers all that come after it, which the pass then keeps beside it. */
  lemma {:induction false} PassOverflows(done: seq<Range>, current: Range, rest: seq<Range>)
    requires Follows(current, rest) && InBounds(rest) && current.start <= current.end == MAX && Apart(done, current)
    requires rest != [] && rest[0].start > current.start
    ensures var p, k := Pass(done, current, rest), |done| + 1;
            && k <= |p| && !Canonical(p) && Canonical(p[..k]) && forall x: nat :: Covered(p, x) ==> Covered(p[..k], x)
  {
    var p, k := Pass(done, current, rest), |done| + 1;
    PassPrefix(done + [current], rest[0], rest[1..]);
    assert p[..k] == done + [current];
    ApartSnoc(done, current);
    assert p[|done|] == current && p[k].start == rest[0].start <= MAX;
    forall x: nat | Covered(p, x) ensures Covered(p[..k], x) {
      PassCovers(done, current, rest, x);
      CoveredSnoc(done, current, x);
    }
  }

  /** A first part of the result is in order, has gaps and covers everything; it is all of the result if that is so. */
  lemma {:induction false} PassPart(done: seq<Range>, current: Range, rest: seq<Range>) returns (k: nat)
    requires Follows(current, rest) && InBounds(rest) && current.start <= current.end <= MAX && Apart(done, current)
    ensures var p := Pass(done, current, rest);
            && k <= |p| && (k == |p| <==> Canonical(p)) && Canonical(p[..k])
            && forall x: nat :: Covered(p, x) ==> Covered(p[..k], x)
    decreases |rest|
  {
    if rest == [] {
      ApartSnoc(done, current);
      k := |done| + 1;
      assert Pass(done, current, rest)[..k] == done + [current];
    } else {
      var r, tail := rest[0], rest[1..];
      assert r.start <= r.end <= MAX;
      if r == current {
        k := PassPart(done, current, tail);
      } else if r.start == current.start && r.end > current.end {
        k := PassPart(done, current.(end := r.end), tail);
      } else if r.start > current.start {
        if r.start <= Successor(current.end) {
          k := PassPart(done, current.(end := if current.end > r.end then current.end else r.end), tail);
        } else if current.end == MAX {
          PassOverflows(done, current, rest);
          k := |done| + 1;
        } else {
          ApartSnoc(done, current);
          k := PassPart(done + [current], r, tail);
        }
      } else {
        k := PassPart(done, current, tail);
      }
    }
  }

  lemma {:induction false} SortedFollows(s: seq<Range>)
    requires s != []
    ensures Sort(s) != [] && Follows(Sort(s)[0], Sort(s)) && Sort(s)[0] in s
  {
    SortSorts(s);
    assert |multiset(Sort(s))| == |Sort(s)| && |multiset(s)| == |s|;
    assert Sort(s)[0] in multiset(Sort(s));
  }

  /** `coalesce` covers the same numbers. */
  lemma {:induction false} CoalescedCovers(s: seq<Range>, x: nat)
    requires InBounds(s)
    ensures Covered(Coalesced(s), x) <==> Covered(s, x)
  {
    if s != [] {
      SortSorts(s);
      SortedFollows(s);
      SameElements(s, Sort(s));
      PassCovers([], Sort(s)[0], Sort(s), x);
    }
  }

  lemma {:induction false} CoalescedAscends(s: seq<Range>)
    requires InBounds(s)
    ensures Ascending(Coalesced(s))
  {
    if s != [] {
      SortSorts(s);
      SortedFollows(s);
      SameElements(s, Sort(s));
      PassAscends([], Sort(s)[0], Sort(s));
    }
  }

  /** Some first part of its result is in order, has gaps and covers the same numbers. */
  lemma {:induction false} CoalescedPart(s: seq<Range>) returns (part: seq<Range>)
    requires InBounds(s)
    ensures part <= Coalesced(s) && Canonical(part) && (part == Coalesced(s) <==> Canonical(Coalesced(s)))
    ensures forall x: nat :: Covered(part, x) <==> Covered(s, x)
  {
    if s == [] {
      part := [];
    } else {
      SortSorts(s);
      SortedFollows(s);
      SameElements(s, Sort(s));
      var c := Coalesced(s);
      var k := PassPart([], Sort(s)[0], Sort(s));
      part := c[..k];
      forall x: nat ensures Covered(part, x) <==> Covered(s, x) {
        CoalescedCovers(s, x);
        if Covered(part, x) { CoveredBy(part, c, x); }
      }
    }
  }

  // ------------------------------------------------------------ when the increment overflows

  predicate LastOf(s: seq<Range>, a: Range) {
    forall b :: b in s && Before(a, b) ==> b == a
  }

  /** The number before the range is covered. */
  ghost predicate Adjoined(s: seq<Range>, a: Range) { a.start > 0 && Covered(s, a.start - 1) }

  /** A range that ends at the largest number is the last one in order, and not repeated if the number before it is covered. */
  ghost predicate Clean(s: seq<Range>) {
    forall a :: a in s && a.end == MAX ==> LastOf(s, a) && (multiset(s)[a] == 1 || !Adjoined(s, a))
  }

  /** The same with a range in front that is being extended. */
  ghost predicate CleanAfter(current: Range, rest: seq<Range>) {
    forall a :: a in rest && a.end == MAX ==> FitsAfter(current, rest, a)
  }

  ghost predicate FitsAfter(current: Range, rest: seq<Range>, a: Range) {
    LastOf(rest, a) && (multiset(rest)[a] == 1 || (!Adjoined([current], a) && !Adjoined(rest, a)))
  }

  /** Once the range being extended ends at the largest number, only ranges of the same start may follow. */
  lemma {:induction false} PassAtMax(done: seq<Range>, current: Range, rest: seq<Range>)
    requires Follows(current, rest) && InBounds(rest) && current.start <= current.end == MAX && Apart(done, current)
    ensures Canonical(Pass(done, current, rest)) <==> forall i :: 0 <= i < |rest| ==> rest[i].start == current.start
    decreases |rest|
  {
    if rest == [] {
      ApartSnoc(done, current);
    } else if rest[0].start > current.start {
      PassOverflows(done, current, rest);
    } else {
      var tail := rest[1..];
      PassAtMax(done, current, tail);
      assert forall i :: 1 <= i < |rest| ==> rest[i] == tail[i - 1];
      assert rest[0].start == current.start && rest[0].end <= MAX;
    }
  }
  lemma {:induction false} FitsStep(current: Range, next: Range, r: Range, tail: seq<Range>, rest: seq<Range>, a: Range)
    requires rest == [r] + tail && a in tail && a.end == MAX && r.end < MAX && Before(r, a)
    requires forall x: nat :: x + 1 >= r.start ==> (In(current, x) || In(r, x) <==> In(next, x))
    ensures FitsAfter(current, rest, a) <==> FitsAfter(next, tail, a)
  {
    assert multiset(rest)[a] == multiset(tail)[a];
    assert LastOf(rest, a) <==> LastOf(tail, a);
    if a.start > 0 {
      var x := a.start - 1;
      CoveredCons(rest, x);
      assert rest[1..] == tail;
      CoveredOne(current, x);
      CoveredOne(next, x);
    }
  }

  /** A range that ends below the largest number and comes first takes no part in the condition. */
  lemma {:induction false} CleanStep(current: Range, next: Range, rest: seq<Range>)
    requires rest != [] && Sorted(rest) && rest[0].end < MAX
    requires forall x: nat :: x + 1 >= rest[0].start ==> (In(current, x) || In(rest[0], x) <==> In(next, x))
    ensures CleanAfter(current, rest) <==> CleanAfter(next, rest[1..])
  {
    var r, tail := rest[0], rest[1..];
    assert rest == [r] + tail;
    forall a | a in tail && a.end == MAX ensures FitsAfter(current, rest, a) <==> FitsAfter(next, tail, a) {
      var i :| 0 <= i < |tail| && tail[i] == a;
      assert rest[i + 1] == a;
      FitsStep(current, next, r, tail, rest, a);
    }
    forall a ensures a in rest && a.end == MAX <==> a in tail && a.end == MAX {}
  }

  lemma {:induction false} CoveredOne(r: Range, x: nat)
    ensures Covered([r], x) <==> In(r, x)
  {
    CoveredCons([r], x);
  }

  /** A range that ends at the largest number is followed by none, or by copies of it and joined by none. */
  lemma {:induction false} CleanFirst(current: Range, rest: seq<Range>)
    requires rest != [] && Sorted(rest) && InBounds(rest) && rest[0].end == MAX && current.start <= current.end
    ensures var r := rest[0];
            CleanAfter(current, rest) <==>
            |rest| == 1 || ((forall i :: 0 <= i < |rest| ==> rest[i].start == r.start) && !Adjoined([current], r))
  {
    var r, tail := rest[0], rest[1..];
    assert rest == [r] + tail && r in rest;
    if |rest| == 1 {
      assert multiset(rest)[r] == 1;
    } else {
      assert r in tail <==> multiset(rest)[r] > 1;
      if CleanAfter(current, rest) {
        assert FitsAfter(current, rest, r);
        forall i | 0 <= i < |rest| ensures rest[i] == r { assert rest[i] in rest && Before(r, rest[i]); }
        assert tail[0] == rest[1] == r;
      }
      if (forall i :: 0 <= i < |rest| ==> rest[i].start == r.start) && !Adjoined([current], r) {
        AllCopies(current, rest);
      }
    }
  }

  lemma {:induction false} AllCopies(current: Range, rest: seq<Range>)
    requires rest != [] && Sorted(rest) && InBounds(rest) && rest[0].end == MAX
    requires (forall i :: 0 <= i < |rest| ==> rest[i].start == rest[0].start) && !Adjoined([current], rest[0])
    ensures CleanAfter(current, rest)
  {
    var r := rest[0];
    forall i | 0 <= i < |rest| ensures rest[i] == r { assert i > 0 ==> Before(r, rest[i]); }
    forall a | a in rest && a.end == MAX ensures FitsAfter(current, rest, a) {
      assert a == r;
      assert forall b :: b in rest ==> b == r;
    }
  }

  /** The range in front ends below the largest number: the result has gaps exactly if the condition holds. */
  lemma {:induction false} PassBelowMax(done: seq<Range>, current: Range, rest: seq<Range>)
    requires Follows(current, rest) && InBounds(rest) && current.start <= current.end < MAX && Apart(done, current)
    ensures Canonical(Pass(done, current, rest)) <==> CleanAfter(current, rest)
    decreases |rest|
  {
    if rest == [] {
      ApartSnoc(done, current);
    } else {
      var r := rest[0];
      assert current.start <= r.start <= r.end <= MAX;
      if r.end < MAX { NextBelowMax(done, current, rest); } else { NextAtMax(done, current, rest); }
    }
  }

  /** All branches that record nothing extend the range in front to the later end. */
  lemma {:induction false} PassMerges(done: seq<Range>, current: Range, next: Range, rest: seq<Range>)
    requires rest != [] && current.start <= rest[0].start <= current.end + 1 <= MAX
    requires next == current.(end := if current.end > rest[0].end then current.end else rest[0].end)
    ensures Pass(done, current, rest) == Pass(done, next, rest[1..])
  {
  }

  lemma {:induction false} NextBelowMax(done: seq<Range>, current: Range, rest: seq<Range>)
    requires Follows(current, rest) && InBounds(rest) && current.start <= current.end < MAX && Apart(done, current)
    requires rest != [] && rest[0].end < MAX
    ensures Canonical(Pass(done, current, rest)) <==> CleanAfter(current, rest)
    decreases |rest|, 0
  {
    var r, tail := rest[0], rest[1..];
    assert current.start <= r.start <= r.end;
    if r.start > current.end + 1 {
      ApartSnoc(done, current);
      assert Pass(done, current, rest) == Pass(done + [current], r, tail);
      CleanStep(current, r, rest);
      PassBelowMax(done + [current], r, tail);
    } else {
      var next := current.(end := if current.end > r.end then current.end else r.end);
      PassMerges(done, current, next, rest);
      CleanStep(current, next, rest);
      PassBelowMax(done, next, tail);
    }
  }

  lemma {:induction false} NextAtMax(done: seq<Range>, current: Range, rest: seq<Range>)
    requires Follows(current, rest) && InBounds(rest) && current.start <= current.end < MAX && Apart(done, current)
    requires rest != [] && rest[0].end == MAX
    ensures Canonical(Pass(done, current, rest)) <==> CleanAfter(current, rest)
  {
    CleanFirst(current, rest);
    if rest[0].start > 0 { CoveredOne(current, rest[0].start - 1); }
    if rest[0].start > current.end + 1 {
      ApartSnoc(done, current);
      AtMaxTail(done + [current], rest[0], rest);
      assert Pass(done, current, rest) == Pass(done + [current], rest[0], rest[1..]);
    } else {
      PassMerges(done, current, current.(end := MAX), rest);
      AtMaxTail(done, current.(end := MAX), rest);
    }
  }

  lemma {:induction false} AtMaxTail(done: seq<Range>, current: Range, rest: seq<Range>)
    requires rest != [] && Sorted(rest) && InBounds(rest)
    requires current.start <= rest[0].start && current.start <= current.end == MAX && Apart(done, current)
    ensures Canonical(Pass(done, current, rest[1..])) <==>
            |rest| == 1 || (current.start == rest[0].start && forall i :: 0 <= i < |rest| ==> rest[i].start == current.start)
  {
    var tail := rest[1..];
    forall i | 0 <= i < |tail| ensures tail[i] == rest[i + 1] && tail[i].start >= rest[0].start {}
    PassAtMax(done, current, tail);
    assert forall i :: 1 <= i < |rest| ==> rest[i] == tail[i - 1];
    assert |rest| > 1 ==> tail[0].start >= rest[0].start;
  }

  lemma {:induction false} SameClean(s: seq<Range>, t: seq<Range>)
    requires multiset(s) == multiset(t)
    ensures Clean(s) <==> Clean(t)
  {
    SameElements(s, t);
    forall r ensures r in s <==> r in t { assert r in s <==> r in multiset(s); assert r in t <==> r in multiset(t); }
    forall a | a in s ensures LastOf(s, a) <==> LastOf(t, a) {}
    forall a: Range | a in s ensures Adjoined(s, a) <==> Adjoined(t, a) {}
  }

  /** The range in front is the first of the list. */
  lemma {:induction false} CleanFront(s: seq<Range>)
    requires s != []
    ensures Clean(s) <==> CleanAfter(s[0], s)
  {
    forall a | a in s ensures Adjoined([s[0]], a) ==> Adjoined(s, a) {
      if Adjoined([s[0]], a) {
        CoveredOne(s[0], a.start - 1);
        CoveredCons(s, a.start - 1);
      }
    }
    assert forall a :: a in s && a.end == MAX ==>
      (FitsAfter(s[0], s, a) <==> LastOf(s, a) && (multiset(s)[a] == 1 || !Adjoined(s, a)));
  }

  lemma {:induction false} SortedCanonical(s: seq<Range>)
    requires s != [] && Sorted(s) && InBounds(s) && Follows(s[0], s)
    ensures Canonical(Pass([], s[0], s)) <==> Clean(s)
  {
    CleanFront(s);
    if s[0].end < MAX {
      PassBelowMax([], s[0], s);
    } else {
      PassAtMax([], s[0], s);
      CleanFirst(s[0], s);
      if s[0].start > 0 { CoveredOne(s[0], s[0].start - 1); }
    }
  }

  /** The result of `coalesce` is in order and has gaps exactly if no increment overflows on the way. */
  lemma {:induction false} CoalescedCanonical(s: seq<Range>)
    requires InBounds(s)
    ensures Canonical(Coalesced(s)) <==> Clean(s)
  {
    if s != [] {
      SortSorts(s);
      SortedFollows(s);
      SameElements(s, Sort(s));
      SameClean(s, Sort(s));
      SortedCanonical(Sort(s));
    }
  }

  /** The increment overflows at the largest number, and a range inside another one is kept beside it. */
  lemma {:induction false} CoalescedOverflows(inner: Range)
    requires 0 < inner.start <= inner.end <= MAX
    ensures Coalesced([Range(0, MAX), inner]) == [Range(0, MAX), inner]
    ensures !Canonical(Coalesced([Range(0, MAX), inner]))
  {
    var all := Range(0, MAX);
    var s := [all, inner];
    assert s[1..] == [inner] && [inner][1..] == [];
    assert Sort([inner]) == [inner];
    assert Sort(s) == [all, inner];
    assert Pass([all], inner, []) == [all, inner];
    assert Pass([], all, [inner]) == Pass([all], inner, [inner][1..]);
    assert Pass([], all, s) == Pass([], all, [inner]);
    var c := Coalesced(s);
    assert c[0].end + 1 >= c[1].start;
  }

  // ------------------------------------------------------------ canonical lists and the numbers they cover

  lemma {:induction false} CanonicalFirst(s: seq<Range>, x: nat)
    requires Canonical(s) && s != [] && Covered(s, x)
    ensures s[0].start <= x && x != s[0].end + 1
    ensures x <= s[0].end || Covered(s[1..], x)
  {
    CoveredCons(s, x);
    var i :| 0 <= i < |s| && s[i].start <= x <= s[i].end;
    if i > 0 { assert s[0].end + 1 < s[i].start; }
  }

  lemma {:induction false} CanonicalTail(s: seq<Range>, x: nat)
    requires Canonical(s) && s != []
    ensures Canonical(s[1..]) && (Covered(s[1..], x) <==> Covered(s, x) && x > s[0].end)
  {
    assert forall i :: 0 <= i < |s[1..]| ==> s[1..][i] == s[i + 1];
    CoveredCons(s, x);
    if Covered(s[1..], x) {
      var i :| 0 <= i < |s[1..]| && s[1..][i].start <= x <= s[1..][i].end;
      assert s[0].end + 1 < s[i + 1].start;
    }
  }

  /** Two coalesced lists that cover the same numbers are the same list. */
  lemma {:induction false} CanonicalUnique(s: seq<Range>, t: seq<Range>)
    requires Canonical(s) && Canonical(t) && forall x: nat :: Covered(s, x) <==> Covered(t, x)
    ensures s == t
    decreases |s|
  {
    if s == [] || t == [] {
      if s != [] { Endpoints(s); }
      if t != [] { Endpoints(t); }
    } else {
      SameFirst(s, t);
      forall x: nat ensures Covered(s[1..], x) <==> Covered(t[1..], x) {
        CanonicalTail(s, x);
        CanonicalTail(t, x);
      }
      CanonicalTail(s, 0);
      CanonicalTail(t, 0);
      CanonicalUnique(s[1..], t[1..]);
      assert s == [s[0]] + s[1..] && t == [t[0]] + t[1..];
    }
  }

  lemma {:induction false} SameFirst(s: seq<Range>, t: seq<Range>)
    requires Canonical(s) && Canonical(t) && s != [] && t != [] && forall x: nat :: Covered(s, x) <==> Covered(t, x)
    ensures s[0] == t[0]
  {
    Endpoints(s);
    Endpoints(t);
    CanonicalFirst(s, t[0].start);
    CanonicalFirst(t, s[0].start);
    EndBound(s, t);
    EndBound(t, s);
  }

  lemma {:induction false} Endpoints(s: seq<Range>)
    requires Canonical(s) && s != []
    ensures Covered(s, s[0].start) && Covered(s, s[0].end)
  {
    assert s[0].start <= s[0].start <= s[0].end;
    assert s[0].start <= s[0].end <= s[0].end;
  }

  /** The number after the first range is not covered, so that no other first range runs past it. */
  lemma {:induction false} EndBound(s: seq<Range>, t: seq<Range>)
    requires Canonical(s) && Canonical(t) && s != [] && t != [] && s[0].start == t[0].start
    requires forall x: nat :: Covered(s, x) <==> Covered(t, x)
    ensures t[0].end <= s[0].end
  {
    if t[0].end > s[0].end {
      var x := s[0].end + 1;
      assert t[0].start <= x <= t[0].end;
      assert Covered(t, x);
      CanonicalFirst(s, x);
    }
  }

  // ------------------------------------------------------------ the comparisons

  /** `operator==(Value::Ranges)`: as many coalesced ranges, each found on the other side. */
  predicate RangesEqual(left: seq<Range>, right: seq<Range>) {
    var l, r := Coalesced(left), Coalesced(right);
    |l| == |r| && forall i :: 0 <= i < |l| ==> l[i] in r
  }

  /** `operator<=(Value::Ranges)`: each coalesced range lies within one on the other side. */
  predicate RangesAtMost(left: seq<Range>, right: seq<Range>) {
    var l, r := Coalesced(left), Coalesced(right);
    forall i :: 0 <= i < |l| ==> Within(l[i], r)
  }

  predicate Within(x: Range, s: seq<Range>) {
    exists j :: 0 <= j < |s| && x.start >= s[j].start && x.end <= s[j].end
  }

  lemma {:induction false} AscendingTail(s: seq<Range>)
    requires Ascending(s) && s != []
    ensures Ascending(s[1..]) && s[0] !in s[1..]
  {
    assert forall i :: 0 <= i < |s[1..]| ==> s[1..][i] == s[i + 1];
  }

  ghost function Elements(s: seq<Range>): set<Range> { set r | r in s }

  lemma {:induction false} ElementsCons(r: Range, tail: seq<Range>)
    requires r !in tail
    ensures |Elements([r] + tail)| == 1 + |Elements(tail)|
  {
    assert Elements([r] + tail) == {r} + Elements(tail);
  }

  lemma {:induction false} Distinct(s: seq<Range>)
    requires Ascending(s)
    ensures |Elements(s)| == |s|
    decreases |s|
  {
    if s == [] {
      assert Elements(s) == {};
    } else {
      AscendingTail(s);
      Distinct(s[1..]);
      ElementsCons(s[0], s[1..]);
      assert s == [s[0]] + s[1..];
    }
  }

  lemma {:induction false} AllFound(l: seq<Range>, r: seq<Range>)
    requires Ascending(l) && Ascending(r) && |l| == |r| && forall i :: 0 <= i < |l| ==> l[i] in r
    ensures forall x :: x in r ==> x in l
  {
    Distinct(l);
    Distinct(r);
    var a, b := Elements(l), Elements(r);
    assert a <= b;
    assert |b - a| == |b| - |a|;
    forall x | x in r ensures x in l { assert x in b && x !in b - a; }
  }

  /** Ascending lists of the same ranges are the same list. */
  lemma {:induction false} AscendingUnique(l: seq<Range>, r: seq<Range>)
    requires Ascending(l) && Ascending(r) && |l| == |r| && forall x :: x in l <==> x in r
    ensures l == r
    decreases |l|
  {
    if l != [] {
      assert l[0] in r && r[0] in l;
      assert l[0] == r[0];
      var l', r' := l[1..], r[1..];
      assert l == [l[0]] + l' && r == [l[0]] + r';
      assert l[0] !in l' && l[0] !in r';
      forall x ensures x in l' <==> x in r' {
        assert x in l <==> x == l[0] || x in l';
        assert x in r <==> x == l[0] || x in r';
      }
      AscendingUnique(l', r');
    }
  }

  /** `==` compares the coalesced lists. */
  lemma {:induction false} SameLists(left: seq<Range>, right: seq<Range>)
    requires InBounds(left) && InBounds(right)
    ensures RangesEqual(left, right) <==> Coalesced(left) == Coalesced(right)
  {
    var l, r := Coalesced(left), Coalesced(right);
    CoalescedAscends(left);
    CoalescedAscends(right);
    if RangesEqual(left, right) {
      AllFound(l, r);
      AscendingUnique(l, r);
    }
  }

  ghost predicate SameNumbers(s: seq<Range>, t: seq<Range>) {
    forall x: nat :: Covered(s, x) <==> Covered(t, x)
  }

  /**
   Lists that are `==` cover the same numbers. If one of two lists is coalesced cleanly, they are `==` exactly if the
   other one is too and they cover the same numbers.
   */
  lemma {:induction false} RangesEqualMeaning(left: seq<Range>, right: seq<Range>)
    requires InBounds(left) && InBounds(right)
    ensures RangesEqual(left, right) ==> SameNumbers(left, right)
    ensures Clean(left) || Clean(right) ==>
            (RangesEqual(left, right) <==> Clean(left) && Clean(right) && SameNumbers(left, right))
  {
    var l, r := Coalesced(left), Coalesced(right);
    SameLists(left, right);
    CoalescedCanonical(left);
    CoalescedCanonical(right);
    forall x: nat ensures (Covered(l, x) <==> Covered(left, x)) && (Covered(r, x) <==> Covered(right, x)) {
      CoalescedCovers(left, x);
      CoalescedCovers(right, x);
    }
    if Clean(left) && Clean(right) && SameNumbers(left, right) {
      CanonicalUnique(l, r);
    }
  }

  /** Beside a list that is not coalesced cleanly `==` misses that the same numbers are covered. */
  lemma {:induction false} RangesEqualMisses(inner: Range)
    requires 0 < inner.start <= inner.end <= MAX
    ensures var all, both := [Range(0, MAX)], [Range(0, MAX), inner];
            SameNumbers(all, both) && !RangesEqual(all, both)
  {
    var all, both := [Range(0, MAX)], [Range(0, MAX), inner];
    CoalescedOverflows(inner);
    assert Sort(all) == all;
    assert all[1..] == [];
    assert Coalesced(all) == Pass([], all[0], []) == all;
    forall x: nat ensures Covered(all, x) <==> Covered(both, x) {
      CoveredSnoc(all, inner, x);
      assert all + [inner] == both;
      assert In(inner, x) ==> all[0].start <= x <= all[0].end;
    }
  }

  /** An interval covered by a coalesced list lies within one of its ranges. */
  lemma {:induction false} IntervalWithin(r: Range, s: seq<Range>)
    requires Canonical(s) && r.start <= r.end && forall x: nat :: In(r, x) ==> Covered(s, x)
    ensures Within(r, s)
  {
    assert In(r, r.start);
    var j :| 0 <= j < |s| && s[j].start <= r.start <= s[j].end;
    var x := s[j].end + 1;
    GapAfter(s, j);
    assert !In(r, x);
  }

  lemma {:induction false} GapAfter(s: seq<Range>, j: nat)
    requires Canonical(s) && j < |s|
    ensures !Covered(s, s[j].end + 1)
  {
    forall k | 0 <= k < |s| ensures !(s[k].start <= s[j].end + 1 <= s[k].end) {
      assert k > j ==> s[j].end + 1 < s[k].start;
      assert k < j ==> s[k].end + 1 < s[j].start;
    }
  }

  lemma {:induction false} WithinPart(x: Range, part: seq<Range>, s: seq<Range>)
    requires part <= s && Within(x, part)
    ensures Within(x, s)
  {
    var j :| 0 <= j < |part| && x.start >= part[j].start && x.end <= part[j].end;
    assert s[j] == part[j];
  }

  /** `<=` decides inclusion of the numbers covered. */
  lemma {:induction false} RangesAtMostMeaning(left: seq<Range>, right: seq<Range>)
    requires InBounds(left) && InBounds(right)
    ensures RangesAtMost(left, right) <==> forall x: nat :: Covered(left, x) ==> Covered(right, x)
  {
    var l, r := Coalesced(left), Coalesced(right);
    CoalescedAscends(left);
    forall x: nat ensures (Covered(l, x) <==> Covered(left, x)) && (Covered(r, x) <==> Covered(right, x)) {
      CoalescedCovers(left, x);
      CoalescedCovers(right, x);
    }
    if RangesAtMost(left, right) {
      forall x: nat | Covered(l, x) ensures Covered(r, x) {
        var i :| 0 <= i < |l| && l[i].start <= x <= l[i].end;
        assert Within(l[i], r);
        var j :| 0 <= j < |r| && l[i].start >= r[j].start && l[i].end <= r[j].end;
        assert r[j].start <= x <= r[j].end;
      }
    }
    if forall x: nat :: Covered(left, x) ==> Covered(right, x) {
      var part := CoalescedPart(right);
      forall i | 0 <= i < |l| ensures Within(l[i], r) {
        forall x: nat | In(l[i], x) ensures Covered(part, x) {
          assert l[i].start <= x <= l[i].end;
          assert Covered(l, x);
        }
        IntervalWithin(l[i], part);
        WithinPart(l[i], part, r);
      }
    }
  }

  /** `+=` covers what either side covers. */
  lemma {:induction false} RangesSum(left: seq<Range>, right: seq<Range>, x: nat)
    requires InBounds(left) && InBounds(right)
    ensures Covered(Coalesced(left + right), x) <==> Covered(left, x) || Covered(right, x)
  {
    CoalescedCovers(left + right, x);
    var s := left + right;
    if Covered(left, x) { var i :| 0 <= i < |left| && left[i].start <= x <= left[i].end; assert s[i] == left[i]; }
    if Covered(right, x) { var i :| 0 <= i < |right| && right[i].start <= x <= right[i].end; assert s[|left| + i] == right[i]; }
    if Covered(s, x) {
      var i :| 0 <= i < |s| && s[i].start <= x <= s[i].end;
      assert s[i] == if i < |left| then left[i] else right[i - |left|];
    }
  }

  // ------------------------------------------------------------ validation

  /** The overlap test of `Resources::validate`: no range may begin inside an earlier one. */
  predicate NoOverlapFound(s: seq<Range>) {
    forall i, j :: 0 <= i < j < |s| ==> !(s[i].start <= s[j].start <= s[i].end)
  }

  ghost predicate Overlap(a: Range, b: Range) { a.start <= b.end && b.start <= a.end }

  /** The test sees an overlap of two ranges exactly when the later one does not begin first. */
  lemma {:induction false} NoOverlapMeaning(s: seq<Range>)
    requires InBounds(s)
    ensures NoOverlapFound(s) <==>
            forall i, j :: 0 <= i < j < |s| && Overlap(s[i], s[j]) ==> s[j].start < s[i].start
    ensures Sorted(s) ==> (NoOverlapFound(s) <==> forall i, j :: 0 <= i < j < |s| ==> !Overlap(s[i], s[j]))
  {
    forall i, j | 0 <= i < j < |s|
      ensures s[i].start <= s[j].start <= s[i].end <==> Overlap(s[i], s[j]) && s[i].start <= s[j].start
    {
      assert s[j].start <= s[j].end;
    }
  }
}
