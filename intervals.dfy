/** The interval arithmetic of the availability calculation: the overlap of two ranges,
  * subtracting busy periods from free ranges, and merging overlapping or touching ranges.
  * A range [start, end) holds the instants start <= t < end. */
module Intervals {
  import opened Wrappers
  import opened Sequences

  datatype Range = Range(start: int, end: int)

  predicate Contains(r: Range, t: int)
  {
    r.start <= t < r.end
  }

  predicate NonEmpty(r: Range)
  {
    r.start < r.end
  }

  predicate Within(inner: Range, outer: Range)
  {
    outer.start <= inner.start && inner.end <= outer.end
  }

  /** Some range of rs holds t. */
  predicate Covers(rs: seq<Range>, t: int)
  {
    exists r :: r in rs && Contains(r, t)
  }

  /** The overlap test used when subtracting and merging: a positive-length intersection
    * for non-empty ranges. */
  predicate StrictlyOverlaps(a: Range, b: Range)
  {
    a.start < b.end && a.end > b.start
  }

  function Start(r: Range): int
  {
    r.start
  }

  lemma CoversAppend(a: seq<Range>, b: seq<Range>, t: int)
    ensures Covers(a + b, t) <==> Covers(a, t) || Covers(b, t)
  {
    if Covers(a + b, t) {
      var r :| r in a + b && Contains(r, t);
      assert r in a || r in b;
    }
    if Covers(a, t) {
      var r :| r in a && Contains(r, t);
      assert r in a + b;
    }
    if Covers(b, t) {
      var r :| r in b && Contains(r, t);
      assert r in a + b;
    }
  }

  lemma CoversSame(a: seq<Range>, b: seq<Range>, t: int)
    requires forall r :: r in a <==> r in b
    ensures Covers(a, t) <==> Covers(b, t)
  {
  }

  // ---- CalculateOverlap ----

  /** CalculateOverlap: the intersection of the two ranges, or none when they are disjoint
    * or meet in a single instant. */
  function CalculateOverlap(requested: Range, conflict: Range): (r: Option<Range>)
    ensures r.Some? <==> Max(requested.start, conflict.start) < Min(requested.end, conflict.end)
    ensures r.Some? ==> r.value == Range(Max(requested.start, conflict.start), Min(requested.end, conflict.end))
    ensures r.Some? ==> NonEmpty(r.value) && Within(r.value, requested) && Within(r.value, conflict)
    ensures r.Some? ==> forall t :: Contains(r.value, t) <==> Contains(requested, t) && Contains(conflict, t)
    ensures r.None? ==> forall t :: !(Contains(requested, t) && Contains(conflict, t))
  {
    if requested.start > conflict.end || requested.end < conflict.start then None
    else
      var overlapStart := if requested.start > conflict.start then requested.start else conflict.start;
      var overlapEnd := if requested.end < conflict.end then requested.end else conflict.end;
      if overlapStart < overlapEnd then Some(Range(overlapStart, overlapEnd)) else None
  }

  /** The overlap does not depend on the order of its arguments. */
  lemma OverlapSymmetric(a: Range, b: Range)
    ensures CalculateOverlap(a, b) == CalculateOverlap(b, a)
  {
  }

  /** For non-empty ranges there is no overlap exactly when one ends before or where the
    * other starts: zero-width contact is not an overlap. */
  lemma OverlapNoneIff(a: Range, b: Range)
    requires NonEmpty(a) && NonEmpty(b)
    ensures CalculateOverlap(a, b).None? <==> a.end <= b.start || b.end <= a.start
    ensures CalculateOverlap(a, b).Some? <==> StrictlyOverlaps(a, b)
  {
  }

  // ---- subtracting busy periods ----

  /** One free range minus one busy period: untouched ranges pass through; an overlapped
    * range leaves the non-empty parts before and after the busy period. */
  function SubtractOne(free: Range, busy: Range): seq<Range>
  {
    if !StrictlyOverlaps(free, busy) then [free]
    else
      (if free.start < busy.start then [Range(free.start, busy.start)] else [])
      + (if busy.end < free.end then [Range(busy.end, free.end)] else [])
  }

  /** Every free range minus one busy period, in order. */
  function Subtract(free: seq<Range>, busy: Range): seq<Range>
  {
    if free == [] then [] else SubtractOne(free[0], busy) + Subtract(free[1..], busy)
  }

  /** The free ranges minus every busy period, one after the other. */
  function SubtractAll(free: seq<Range>, busy: seq<Range>): seq<Range>
    decreases |busy|
  {
    if busy == [] then free else SubtractAll(Subtract(free, busy[0]), busy[1..])
  }

  /** The pieces of one subtraction hold exactly the free instants outside the busy period;
    * each piece lies inside the free range, does not overlap the busy period, and is the
    * free range itself or non-empty. */
  lemma SubtractOneMeaning(free: Range, busy: Range)
    ensures forall t :: Covers(SubtractOne(free, busy), t) <==> Contains(free, t) && !Contains(busy, t)
    ensures forall r :: r in SubtractOne(free, busy) ==>
      Within(r, free) && !StrictlyOverlaps(r, busy) && (r == free || NonEmpty(r))
  {
    var pieces := SubtractOne(free, busy);
    forall t ensures Covers(pieces, t) <==> Contains(free, t) && !Contains(busy, t) {
      if StrictlyOverlaps(free, busy) {
        var left := if free.start < busy.start then [Range(free.start, busy.start)] else [];
        var right := if busy.end < free.end then [Range(busy.end, free.end)] else [];
        CoversAppend(left, right, t);
        if Contains(free, t) && !Contains(busy, t) {
          if t < busy.start {
            assert Contains(Range(free.start, busy.start), t);
            assert Range(free.start, busy.start) in left;
          } else {
            assert Contains(Range(busy.end, free.end), t);
            assert Range(busy.end, free.end) in right;
          }
        }
      } else {
        assert pieces == [free];
        if Contains(free, t) {
          assert free in pieces;
        }
      }
    }
  }

  /** Subtracting one busy period removes exactly its instants from the free set. */
  lemma {:induction false} SubtractCovers(free: seq<Range>, busy: Range, t: int)
    ensures Covers(Subtract(free, busy), t) <==> Covers(free, t) && !Contains(busy, t)
  {
    if free != [] {
      SubtractCovers(free[1..], busy, t);
      SubtractOneMeaning(free[0], busy);
      CoversAppend(SubtractOne(free[0], busy), Subtract(free[1..], busy), t);
      assert free == [free[0]] + free[1..];
      CoversAppend([free[0]], free[1..], t);
    }
  }

  /** The pieces left by one subtraction each come from a free range they lie inside, do
    * not overlap the busy period, and are an original range or non-empty. */
  lemma {:induction false} SubtractShape(free: seq<Range>, busy: Range)
    ensures forall r :: r in Subtract(free, busy) ==>
      (exists f :: f in free && Within(r, f)) && !StrictlyOverlaps(r, busy) && (r in free || NonEmpty(r))
  {
    if free != [] {
      SubtractShape(free[1..], busy);
      SubtractOneMeaning(free[0], busy);
      forall r | r in Subtract(free, busy)
        ensures (exists f :: f in free && Within(r, f)) && !StrictlyOverlaps(r, busy) && (r in free || NonEmpty(r))
      {
        if r in SubtractOne(free[0], busy) {
          assert Within(r, free[0]);
        } else {
          assert r in Subtract(free[1..], busy);
          var f :| f in free[1..] && Within(r, f);
          assert f in free;
        }
      }
    }
  }

  /** A busy period that overlaps no free range leaves the free ranges as they are. */
  lemma {:induction false} SubtractDisjoint(free: seq<Range>, busy: Range)
    requires forall f :: f in free ==> !StrictlyOverlaps(f, busy)
    ensures Subtract(free, busy) == free
  {
    if free != [] {
      assert free[0] in free;
      SubtractDisjoint(free[1..], busy);
      assert free == [free[0]] + free[1..];
    }
  }

  /** A free range no busy period overlaps survives the subtraction unchanged. */
  lemma {:induction false} SubtractKeepsUntouched(free: seq<Range>, busy: Range, f: Range)
    requires f in free && !StrictlyOverlaps(f, busy)
    ensures f in Subtract(free, busy)
  {
    if free[0] == f {
      assert f in SubtractOne(free[0], busy);
    } else {
      SubtractKeepsUntouched(free[1..], busy, f);
    }
  }

  /** After all subtractions the free set is the original one minus every busy period. */
  lemma {:induction false} SubtractAllCovers(free: seq<Range>, busy: seq<Range>, t: int)
    ensures Covers(SubtractAll(free, busy), t) <==>
      Covers(free, t) && forall j :: 0 <= j < |busy| ==> !Contains(busy[j], t)
    decreases |busy|
  {
    if busy != [] {
      SubtractCovers(free, busy[0], t);
      SubtractAllCovers(Subtract(free, busy[0]), busy[1..], t);
      if forall j :: 1 <= j < |busy| ==> !Contains(busy[j], t) {
        assert forall j :: 0 <= j < |busy[1..]| ==> !Contains(busy[1..][j], t) by {
          forall j | 0 <= j < |busy[1..]| ensures !Contains(busy[1..][j], t) {
            assert busy[1..][j] == busy[j + 1];
          }
        }
      } else {
        var j :| 1 <= j < |busy| && Contains(busy[j], t);
        assert busy[1..][j - 1] == busy[j];
      }
    }
  }

  /** After all subtractions each remaining range lies inside an original free range,
    * overlaps no busy period, and is an original range or non-empty. */
  lemma {:induction false} SubtractAllShape(free: seq<Range>, busy: seq<Range>)
    ensures forall r :: r in SubtractAll(free, busy) ==>
      (exists f :: f in free && Within(r, f)) && (r in free || NonEmpty(r))
      && forall j :: 0 <= j < |busy| ==> !StrictlyOverlaps(r, busy[j])
    decreases |busy|
  {
    if busy != [] {
      var once := Subtract(free, busy[0]);
      SubtractShape(free, busy[0]);
      SubtractAllShape(once, busy[1..]);
      forall r | r in SubtractAll(free, busy)
        ensures (exists f :: f in free && Within(r, f)) && (r in free || NonEmpty(r))
          && forall j :: 0 <= j < |busy| ==> !StrictlyOverlaps(r, busy[j])
      {
        var g :| g in once && Within(r, g);
        var f :| f in free && Within(g, f);
        assert Within(r, f);
        assert !StrictlyOverlaps(g, busy[0]);
        forall j | 0 <= j < |busy| ensures !StrictlyOverlaps(r, busy[j]) {
          if j > 0 {
            assert busy[j] == busy[1..][j - 1];
          }
        }
      }
    }
  }

  /** A free range that no busy period overlaps is in the result unchanged. */
  lemma {:induction false} SubtractAllKeepsUntouched(free: seq<Range>, busy: seq<Range>, f: Range)
    requires f in free
    requires forall j :: 0 <= j < |busy| ==> !StrictlyOverlaps(f, busy[j])
    ensures f in SubtractAll(free, busy)
    decreases |busy|
  {
    if busy != [] {
      SubtractKeepsUntouched(free, busy[0], f);
      forall j | 0 <= j < |busy[1..]| ensures !StrictlyOverlaps(f, busy[1..][j]) {
        assert busy[1..][j] == busy[j + 1];
      }
      SubtractAllKeepsUntouched(Subtract(free, busy[0]), busy[1..], f);
    }
  }

  /** The loop over the free ranges for one busy period. */
  method SubtractBusyPeriod(free: seq<Range>, busy: Range) returns (result: seq<Range>)
    ensures result == Subtract(free, busy)
  {
    result := [];
    var i := 0;
    while i < |free|
      invariant 0 <= i <= |free|
      invariant result + Subtract(free[i..], busy) == Subtract(free, busy)
    {
      var range := free[i];
      ghost var rest := Subtract(free[i + 1..], busy);
      assert free[i..] == [range] + free[i + 1..];
      assert Subtract(free[i..], busy) == SubtractOne(range, busy) + rest;
      var pieces := [];
      if !(range.start < busy.end && range.end > busy.start) {
        pieces := [range];
      } else {
        if range.start < busy.start {
          pieces := pieces + [Range(range.start, busy.start)];
        }
        if busy.end < range.end {
          pieces := pieces + [Range(busy.end, range.end)];
        }
      }
      assert pieces == SubtractOne(range, busy);
      AppendAssoc(result, pieces, rest);
      result := result + pieces;
      i := i + 1;
    }
  }

  // ---- merging ----

  /** Two ranges, the first starting no later, that overlap or touch. */
  predicate Joinable(current: Range, next: Range)
  {
    StrictlyOverlaps(current, next) || current.end == next.start
  }

  function Join(current: Range, next: Range): Range
  {
    Range(Min(current.start, next.start), Max(current.end, next.end))
  }

  /** The fold over start-sorted ranges, carrying the range being grown. */
  function MergeFrom(current: Range, rest: seq<Range>): seq<Range>
    decreases |rest|
  {
    if rest == [] then [current]
    else if Joinable(current, rest[0]) then MergeFrom(Join(current, rest[0]), rest[1..])
    else [current] + MergeFrom(rest[0], rest[1..])
  }

  /** Sort by start, then join every range that overlaps or touches the one before. */
  function MergeRanges(ranges: seq<Range>): seq<Range>
  {
    if ranges == [] then []
    else
      var sorted := SortBy(ranges, Start);
      MergeFrom(sorted[0], sorted[1..])
  }

  /** Joining two joinable ranges, the first starting no later, covers exactly their union. */
  lemma JoinCovers(current: Range, next: Range, t: int)
    requires current.start <= next.start && Joinable(current, next)
    ensures Contains(Join(current, next), t) <==> Contains(current, t) || Contains(next, t)
  {
  }

  predicate StartsAtMost(x: int, rest: seq<Range>)
  {
    forall i :: 0 <= i < |rest| ==> x <= rest[i].start
  }

  lemma {:induction false} MergeFromCovers(current: Range, rest: seq<Range>, t: int)
    requires StartsAtMost(current.start, rest) && SortedBy(rest, Start)
    ensures Covers(MergeFrom(current, rest), t) <==> Contains(current, t) || Covers(rest, t)
    decreases |rest|
  {
    if rest == [] {
      assert current in [current];
    } else {
      var next := rest[0];
      assert rest == [next] + rest[1..];
      CoversAppend([next], rest[1..], t);
      assert Covers([next], t) <==> Contains(next, t) by {
        assert next in [next];
      }
      assert SortedBy(rest[1..], Start) by {
        forall i, j | 0 <= i < j < |rest[1..]| ensures rest[1..][i].start <= rest[1..][j].start {
          assert Start(rest[i + 1]) <= Start(rest[j + 1]);
        }
      }
      assert StartsAtMost(next.start, rest[1..]) by {
        forall i | 0 <= i < |rest[1..]| ensures next.start <= rest[1..][i].start {
          assert Start(rest[0]) <= Start(rest[i + 1]);
        }
      }
      if Joinable(current, next) {
        JoinCovers(current, next, t);
        MergeFromCovers(Join(current, next), rest[1..], t);
      } else {
        MergeFromCovers(next, rest[1..], t);
        CoversAppend([current], MergeFrom(next, rest[1..]), t);
        assert Covers([current], t) <==> Contains(current, t) by {
          assert current in [current];
        }
      }
    }
  }

  /** Merging covers exactly the instants its input covers. */
  lemma MergeRangesCovers(ranges: seq<Range>, t: int)
    ensures Covers(MergeRanges(ranges), t) <==> Covers(ranges, t)
  {
    if ranges != [] {
      var sorted := SortBy(ranges, Start);
      assert StartsAtMost(sorted[0].start, sorted[1..]) by {
        forall i | 0 <= i < |sorted[1..]| ensures sorted[0].start <= sorted[1..][i].start {
          assert Start(sorted[0]) <= Start(sorted[i + 1]);
        }
      }
      assert SortedBy(sorted[1..], Start) by {
        forall i, j | 0 <= i < j < |sorted[1..]| ensures sorted[1..][i].start <= sorted[1..][j].start {
          assert Start(sorted[i + 1]) <= Start(sorted[j + 1]);
        }
      }
      MergeFromCovers(sorted[0], sorted[1..], t);
      assert sorted == [sorted[0]] + sorted[1..];
      CoversAppend([sorted[0]], sorted[1..], t);
      assert Covers([sorted[0]], t) <==> Contains(sorted[0], t) by {
        assert sorted[0] in [sorted[0]];
      }
      CoversSame(sorted, ranges, t);
    }
  }

  /** Consecutive ranges are separated by a gap: no overlap and no contact. */
  predicate Separated(rs: seq<Range>)
  {
    forall i :: 0 <= i < |rs| - 1 ==> rs[i].end < rs[i + 1].start
  }

  predicate AllNonEmpty(rs: seq<Range>)
  {
    forall i :: 0 <= i < |rs| ==> NonEmpty(rs[i])
  }

  lemma {:induction false} MergeFromShape(current: Range, rest: seq<Range>)
    requires StartsAtMost(current.start, rest) && SortedBy(rest, Start)
    requires NonEmpty(current) && AllNonEmpty(rest)
    ensures var m := MergeFrom(current, rest);
      |m| > 0 && m[0].start == current.start && AllNonEmpty(m) && Separated(m)
      && SortedBy(m, Start) && |m| <= |rest| + 1
    decreases |rest|
  {
    if rest != [] {
      var next := rest[0];
      assert SortedBy(rest[1..], Start) by {
        forall i, j | 0 <= i < j < |rest[1..]| ensures rest[1..][i].start <= rest[1..][j].start {
          assert Start(rest[i + 1]) <= Start(rest[j + 1]);
        }
      }
      assert AllNonEmpty(rest[1..]) by {
        forall i | 0 <= i < |rest[1..]| ensures NonEmpty(rest[1..][i]) {
          assert NonEmpty(rest[i + 1]);
        }
      }
      assert StartsAtMost(next.start, rest[1..]) by {
        forall i | 0 <= i < |rest[1..]| ensures next.start <= rest[1..][i].start {
          assert Start(rest[0]) <= Start(rest[i + 1]);
        }
      }
      if Joinable(current, next) {
        assert StartsAtMost(Join(current, next).start, rest[1..]) by {
          forall i | 0 <= i < |rest[1..]| ensures Join(current, next).start <= rest[1..][i].start {
            assert current.start <= rest[i + 1].start;
          }
        }
        MergeFromShape(Join(current, next), rest[1..]);
      } else {
        assert current.end < next.start;
        MergeFromShape(next, rest[1..]);
        var tail := MergeFrom(next, rest[1..]);
        var m := [current] + tail;
        assert SortedBy(m, Start) by {
          forall i, j | 0 <= i < j < |m| ensures Start(m[i]) <= Start(m[j]) {
            if i == 0 {
              assert m[j] == tail[j - 1];
              assert Start(tail[0]) <= Start(tail[j - 1]);
            } else {
              assert Start(tail[i - 1]) <= Start(tail[j - 1]);
            }
          }
        }
        assert Separated(m) by {
          forall i | 0 <= i < |m| - 1 ensures m[i].end < m[i + 1].start {
            if i > 0 {
              assert m[i] == tail[i - 1] && m[i + 1] == tail[i];
            }
          }
        }
      }
    }
  }

  /** Merging non-empty ranges gives non-empty ranges sorted by start and separated by
    * gaps, never more of them than it was given. */
  lemma MergeRangesShape(ranges: seq<Range>)
    requires AllNonEmpty(ranges)
    ensures var m := MergeRanges(ranges);
      AllNonEmpty(m) && Separated(m) && SortedBy(m, Start) && |m| <= |ranges|
  {
    if ranges != [] {
      var sorted := SortBy(ranges, Start);
      assert AllNonEmpty(sorted) by {
        forall i | 0 <= i < |sorted| ensures NonEmpty(sorted[i]) {
          assert sorted[i] in ranges;
        }
      }
      assert StartsAtMost(sorted[0].start, sorted[1..]) by {
        forall i | 0 <= i < |sorted[1..]| ensures sorted[0].start <= sorted[1..][i].start {
          assert Start(sorted[0]) <= Start(sorted[i + 1]);
        }
      }
      assert SortedBy(sorted[1..], Start) by {
        forall i, j | 0 <= i < j < |sorted[1..]| ensures sorted[1..][i].start <= sorted[1..][j].start {
          assert Start(sorted[i + 1]) <= Start(sorted[j + 1]);
        }
      }
      assert AllNonEmpty(sorted[1..]) by {
        forall i | 0 <= i < |sorted[1..]| ensures NonEmpty(sorted[1..][i]) {
          assert NonEmpty(sorted[i + 1]);
        }
      }
      MergeFromShape(sorted[0], sorted[1..]);
    }
  }

  /** Separated ranges pass through the fold untouched. */
  lemma {:induction false} MergeFromSeparated(rs: seq<Range>)
    requires |rs| > 0 && Separated(rs)
    ensures MergeFrom(rs[0], rs[1..]) == rs
    decreases |rs|
  {
    if |rs| > 1 {
      assert !Joinable(rs[0], rs[1]);
      assert Separated(rs[1..]) by {
        forall i | 0 <= i < |rs[1..]| - 1 ensures rs[1..][i].end < rs[1..][i + 1].start {
          assert rs[i + 1].end < rs[i + 2].start;
        }
      }
      MergeFromSeparated(rs[1..]);
      assert rs[1..][1..] == rs[2..];
      assert rs == [rs[0]] + rs[1..];
    }
  }

  /** Merging is idempotent on non-empty ranges: a merged list is already minimal. */
  lemma MergeRangesIdempotent(ranges: seq<Range>)
    requires AllNonEmpty(ranges)
    ensures MergeRanges(MergeRanges(ranges)) == MergeRanges(ranges)
  {
    var m := MergeRanges(ranges);
    MergeRangesShape(ranges);
    if m != [] {
      SortBySorted(m, Start);
      MergeFromSeparated(m);
    }
  }

  lemma MergeFromStep(current: Range, s: seq<Range>, i: int)
    requires 0 <= i < |s|
    ensures MergeFrom(current, s[i..]) == if Joinable(current, s[i])
      then MergeFrom(Join(current, s[i]), s[i + 1..])
      else [current] + MergeFrom(s[i], s[i + 1..])
  {
    assert s[i..][0] == s[i] && s[i..][1..] == s[i + 1..];
  }

  /** The merge loop: sort, then fold with a mutable current range. */
  method MergeOverlapping(ranges: seq<Range>) returns (merged: seq<Range>)
    ensures merged == MergeRanges(ranges)
  {
    if |ranges| == 0 {
      return ranges;
    }
    var sorted := SortBy(ranges, Start);
    merged := [];
    var current := sorted[0];
    var i := 1;
    while i < |sorted|
      invariant 1 <= i <= |sorted|
      invariant merged + MergeFrom(current, sorted[i..]) == MergeFrom(sorted[0], sorted[1..])
    {
      var next := sorted[i];
      MergeFromStep(current, sorted, i);
      if Joinable(current, next) {
        current := Join(current, next);
      } else {
        merged := merged + [current];
        current := next;
      }
      i := i + 1;
    }
    assert sorted[i..] == [];
    merged := merged + [current];
  }
}
