// The receive window of one message: a set of packet offsets kept as sorted, disjoint,
// non-adjacent intervals, start offset to end offset.

module RecvWindow {
  import opened Psn
  import opened Wrappers

  // A message has at least one packet.
  type pos = n: nat | n > 0 witness 1

  // An ordered dictionary from the first offset of an interval to its last offset.
  type Intervals = map<nat, nat>

  // ---- ordered-dictionary queries --------------------------------------------------

  ghost predicate IsMax(s: set<nat>, x: nat) {
    x in s && forall y :: y in s ==> y <= x
  }

  ghost predicate IsMin(s: set<nat>, x: nat) {
    x in s && forall y :: y in s ==> x <= y
  }

  lemma {:induction false} MaxExists(s: set<nat>) returns (x: nat)
    requires s != {}
    ensures IsMax(s, x)
    decreases s
  {
    var a :| a in s;
    var above := set y | y in s && a < y;
    assert forall y :: y in s && a < y ==> y in above;
    if above == {} {
      x := a;
    } else {
      assert a !in above;
      x := MaxExists(above);
    }
  }

  lemma {:induction false} MinExists(s: set<nat>) returns (x: nat)
    requires s != {}
    ensures IsMin(s, x)
    decreases s
  {
    var a :| a in s;
    var below := set y | y in s && y < a;
    assert forall y :: y in s && y < a ==> y in below;
    if below == {} {
      x := a;
    } else {
      assert a !in below;
      x := MinExists(below);
    }
  }

  function Max(s: set<nat>): (x: nat)
    requires s != {}
    ensures IsMax(s, x)
  {
    assert exists x :: IsMax(s, x) by { var x := MaxExists(s); }
    var x :| x in s && forall y :: y in s ==> y <= x;
    x
  }

  function Min(s: set<nat>): (x: nat)
    requires s != {}
    ensures IsMin(s, x)
  {
    assert exists x :: IsMin(s, x) by { var x := MinExists(s); }
    var x :| x in s && forall y :: y in s ==> x <= y;
    x
  }

  // The last key at or below k.
  function FloorKey(m: Intervals, k: nat): (r: Option<nat>)
    ensures r.None? <==> forall l :: l in m ==> k < l
    ensures r.Some? ==> r.value in m && r.value <= k && forall l :: l in m && l <= k ==> l <= r.value
  {
    var below := set l | l in m && l <= k;
    assert forall l :: l in m && l <= k ==> l in below;
    if below == {} then
      None
    else
      Some(Max(below))
  }

  // The first key above k.
  function HigherKey(m: Intervals, k: nat): (r: Option<nat>)
    ensures r.None? <==> forall l :: l in m ==> l <= k
    ensures r.Some? ==> r.value in m && k < r.value && forall l :: l in m && k < l ==> r.value <= l
  {
    var above := set l | l in m && k < l;
    assert forall l :: l in m && k < l ==> l in above;
    if above == {} then
      None
    else
      Some(Min(above))
  }

  // The first key.
  function FirstKey(m: Intervals): (k: nat)
    requires m != map[]
    ensures k in m && forall l :: l in m ==> k <= l
  {
    assert m.Keys != {};
    Min(m.Keys)
  }

  // ---- meaning -----------------------------------------------------------------------

  ghost predicate Covers(m: Intervals, x: int) {
    exists l :: l in m && l <= x <= m[l]
  }

  // Sorted is implicit in the dictionary; the intervals are also disjoint and never adjacent.
  ghost predicate WellFormed(m: Intervals) {
    && (forall l :: l in m ==> l <= m[l])
    && (forall a, b :: a in m && b in m && a < b ==> m[a] + 1 < b)
  }

  // Offsets are below half the circle, so that 32-bit sums with them do not wrap.
  ghost predicate Bounded(m: Intervals) {
    forall l :: l in m ==> m[l] < PSN_MAX_WINDOW_SIZE
  }

  // A window on which no query of the checker panics.
  ghost predicate Sane(m: Intervals) {
    WellFormed(m) && Covers(m, 0) && Bounded(m)
  }

  // ---- insertion of an offset range --------------------------------------------------

  function MergeLeft(m: Intervals, left: nat): Option<nat> {
    var f := FloorKey(m, left);
    if f.Some? && left <= m[f.value] + 1 then f else None
  }

  function MergeRight(m: Intervals, left: nat, right: nat): Option<nat> {
    var h := HigherKey(m, left);
    if h.Some? && right >= h.value - 1 then h else None
  }

  function InsertedRange(m: Intervals, left: nat, right: nat): Intervals {
    if m == map[] then
      m[left := right]
    else
      var f := FloorKey(m, left);
      if f.Some? && right <= m[f.value] then
        m
      else
        match (MergeLeft(m, left), MergeRight(m, left, right))
        case (Some(ls), Some(rs)) => (m - {ls} - {rs})[ls := m[rs]]
        case (Some(ls), None) => (m - {ls})[ls := right]
        case (None, Some(rs)) => (m - {rs})[left := m[rs]]
        case (None, None) => m[left := right]
  }

  // The range reaches beyond the end of the first interval that starts after its left end.
  predicate RunsPastNext(m: Intervals, left: nat, right: nat) {
    var h := HigherKey(m, left);
    h.Some? && right > m[h.value]
  }

  // r is m with every interval that touches [key, end] replaced by [key, end] itself.
  ghost predicate Absorbs(m: Intervals, r: Intervals, key: nat, end: nat) {
    && key <= end
    && key in r && r[key] == end
    && (forall k :: k in r && k != key ==> k in m && r[k] == m[k] && (m[k] + 1 < key || end + 1 < k))
    && (forall k :: k in m && (k !in r || k == key) ==> key <= k && m[k] <= end)
  }

  // The interval that an insertion leaves around its left end.
  function NewStart(m: Intervals, left: nat): nat {
    var ml := MergeLeft(m, left);
    if ml.Some? then ml.value else left
  }

  function NewEnd(m: Intervals, left: nat, right: nat): nat {
    var mr := MergeRight(m, left, right);
    if mr.Some? then m[mr.value] else right
  }

  predicate AlreadyInside(m: Intervals, left: nat, right: nat) {
    var f := FloorKey(m, left);
    f.Some? && right <= m[f.value]
  }

  lemma InsertedRangeAbsorbs(m: Intervals, left: nat, right: nat)
    requires WellFormed(m) && left <= right
    requires !AlreadyInside(m, left, right)
    ensures Absorbs(m, InsertedRange(m, left, right), NewStart(m, left), NewEnd(m, left, right))
    ensures NewStart(m, left) <= left <= NewEnd(m, left, right)
  {
    hide FloorKey, HigherKey, Covers;
    var r, key, end := InsertedRange(m, left, right), NewStart(m, left), NewEnd(m, left, right);
    var f, h := FloorKey(m, left), HigherKey(m, left);
    forall k | k in r && k != key
      ensures k in m && r[k] == m[k] && (m[k] + 1 < key || end + 1 < k)
    {
      assert k in m;
      if k <= left {
        if f.value != k {
          assert m[k] + 1 < f.value;
        }
      } else {
        if h.value != k {
          assert m[h.value] + 1 < k;
        }
      }
    }
  }

  lemma AbsorbsWellFormed(m: Intervals, r: Intervals, key: nat, end: nat)
    requires WellFormed(m) && Absorbs(m, r, key, end)
    ensures WellFormed(r)
  {
  }

  lemma InsertedRangeWellFormed(m: Intervals, left: nat, right: nat)
    requires WellFormed(m) && left <= right
    ensures WellFormed(InsertedRange(m, left, right))
  {
    if !AlreadyInside(m, left, right) {
      InsertedRangeAbsorbs(m, left, right);
      AbsorbsWellFormed(m, InsertedRange(m, left, right), NewStart(m, left), NewEnd(m, left, right));
    }
  }

  // Insertion never loses an offset and never invents one.
  lemma InsertedRangeBounds(m: Intervals, left: nat, right: nat, x: int)
    requires WellFormed(m) && left <= right
    ensures Covers(m, x) ==> Covers(InsertedRange(m, left, right), x)
    ensures Covers(InsertedRange(m, left, right), x) ==> Covers(m, x) || left <= x <= right
  {
    if !AlreadyInside(m, left, right) {
      var r, key, end := InsertedRange(m, left, right), NewStart(m, left), NewEnd(m, left, right);
      InsertedRangeAbsorbs(m, left, right);
      if Covers(m, x) {
        var l :| l in m && l <= x <= m[l];
        var w := if l in r then l else key;
        assert w in r && w <= x <= r[w];
      }
      if Covers(r, x) {
        var l :| l in r && l <= x <= r[l];
        if l == key && x < left {
          assert key in m && x <= m[key];
        } else if l == key && x > right {
          assert MergeRight(m, left, right).value <= x;
        }
      }
    }
  }

  // Insertion is exactly set union unless the range runs past the next interval to its right,
  // in which case the part beyond that interval is lost.
  lemma InsertedRangeIsUnionIff(m: Intervals, left: nat, right: nat)
    requires WellFormed(m) && left <= right
    ensures (forall x :: Covers(InsertedRange(m, left, right), x) <==> Covers(m, x) || left <= x <= right)
       <==> !RunsPastNext(m, left, right)
  {
    var r := InsertedRange(m, left, right);
    if RunsPastNext(m, left, right) {
      var h := HigherKey(m, left).value;
      var x := m[h] + 1;
      assert !AlreadyInside(m, left, right) by {
        var f := FloorKey(m, left);
        if f.Some? {
          assert m[f.value] + 1 < h;
        }
      }
      InsertedRangeAbsorbs(m, left, right);
      assert left <= x <= right && !Covers(r, x);
    } else {
      forall x ensures Covers(r, x) <==> Covers(m, x) || left <= x <= right {
        InsertedRangeBounds(m, left, right, x);
        if left <= x <= right {
          RangeIsCovered(m, left, right, x);
        }
      }
    }
  }

  lemma RangeIsCovered(m: Intervals, left: nat, right: nat, x: int)
    requires WellFormed(m) && left <= x <= right
    requires !RunsPastNext(m, left, right)
    ensures Covers(InsertedRange(m, left, right), x)
  {
    var r := InsertedRange(m, left, right);
    if AlreadyInside(m, left, right) {
      assert FloorKey(m, left).value in r;
    } else {
      InsertedRangeAbsorbs(m, left, right);
      assert NewStart(m, left) in r;
    }
  }

  // ---- the window of one message -----------------------------------------------------

  // The value of a sliding window: offsets are relative to startPsn.
  datatype WindowView = WindowView(intervals: Intervals, startPsn: Psn, numOfPackets: pos) {
    predicate IsComplete() {
      intervals != map[] && FirstKey(intervals) == 0 && intervals[0] == numOfPackets - 1
    }

    predicate IsOutOfOrder() {
      !IsComplete() && |intervals| > 1
    }

    // The dictionary access at key 0 panics when there is no such interval.
    predicate RecoverPanics() {
      !IsOutOfOrder() && 0 !in intervals
    }

    function TryGetRecoverPsn(): Option<Psn>
      requires !RecoverPanics()
    {
      if IsOutOfOrder() then None else Some(WrappingAdd(startPsn, intervals[0] + 1))
    }

    function LastPsn(): Psn {
      WrappingAdd(startPsn, numOfPackets - 1)
    }

    // Both ends lie in the half circle that follows startPsn.
    predicate Accepts(from: Psn, to: Psn) {
      WrappingSub(from, startPsn) < PSN_MAX_WINDOW_SIZE && WrappingSub(to, startPsn) < PSN_MAX_WINDOW_SIZE
    }

    function Inserted(from: Psn, to: Psn): WindowView {
      if IsComplete() || !Accepts(from, to) then
        this
      else
        this.(intervals := InsertedRange(intervals, WrappingSub(from, startPsn), WrappingSub(to, startPsn)))
    }

    // The assertion that guards the report of a gap. Accepted offsets are below 2^23 (InsertedBounded),
    // so its 32-bit sum does not wrap.
    predicate GapPanics() {
      |intervals| > 1 && LastKey(intervals) + 1 == intervals[SecondLastKey(intervals)]
    }

    // The pair reported for the last two intervals; offsets, not PSNs, and masked to 24 bits.
    function RecentGap(): Option<(Psn, Psn)> {
      if |intervals| <= 1 then
        None
      else
        var last := LastKey(intervals);
        var second := SecondLastKey(intervals);
        Some(((last + 1) % BORDER, (intervals[second] - 1) % BORDER))
    }
  }

  function LastKey(m: Intervals): (k: nat)
    requires m != map[]
    ensures k in m && forall l :: l in m ==> l <= k
  {
    assert m.Keys != {};
    Max(m.Keys)
  }

  function SecondLastKey(m: Intervals): (k: nat)
    requires |m| > 1
    ensures k in m && k < LastKey(m) && forall l :: l in m && l != LastKey(m) ==> l <= k
  {
    var others := m.Keys - {LastKey(m)};
    assert |others| == |m.Keys| - 1;
    assert forall l :: l in m && l != LastKey(m) ==> l in others;
    Max(others)
  }

  // A window reports completion exactly when the offsets 0..n-1 are covered and offset n is not.
  lemma CompleteIff(w: WindowView)
    requires WellFormed(w.intervals)
    ensures w.IsComplete() <==>
            && (forall x: int :: 0 <= x < w.numOfPackets ==> Covers(w.intervals, x))
            && !Covers(w.intervals, w.numOfPackets)
  {
    var m, n: int := w.intervals, w.numOfPackets;
    if w.IsComplete() {
      assert 0 in m;
      forall x: int | 0 <= x < n ensures Covers(m, x) {
        assert x <= m[0];
      }
      assert !Covers(m, n);
    } else if 0 in m {
      if m[0] < n - 1 {
        var x: int := m[0] + 1;
        assert !Covers(m, x);
      } else {
        assert Covers(m, n);
      }
    } else {
      var x: int := 0;
      assert !Covers(m, x);
    }
  }

  // The recovery point is the PSN of the least offset that has not been received.
  lemma RecoverIsLeastMissing(w: WindowView)
    requires WellFormed(w.intervals) && Covers(w.intervals, 0)
    requires !w.IsOutOfOrder()
    ensures !w.RecoverPanics()
    ensures exists k: nat :: !Covers(w.intervals, k) && (forall j :: 0 <= j < k ==> Covers(w.intervals, j))
                          && w.TryGetRecoverPsn() == Some(WrappingAdd(w.startPsn, k))
  {
    var m := w.intervals;
    assert 0 in m;
    var k := m[0] + 1;
    forall j | 0 <= j < k ensures Covers(m, j) {
      assert j <= m[0];
    }
    assert !Covers(m, k);
  }

  // A range given as two PSNs at most half the circle apart keeps its orientation as offsets,
  // whatever the start PSN and wherever the range wraps.
  lemma AcceptedIsOrdered(w: WindowView, from: Psn, to: Psn)
    requires w.Accepts(from, to)
    requires WrappingSub(to, from) <= PSN_MAX_WINDOW_SIZE
    ensures WrappingSub(from, w.startPsn) <= WrappingSub(to, w.startPsn)
    ensures WrappingSub(to, w.startPsn) - WrappingSub(from, w.startPsn) == WrappingSub(to, from)
  {
  }

  // Insertion makes no new interval start but the left end.
  lemma InsertedRangeKeys(m: Intervals, left: nat, right: nat, k: nat)
    requires k in InsertedRange(m, left, right)
    ensures k in m || k == left
  {
    hide FloorKey, HigherKey;
  }

  // What any well-oriented insertion keeps.
  lemma InsertedKeeps(w: WindowView, from: Psn, to: Psn)
    requires WellFormed(w.intervals)
    requires w.Accepts(from, to) ==> WrappingSub(from, w.startPsn) <= WrappingSub(to, w.startPsn)
    ensures w.Inserted(from, to).startPsn == w.startPsn && w.Inserted(from, to).numOfPackets == w.numOfPackets
    ensures WellFormed(w.Inserted(from, to).intervals)
    ensures forall x: int :: Covers(w.intervals, x) ==> Covers(w.Inserted(from, to).intervals, x)
    ensures forall x: int :: Covers(w.Inserted(from, to).intervals, x) ==>
              Covers(w.intervals, x)
              || (w.Accepts(from, to) && WrappingSub(from, w.startPsn) <= x <= WrappingSub(to, w.startPsn))
  {
    if !w.IsComplete() && w.Accepts(from, to) {
      var left, right := WrappingSub(from, w.startPsn), WrappingSub(to, w.startPsn);
      InsertedRangeWellFormed(w.intervals, left, right);
      var m' := InsertedRange(w.intervals, left, right);
      assert w.Inserted(from, to).intervals == m';
      forall x: int
        ensures Covers(w.intervals, x) ==> Covers(m', x)
        ensures Covers(m', x) ==> Covers(w.intervals, x) || left <= x <= right
      {
        InsertedRangeBounds(w.intervals, left, right, x);
      }
    }
  }

  lemma InsertedBounded(w: WindowView, from: Psn, to: Psn)
    requires Bounded(w.intervals)
    ensures Bounded(w.Inserted(from, to).intervals)
  {
  }

  // Any insertion of a range at most half the circle long keeps a window sane.
  lemma InsertedSane(w: WindowView, from: Psn, to: Psn)
    requires Sane(w.intervals) && WrappingSub(to, from) <= PSN_MAX_WINDOW_SIZE
    ensures Sane(w.Inserted(from, to).intervals)
    ensures w.Inserted(from, to).startPsn == w.startPsn && w.Inserted(from, to).numOfPackets == w.numOfPackets
  {
    hide WindowView.Inserted, WellFormed, Covers, Bounded;
    if w.Accepts(from, to) {
      AcceptedIsOrdered(w, from, to);
    }
    InsertedKeeps(w, from, to);
    InsertedBounded(w, from, to);
  }

  // The assertion holds of every well-formed window.
  lemma GapNeverPanics(w: WindowView)
    requires WellFormed(w.intervals)
    ensures !w.GapPanics()
  {
    hide LastKey, SecondLastKey;
    var m := w.intervals;
    if |m| > 1 {
      assert m[SecondLastKey(m)] + 1 < LastKey(m) <= m[LastKey(m)];
    }
  }

  // The missing offsets between the last two intervals are never what is reported: the reported
  // start lies beyond the gap, and the reported end is not the end of the gap.
  lemma RecentGapMissesTheGap(w: WindowView)
    requires WellFormed(w.intervals) && |w.intervals| > 1
    requires forall l :: l in w.intervals ==> w.intervals[l] < PSN_MAX_WINDOW_SIZE
    ensures var gapStart := w.intervals[SecondLastKey(w.intervals)] + 1;
            var gapEnd := LastKey(w.intervals) - 1;
            && gapStart <= gapEnd
            && (forall x :: gapStart <= x <= gapEnd ==> !Covers(w.intervals, x))
            && gapEnd < w.RecentGap().value.0
            && w.RecentGap().value.1 != gapEnd
  {
    hide LastKey, SecondLastKey;
    var m := w.intervals;
    assert m[SecondLastKey(m)] + 1 < LastKey(m);
    assert LastKey(m) <= m[LastKey(m)];
  }

  // The window object, updated in place.
  class SlidingWindow {
    var intervals: Intervals
    const startPsn: Psn
    const numOfPackets: pos

    constructor (start: Psn, numOfPackets: pos)
      ensures View() == WindowView(map[], start, numOfPackets)
    {
      this.intervals := map[];
      this.startPsn := start;
      this.numOfPackets := numOfPackets;
    }

    // The window is taken out of its context to be updated.
    constructor Take(w: WindowView)
      ensures View() == w
    {
      this.intervals := w.intervals;
      this.startPsn := w.startPsn;
      this.numOfPackets := w.numOfPackets;
    }

    function View(): WindowView
      reads this
    {
      WindowView(intervals, startPsn, numOfPackets)
    }

    method Insert(from: Psn, to: Psn)
      modifies this
      ensures View() == old(View()).Inserted(from, to)
    {
      if View().IsComplete() {
        return;
      }
      var absLeft := WrappingSub(from, startPsn);
      if absLeft >= PSN_MAX_WINDOW_SIZE {
        return;
      }
      var absRight := WrappingSub(to, startPsn);
      if absRight >= PSN_MAX_WINDOW_SIZE {
        return;
      }
      if intervals == map[] {
        intervals := intervals[absLeft := absRight];
        return;
      }
      var mergeLeft: Option<nat>, mergeRight: Option<nat> := None, None;
      var floor := FloorKey(intervals, absLeft);
      if floor.Some? {
        if absLeft >= floor.value && absRight <= intervals[floor.value] {
          return;
        }
        if absLeft <= intervals[floor.value] + 1 {
          mergeLeft := floor;
        }
      }
      var higher := HigherKey(intervals, absLeft);
      if higher.Some? {
        // higher.value > absLeft, so the range cannot lie inside this interval
        if absRight >= higher.value - 1 {
          mergeRight := higher;
        }
      }
      match (mergeLeft, mergeRight) {
        case (Some(leftStart), Some(rightStart)) =>
          var rightEnd := intervals[rightStart];
          intervals := intervals - {leftStart};
          intervals := intervals - {rightStart};
          intervals := intervals[leftStart := rightEnd];
        case (Some(leftStart), None) =>
          intervals := intervals - {leftStart};
          intervals := intervals[leftStart := absRight];
        case (None, Some(rightStart)) =>
          var rightEnd := intervals[rightStart];
          intervals := intervals - {rightStart};
          intervals := intervals[absLeft := rightEnd];
        case (None, None) =>
          intervals := intervals[absLeft := absRight];
      }
    }
  }
}
