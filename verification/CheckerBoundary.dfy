// When the acknowledgements of a whole stream are sound.
//
// A stream across 2^23 with a message of three packets or more that ends at or beyond 2^23 is not safe:
// the message is acknowledged although only its first and last packet have arrived, when the gap is seen
// with its last packet and the first packet of the stream is repeated.

module CheckerBoundary {
  import opened Psn
  import opened Wrappers
  import opened RecvWindow
  import opened PacketLength
  import opened Checker
  import opened CheckerRuns
  import opened CheckerStreams
  import opened CheckerCrossing

  // Every PSN of the stream belongs to a message.
  ghost predicate Tiles(t: Stream) {
    forall x :: t.base <= x < t.end ==> t.Owns(x)
  }

  ghost function OwnerAt(t: Stream, x: int): (m: Message)
    requires Tiles(t) && t.base <= x < t.end
    ensures m in t.msgs && m.Contains(t.pmtu, x)
  {
    assert t.Owns(x);
    var m :| m in t.msgs && m.Contains(t.pmtu, x);
    m
  }

  ghost function PacketAt(t: Stream, x: int): Action
    requires Tiles(t) && t.base <= x < t.end
  {
    Arrive(Arrival(OwnerAt(t, x), x - OwnerAt(t, x).start, false))
  }

  // The packets lo..hi-1, in order.
  ghost function InOrder(t: Stream, lo: int, hi: int): seq<Action>
    requires Tiles(t) && t.base <= lo <= hi <= t.end
    decreases hi - lo
  {
    if lo == hi then [] else [PacketAt(t, lo)] + InOrder(t, lo + 1, hi)
  }

  // ---- runs -------------------------------------------------------------------------------------------------

  lemma {:induction false} RunsOn(s: System, a: seq<Action>, b: seq<Action>)
    requires RunsSoundly(s, a + b)
    ensures RunsSoundly(RunTo(s, a), b)
    decreases |a|
  {
    hide Step, AcksSound;
    if a == [] {
      assert a + b == b;
    } else {
      assert (a + b)[0] == a[0] && (a + b)[1..] == a[1..] + b;
      RunsOn(Step(s, a[0]).sys, a[1..], b);
    }
  }

  // ---- in order up to a message --------------------------------------------------------------------------------

  // A slot is free, or holds a message that has passed, or the open one.
  ghost predicate SlotOk(s: System, t: Stream, i: nat, slot: (Msn, MsnStatus)) {
    match slot.1
    case NoExist => true
    case Finished => exists m :: m in t.msgs && m.msn == slot.0 && m.start + m.Count(t.pmtu) <= s.e
    case Processing => Open(s, slot.0) && i == slot.0 % MAX_MSN_WINDOW_PER_QP
    case Unknown => false
  }

  ghost predicate Orderly(s: System, t: Stream) {
    && Fresh(s, t) && s.qp.status.Normal?
    && (s.qp.perQp.Some? ==>
          forall i :: 0 <= i < MAX_MSN_WINDOW_PER_QP ==> SlotOk(s, t, i, s.qp.perQp.value.recentMsn[i]))
  }

  // Where a message begins, its MSN is free.
  lemma FreeAtStart(s: System, t: Stream, m: Message)
    requires t.Valid() && Orderly(s, t) && m in t.msgs && s.e == m.start
    ensures StatusOf(s.qp, m.msn) == NoExist
    ensures forall k :: !Open(s, k)
  {
    hide Inv;
    assert m.Contains(t.pmtu, s.e);
    forall k ensures !Open(s, k) {
      var o := if Open(s, k) then s.owner[k] else m;
      assert o.Contains(t.pmtu, s.e);
    }
    if s.qp.perQp.Some? {
      var i := m.msn % MAX_MSN_WINDOW_PER_QP;
      assert SlotOk(s, t, i, s.qp.perQp.value.recentMsn[i]);
    }
  }

  lemma OrderlyStep(s: System, t: Stream, x: int)
    requires t.Valid() && Tiles(t) && Orderly(s, t) && s.e == x < t.end
    ensures Step(s, PacketAt(t, x)).Ran? && Orderly(Step(s, PacketAt(t, x)).sys, t)
    ensures Step(s, PacketAt(t, x)).sys.e == x + 1
  {
    var a := PacketAt(t, x).arrival;
    assert t.Sends(Arrive(a));
    FreshInFlight(s, t, a);
    StepSound(s, Arrive(a));
    CurrentInStream(s, t, a);
    StepFields(s, a);
    var s' := Step(s, Arrive(a)).sys;
    hide Inv, InFlight, AcksSound, Step;
    assert Fresh(s', t);
    if s'.qp.perQp.Some? {
      forall i | 0 <= i < MAX_MSN_WINDOW_PER_QP ensures SlotOk(s', t, i, s'.qp.perQp.value.recentMsn[i]) {
        SlotStep(s, t, a, i);
      }
    }
  }

  lemma SlotStep(s: System, t: Stream, a: Arrival, i: nat)
    requires t.Valid() && Orderly(s, t) && t.Sends(Arrive(a)) && a.At() == s.e && i < MAX_MSN_WINDOW_PER_QP
    requires var r := Step(s, Arrive(a)); r.Ran? && r.sys.qp.perQp.Some?
    ensures var s' := Step(s, Arrive(a)).sys; SlotOk(s', t, i, s'.qp.perQp.value.recentMsn[i])
  {
    hide Inv;
    var s' := Step(s, Arrive(a)).sys;
    assert a.msg.Contains(t.pmtu, s.e);
    if s.qp.perQp.Some? {
      assert SlotOk(s, t, i, s.qp.perQp.value.recentMsn[i]);
      forall k | Open(s, k) ensures k == a.msg.msn {
        assert s.owner[k].Contains(t.pmtu, s.e);
      }
    }
  }

  lemma {:induction false} ReachInOrder(s: System, t: Stream, hi: int)
    requires t.Valid() && Tiles(t) && Orderly(s, t) && s.e <= hi <= t.end
    ensures var s' := RunTo(s, InOrder(t, s.e, hi)); Orderly(s', t) && s'.e == hi
    decreases hi - s.e
  {
    hide Step, Orderly, Stream.Valid, Tiles, InOrder, RunTo, PacketAt;
    assert t.base <= s.e by { OrderlyBase(s, t); }
    InOrderStep(s, t, hi);
    if s.e < hi {
      OrderlyStep(s, t, s.e);
      ReachInOrder(Step(s, PacketAt(t, s.e)).sys, t, hi);
    }
  }

  lemma InOrderStep(s: System, t: Stream, hi: int)
    requires Tiles(t) && t.base <= s.e <= hi <= t.end
    ensures s.e == hi ==> RunTo(s, InOrder(t, s.e, hi)) == s
    ensures s.e < hi && Step(s, PacketAt(t, s.e)).Ran? ==>
              RunTo(s, InOrder(t, s.e, hi)) == RunTo(Step(s, PacketAt(t, s.e)).sys, InOrder(t, s.e + 1, hi))
  {
    hide Step, PacketAt;
    if s.e < hi {
      assert InOrder(t, s.e, hi)[1..] == InOrder(t, s.e + 1, hi);
    }
  }

  lemma OrderlyBase(s: System, t: Stream)
    requires Orderly(s, t)
    ensures t.base <= s.e
  {
  }

  // ---- the message that is acknowledged too early -------------------------------------------------------------------

  ghost predicate Fatal(t: Stream, m: Message) {
    && t.Valid() && CrossesHalf(t.base, t.end) && m in t.msgs
    && m.Count(t.pmtu) >= 3 && m.start + m.Count(t.pmtu) > Boundary(t.base)
  }

  // Its PSNs as 24-bit values.
  lemma FatalPsns(t: Stream, m: Message)
    requires Fatal(t, m)
    ensures var s, n := Wire(m.start), m.Count(t.pmtu);
            && 2 <= s && 3 <= n < PSN_MAX_WINDOW_SIZE && PSN_MAX_WINDOW_SIZE <= s + n - 1 && s + n < BORDER
            && Wire(m.start + 1) == s + 1 && Wire(m.start + n - 1) == s + n - 1 && Wire(m.start + n) == s + n
            && 2 <= Wire(t.base) <= s && Wire(t.base) < PSN_MAX_WINDOW_SIZE && s - Wire(t.base) < PSN_MAX_WINDOW_SIZE
  {
    hide CrossesHalf;
    var n := m.Count(t.pmtu);
    CrossingPsn(t, m.start);
    CrossingPsn(t, m.start + 1);
    CrossingPsn(t, m.start + n - 1);
    CrossingPsn(t, t.base);
    WireAdd(m.start + n - 1, 1);
  }

  // A window that holds the first packet and at most the last.
  ghost predicate GapWindow(w: WindowView, t: Stream, m: Message) {
    var n := m.Count(t.pmtu);
    && w.startPsn == Wire(m.start) && w.numOfPackets == n
    && (w.intervals == map[0 := 0] || w.intervals == map[0 := 0, n - 1 := n - 1])
  }

  // Out of order with such a window, and with largest in the table.
  ghost predicate Gapped(s: System, t: Stream, m: Message, largest: Psn) {
    && s.qp.status.OutOfOrder? && s.qp.pmtu == t.pmtu && s.qp.perQp.Some?
    && s.qp.perQp.value.largestPsnRecved == largest
    && m.msn in s.qp.perQp.value.contexts
    && !s.qp.perQp.value.contexts[m.msn].isReadResp
    && s.qp.perQp.value.contexts[m.msn].recvMap.Some?
    && GapWindow(s.qp.perQp.value.contexts[m.msn].recvMap.value, t, m)
    && s.e == m.start + m.Count(t.pmtu) && m.start + 1 !in s.recved
  }

  ghost function FirstOf(m: Message): Action {
    Arrive(Arrival(m, 0, false))
  }

  ghost function LastOf(m: Message, pmtu: Pmtu): Action {
    Arrive(Arrival(m, m.Count(pmtu) - 1, false))
  }

  // Right after its first packet.
  ghost predicate Begun(s: System, t: Stream, m: Message) {
    && s.qp.status.Normal? && s.qp.pmtu == t.pmtu && s.qp.perQp.Some?
    && s.qp.perQp.value.largestPsnRecved == 0
    && m.msn in s.qp.perQp.value.contexts
    && s.qp.perQp.value.contexts[m.msn] == RecvContext(false, m.addr, m.len, Wire(m.start), None)
    && s.e == m.start + 1 && m.start + 1 !in s.recved
  }

  lemma FirstArrives(s: System, t: Stream, m: Message)
    requires Fatal(t, m) && Orderly(s, t) && s.e == m.start
    ensures Step(s, FirstOf(m)).Ran? && Begun(Step(s, FirstOf(m)).sys, t, m)
  {
    FreeAtStart(s, t, m);
  }

  // ---- its last packet opens the gap ------------------------------------------------------------------------------

  ghost function EndsOnly(t: Stream, m: Message): WindowView {
    WindowView(map[0 := 0, m.Count(t.pmtu) - 1 := m.Count(t.pmtu) - 1], Wire(m.start), m.Count(t.pmtu))
  }

  lemma CreatedEndsOnly(t: Stream, m: Message)
    requires Fatal(t, m)
    ensures var c := RecvContext(false, m.addr, m.len, Wire(m.start), None);
            CreateMapOnPsn(c, WrappingSub(Wire(m.start + 1), 1), Wire(m.start + m.Count(t.pmtu) - 1), t.pmtu)
            == c.(recvMap := Some(EndsOnly(t, m)))
  {
    hide FloorKey, HigherKey, Fatal;
    FatalPsns(t, m);
    var n: nat := m.Count(t.pmtu);
    var w := WindowView(map[], Wire(m.start), n).Inserted(Wire(m.start), Wire(m.start));
    assert w.intervals == map[0 := 0];
    assert 0 in w.intervals;
    var p := Wire(m.start + n - 1);
    assert FloorKey(w.intervals, n - 1) == Some(0);
    assert HigherKey(w.intervals, n - 1) == None;
    assert w.Inserted(p, p).intervals == w.intervals[n - 1 := n - 1];
  }

  // The last packet adds nothing to a window that already holds it: the range from PSN 1 to the start of
  // the message is too long or lies before the message.
  lemma KeepsGap(w: WindowView, e: WriteEvent)
    requires 3 <= w.numOfPackets < PSN_MAX_WINDOW_SIZE && 2 <= w.startPsn && w.startPsn + w.numOfPackets < BORDER
    requires w.intervals == map[0 := 0, w.numOfPackets - 1 := w.numOfPackets - 1]
    requires e.expectedPsn == w.startPsn + 1 && e.psn == w.startPsn + w.numOfPackets - 1
    ensures RecordPacket(w, 0, e) == w
  {
    LastIsInside(w.intervals, w.numOfPackets);
    hide FloorKey, HigherKey, InsertedRange;
    assert GetContinuousRange(0, e.expectedPsn).Some? ==> !w.Accepts(1, w.startPsn);
  }

  lemma LastIsInside(m: Intervals, n: nat)
    requires n >= 3 && m == map[0 := 0, n - 1 := n - 1]
    ensures InsertedRange(m, n - 1, n - 1) == m
  {
    assert n - 1 in m;
    assert FloorKey(m, n - 1) == Some(n - 1);
  }

  lemma EndsOnlyQueries(t: Stream, m: Message)
    requires m.Count(t.pmtu) >= 3
    ensures var w := EndsOnly(t, m); !w.IsComplete() && !w.RecoverPanics() && !w.GapPanics()
  {
    var w, n: nat := EndsOnly(t, m), m.Count(t.pmtu);
    assert 0 in w.intervals && n - 1 in w.intervals;
    assert w.intervals.Keys == {0, n - 1};
    GapNeverPanics(w);
  }

  lemma LastArrives(s: System, t: Stream, m: Message)
    requires Fatal(t, m) && Begun(s, t, m)
    ensures Step(s, LastOf(m, t.pmtu)).Ran? && Gapped(Step(s, LastOf(m, t.pmtu)).sys, t, m, 0)
  {
    hide HandleOutOfOrder, CreateMapOnPsn, Wire, EndsOnly, Message.Count, Fatal, RecordPacket, WindowView.IsComplete,
         WindowView.RecoverPanics, WindowView.GapPanics, MarkAfter;
    var a := LastOf(m, t.pmtu).arrival;
    var e := EventOf(a, s.e, t.pmtu);
    FatalPsns(t, m);
    var q := EnterError(s.qp, e.expectedPsn, e.psn);
    CreatedEndsOnly(t, m);
    var w := EndsOnly(t, m);
    EndsOnlyGap(t, m);
    KeepsGap(w, e);
    EndsOnlyQueries(t, m);
    HandlesOpen(q, e, w);
  }

  lemma EndsOnlyGap(t: Stream, m: Message)
    ensures var w, n := EndsOnly(t, m), m.Count(t.pmtu);
            && w.startPsn == Wire(m.start) && w.numOfPackets == n && w.intervals == map[0 := 0, n - 1 := n - 1]
            && GapWindow(w, t, m)
  {
  }

  // ---- a repeated first packet moves the mark ----------------------------------------------------------------------

  lemma FirstAgain(s: System, t: Stream, m: Message, b: Message, largest: Psn)
    requires Fatal(t, m) && Gapped(s, t, m, largest) && b in t.msgs && b.start <= m.start
    ensures Step(s, FirstOf(b)).Ran?
    ensures Gapped(Step(s, FirstOf(b)).sys, t, m,
                   if LargerInPsn(largest, Wire(b.start)) then largest else Wire(b.start))
  {
    hide LargerInPsn, MarkAfter, WindowView.Inserted, Wire;
    FreshGap(t, m);
  }

  lemma FreshGap(t: Stream, m: Message)
    ensures GapWindow(WindowView(map[], Wire(m.start), m.Count(t.pmtu)).Inserted(Wire(m.start), Wire(m.start)), t, m)
  {
    WireSub(m.start, m.start);
  }

  // ---- the last packet again ------------------------------------------------------------------------------

  lemma GapCloses(i: Intervals, n: nat)
    requires n >= 3 && (i == map[0 := 0] || i == map[0 := 0, n - 1 := n - 1])
    ensures InsertedRange(i, 1, n - 1) == map[0 := n - 1]
  {
    assert 0 in i;
    assert FloorKey(i, 1) == Some(0);
    if i == map[0 := 0] {
      assert HigherKey(i, 1) == None;
    } else {
      assert n - 1 in i;
      assert HigherKey(i, 1) == Some(n - 1);
    }
  }

  // The range from the repeated first packet to the expected PSN fills the gap.
  lemma FillsGap(t: Stream, m: Message, w: WindowView, e: WriteEvent)
    requires Fatal(t, m) && GapWindow(w, t, m)
    requires e.expectedPsn == Wire(m.start + m.Count(t.pmtu)) && e.psn == Wire(m.start + m.Count(t.pmtu) - 1)
    ensures RecordPacket(w, Wire(m.start), e) == w.(intervals := map[0 := m.Count(t.pmtu) - 1])
  {
    hide InsertedRange, Fatal, Wire, Message.Count, WindowView.IsComplete;
    FatalPsns(t, m);
    GapCloses(w.intervals, m.Count(t.pmtu));
    var w1 := w.(intervals := map[0 := m.Count(t.pmtu) - 1]);
    NotComplete(w, t, m);
    assert GetContinuousRange(Wire(m.start), e.expectedPsn) == Some((Wire(m.start) + 1, e.psn));
    assert w.Inserted(Wire(m.start) + 1, e.psn) == w1;
    FullWindow(w1);
  }

  lemma NotComplete(w: WindowView, t: Stream, m: Message)
    requires GapWindow(w, t, m) && m.Count(t.pmtu) >= 3
    ensures !w.IsComplete()
  {
    assert 0 in w.intervals;
  }

  lemma FullWindow(w: WindowView)
    requires w.intervals == map[0 := w.numOfPackets - 1]
    ensures w.IsComplete() && !w.RecoverPanics() && !w.GapPanics()
  {
    assert 0 in w.intervals;
    assert w.intervals.Keys == {0};
    assert |w.intervals| == |w.intervals.Keys| == 1;
  }

  lemma LastAgain(s: System, t: Stream, m: Message)
    requires Fatal(t, m) && Gapped(s, t, m, Wire(m.start))
    ensures !StepIsSound(s, LastOf(m, t.pmtu))
  {
    hide HandleOutOfOrder, RecordPacket, WindowView.IsComplete, WindowView.RecoverPanics, WindowView.GapPanics,
         WindowView.LastPsn, Wire, MarkAfter, GapWindow;
    var e := EventOf(LastOf(m, t.pmtu).arrival, s.e, t.pmtu);
    var w := s.qp.perQp.value.contexts[m.msn].recvMap.value;
    FillsGap(t, m, w, e);
    var w' := RecordPacket(w, Wire(m.start), e);
    GapCount(w, t, m);
    FullWindow(w');
    HandlesOpen(s.qp, e, w');
    var r := Step(s, LastOf(m, t.pmtu));
    assert SendAck(m.msn, w'.LastPsn()) in r.effects;
    assert m.Contains(t.pmtu, m.start + 1) && m.start + 1 !in r.sys.recved;
  }

  lemma GapCount(w: WindowView, t: Stream, m: Message)
    requires GapWindow(w, t, m)
    ensures w.numOfPackets == m.Count(t.pmtu)
  {
  }

  // ---- the whole run ------------------------------------------------------------------------------------------------

  // In order up to the first packet of m, then its last one, the first packet of the stream again, and both
  // ends of m again. Nothing between the ends of m ever arrives.
  ghost function LostMiddle(t: Stream, m: Message): seq<Action>
    requires t.Valid() && Tiles(t) && m in t.msgs
  {
    InOrder(t, t.base, m.start)
    + [FirstOf(m), LastOf(m, t.pmtu), FirstOf(OwnerAt(t, t.base)), FirstOf(m), LastOf(m, t.pmtu)]
  }

  lemma {:induction false} InOrderSent(t: Stream, lo: int, hi: int)
    requires t.Valid() && Tiles(t) && t.base <= lo <= hi <= t.end
    ensures forall i :: 0 <= i < |InOrder(t, lo, hi)| ==> t.Sends(InOrder(t, lo, hi)[i])
    decreases hi - lo
  {
    if lo < hi {
      InOrderSent(t, lo + 1, hi);
    }
  }

  lemma LostMiddleIsUnsound(t: Stream, m: Message)
    requires Fatal(t, m) && Tiles(t)
    ensures forall i :: 0 <= i < |LostMiddle(t, m)| ==> t.Sends(LostMiddle(t, m)[i])
    ensures !RunsSoundly(Init(t.pmtu, t.base), LostMiddle(t, m))
  {
    hide Step, StepIsSound, Gapped, Begun, Orderly, RunTo, InOrder, Tiles;
    var b := OwnerAt(t, t.base);
    InOrderSent(t, t.base, m.start);
    assert b.start == t.base;
    var s0, prefix := Init(t.pmtu, t.base), InOrder(t, t.base, m.start);
    var tail := [FirstOf(m), LastOf(m, t.pmtu), FirstOf(b), FirstOf(m), LastOf(m, t.pmtu)];
    assert Orderly(s0, t) by { InitOrderly(t); }
    ReachInOrder(s0, t, m.start);
    var s1 := RunTo(s0, prefix);
    if RunsSoundly(s0, prefix + tail) {
      RunsOn(s0, prefix, tail);
      TailIsUnsound(s1, t, m, b, tail);
    }
  }

  lemma InitOrderly(t: Stream)
    requires t.Valid()
    ensures Orderly(Init(t.pmtu, t.base), t)
  {
  }

  lemma TailIsUnsound(s1: System, t: Stream, m: Message, b: Message, tail: seq<Action>)
    requires Fatal(t, m) && Orderly(s1, t) && s1.e == m.start && b in t.msgs && b.start == t.base
    requires tail == [FirstOf(m), LastOf(m, t.pmtu), FirstOf(b), FirstOf(m), LastOf(m, t.pmtu)]
    ensures !RunsSoundly(s1, tail)
  {
    hide Step, StepIsSound, Gapped, Begun, Orderly, Fatal, Wire;
    FatalBase(t, m);
    FirstArrives(s1, t, m);
    var s2 := Step(s1, FirstOf(m)).sys;
    LastArrives(s2, t, m);
    var s3 := Step(s2, LastOf(m, t.pmtu)).sys;
    FirstAgain(s3, t, m, b, 0);
    MarkMoves(t, m);
    var s4 := Step(s3, FirstOf(b)).sys;
    FirstAgain(s4, t, m, m, Wire(t.base));
    var s5 := Step(s4, FirstOf(m)).sys;
    LastAgain(s5, t, m);
    if RunsSoundly(s1, tail) {
      assert RunsSoundly(s2, tail[1..]);
      assert RunsSoundly(s3, tail[1..][1..]);
      assert RunsSoundly(s4, tail[1..][1..][1..]);
      assert RunsSoundly(s5, tail[1..][1..][1..][1..]);
    }
  }

  lemma FatalBase(t: Stream, m: Message)
    requires Fatal(t, m)
    ensures t.base <= m.start && m in t.msgs
  {
  }

  // From 0 to the first packet of the stream, and from there to the first packet of the message.
  lemma MarkMoves(t: Stream, m: Message)
    requires Fatal(t, m)
    ensures !LargerInPsn(0, Wire(t.base))
    ensures LargerInPsn(Wire(t.base), Wire(m.start)) ==> Wire(t.base) == Wire(m.start)
  {
    hide Fatal, Wire;
    FatalPsns(t, m);
  }

  // ---- exactly when ------------------------------------------------------------------------------------------------

  // Every run over a stream of messages that tile fewer than 2^23 PSNs is sound if and only if the stream
  // does not run across 2^23 or its messages of three packets and more all end below 2^23.
  lemma StreamAckSoundIff(t: Stream)
    requires t.Valid() && Tiles(t)
    ensures (forall acts :: (forall i :: 0 <= i < |acts| ==> t.Sends(acts[i])) ==>
              RunsSoundly(Init(t.pmtu, t.base), acts))
       <==> !(CrossesHalf(t.base, t.end)
              && exists m :: m in t.msgs && m.Count(t.pmtu) >= 3 && m.start + m.Count(t.pmtu) - 1 >= Boundary(t.base))
  {
    hide RunsSoundly, CrossesHalf, Stream.Sends;
    if CrossesHalf(t.base, t.end) && !LongEndBelow(t) {
      var m :| m in t.msgs && m.Count(t.pmtu) >= 3 && m.start + m.Count(t.pmtu) > Boundary(t.base);
      LostMiddleIsUnsound(t, m);
    } else {
      forall acts | forall i :: 0 <= i < |acts| ==> t.Sends(acts[i]) ensures RunsSoundly(Init(t.pmtu, t.base), acts) {
        HarmlessStream(t, acts);
      }
    }
  }
}
