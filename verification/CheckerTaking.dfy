// How an open message takes its packets in.
//
// Packets that arrive as expected in the middle of a message are not reported. The checker takes them in with
// the next packet of the same message that is reported, unless a packet of another message moves the
// watermark past them before.

module CheckerTaking {
  import opened Psn
  import opened Wrappers
  import opened RecvWindow
  import opened PacketLength
  import opened Checker
  import opened CheckerRuns
  import opened CheckerStreams
  import opened CheckerCrossing
  import opened CheckerDuplicates
  import opened CheckerAcks
  import CheckerWindows

  // ---- the run -------------------------------------------------------------------------------------------

  // Between the watermark and the expected PSN there are only packets from the middle of messages.
  ghost predicate Quiet(s: System, t: Stream) {
    && s.mark < s.e
    && forall m :: m in t.msgs ==>
         !(s.mark < m.start < s.e) && !(s.mark < m.start + m.Count(t.pmtu) - 1 < s.e)
  }

  ghost predicate Awake(s: System, t: Stream) {
    && Fresh(s, t)
    && (forall x :: x in s.recved ==> t.Owns(x))
    && (s.qp.status.OutOfOrder? ==> Quiet(s, t))
  }

  ghost predicate OwnOpen(s: System, a: Arrival) {
    Open(s, a.msg.msn) && a.msg.msn in s.owner && s.owner[a.msg.msn] == a.msg
  }

  // The packet with which the first gap is seen is ahead of the expected one or of the open message, is below
  // 2^23 if there is a context table, and is not the one right after the open message.
  ghost predicate Timely(s: System, a: Arrival) {
    Enters(s, a) ==>
      && (s.qp.perQp.Some? ==> Wire(a.At()) < PSN_MAX_WINDOW_SIZE)
      && (a.At() > s.e || OwnOpen(s, a))
      && forall k :: Open(s, k) && k in s.owner ==> a.At() != s.owner[k].start + s.owner[k].Count(s.qp.pmtu)
  }

  // Read requests leave the slot of m alone.
  ghost predicate Steady(t: Stream, m: Message, act: Action) {
    t.Sends(act) && (act.Read? ==> act.msn % MAX_MSN_WINDOW_PER_QP != m.msn % MAX_MSN_WINDOW_PER_QP)
  }

  ghost predicate Calm(s: System, t: Stream, m: Message, act: Action) {
    Steady(t, m, act) && (act.Arrive? ==> Timely(s, act.arrival))
  }

  // m has been answered.
  ghost predicate Closed(s: System, t: Stream, m: Message) {
    FinishedAt(s.qp, m.msn) && m in t.msgs && m.start + m.Count(t.pmtu) <= s.e
  }

  ghost predicate CalmRun(s: System, t: Stream, m: Message, acts: seq<Action>)
    decreases |acts|
  {
    acts != [] ==>
      && Steady(t, m, acts[0]) && (Closed(s, t, m) || Calm(s, t, m, acts[0]))
      && (var r := Step(s, acts[0]); r.Ran? ==> CalmRun(r.sys, t, m, acts[1..]))
  }

  ghost predicate OwnSlot(t: Stream, m: Message) {
    forall o :: o in t.msgs && o.msn % MAX_MSN_WINDOW_PER_QP == m.msn % MAX_MSN_WINDOW_PER_QP ==> o == m
  }

  // ---- the watermark ----------------------------------------------------------------------------------------

  lemma MarkMoves(s: System, t: Stream, a: Arrival)
    requires t.Valid() && Awake(s, t) && t.Sends(Arrive(a)) && Timely(s, a)
    ensures Enters(s, a) ==> MarkAfter(s, a) == a.At()
    ensures s.qp.status.OutOfOrder? ==>
              MarkAfter(s, a) == if Reported(s, a) && a.At() > s.mark then a.At() else s.mark
  {
    hide Inv;
    if Enters(s, a) {
      CheckerWindows.EntryMark(s, a);
    } else if s.qp.status.OutOfOrder? && Reported(s, a) {
      MarkIsMaximum(s, a);
    }
  }

  // The packet with which the first gap is seen belongs to the open message: no message begins or ends between
  // it and the expected PSN.
  lemma QuietOwn(s: System, t: Stream, a: Arrival, m: Message)
    requires t.Apart() && m in t.msgs && a.msg in t.msgs && s.qp.pmtu == t.pmtu && IsCurrent(s, a.msg)
    ensures !(a.At() < m.start < s.e) && !(a.At() < m.start + m.Count(t.pmtu) - 1 < s.e)
  {
    hide CalculatePacketCnt;
    assert m.Contains(t.pmtu, m.start) && m.Contains(t.pmtu, m.start + m.Count(t.pmtu) - 1);
    assert a.At() < m.start < s.e ==> a.msg.Contains(t.pmtu, m.start);
  }

  // A packet that is not reported is neither the first nor the last of a message.
  lemma QuietMiddle(s: System, t: Stream, a: Arrival, m: Message)
    requires t.Apart() && m in t.msgs && t.Sends(Arrive(a)) && s.qp.pmtu == t.pmtu && !Reported(s, a)
    ensures s.e != m.start && s.e != m.start + m.Count(t.pmtu) - 1
  {
    hide CalculatePacketCnt;
    assert a.msg.Contains(t.pmtu, s.e);
    assert m.Contains(t.pmtu, m.start) && m.Contains(t.pmtu, m.start + m.Count(t.pmtu) - 1);
  }

  lemma QuietStays(s: System, t: Stream, a: Arrival)
    requires t.Valid() && Awake(s, t) && t.Sends(Arrive(a)) && Timely(s, a)
    requires s.qp.status.OutOfOrder? || Enters(s, a)
    ensures Quiet(s.(mark := MarkAfter(s, a), e := if a.At() >= s.e then a.At() + 1 else s.e), t)
  {
    hide Inv, MarkAfter, Wire, CalculatePacketCnt, Stream.Apart, Reported, Stream.Owns, Arrival.Type;
    MarkMoves(s, t, a);
    var mark, e := MarkAfter(s, a), if a.At() >= s.e then a.At() + 1 else s.e;
    if !Reported(s, a) {
      QuietIsNext(s, a);
    }
    forall m | m in t.msgs
      ensures !(mark < m.start < e) && !(mark < m.start + m.Count(t.pmtu) - 1 < e)
    {
      if Enters(s, a) && a.At() < s.e {
        QuietOwn(s, t, a, m);
      } else if s.qp.status.OutOfOrder? && !Reported(s, a) {
        QuietMiddle(s, t, a, m);
      }
    }
  }

  lemma QuietIsNext(s: System, a: Arrival)
    requires !Reported(s, a)
    ensures a.At() == s.e
  {
  }

  lemma AwakeStep(s: System, t: Stream, act: Action)
    requires t.Valid() && Awake(s, t) && t.Sends(act) && (act.Arrive? ==> Timely(s, act.arrival))
    ensures StepIsSound(s, act) && Awake(Step(s, act).sys, t)
  {
    match act
    case Read(msn) =>
      hide Inv;
      StepSound(s, act);
    case Arrive(a) =>
      hide Inv, Step, InFlight, AcksSound, Awake;
      assert Fresh(s, t) by { assert Awake(s, t); }
      FreshInFlight(s, t, a);
      StepSound(s, act);
      AwakeArrival(s, t, a);
  }

  lemma AwakeArrival(s: System, t: Stream, a: Arrival)
    requires t.Valid() && Awake(s, t) && t.Sends(Arrive(a)) && Timely(s, a)
    requires Step(s, Arrive(a)).Ran? && Inv(Step(s, Arrive(a)).sys)
    ensures Awake(Step(s, Arrive(a)).sys, t)
  {
    hide Inv, Step, Wire, MarkAfter, Timely, Quiet, Stream.Owns, Stream.Apart, CalculatePacketCnt;
    StepFields(s, a);
    EventDiffers(s, a);
    OwnsArrival(t, a);
    if s.qp.status.Normal? && a.At() == s.e {
      CurrentInStream(s, t, a);
    } else {
      AwakeMark(s, t, a);
      QuietStays(s, t, a);
      QuietSame(Step(s, Arrive(a)).sys, s.(mark := Step(s, Arrive(a)).sys.mark, e := Step(s, Arrive(a)).sys.e), t);
    }
  }

  lemma OwnsArrival(t: Stream, a: Arrival)
    requires t.Sends(Arrive(a))
    ensures t.Owns(a.At())
  {
    assert a.msg.Contains(t.pmtu, a.At());
  }

  lemma QuietSame(s: System, u: System, t: Stream)
    requires s.mark == u.mark && s.e == u.e
    ensures Quiet(s, t) == Quiet(u, t)
  {
  }

  lemma AwakeMark(s: System, t: Stream, a: Arrival)
    requires t.Valid() && Awake(s, t) && t.Sends(Arrive(a)) && Timely(s, a)
    requires s.qp.status.OutOfOrder? || Enters(s, a)
    ensures t.base <= MarkAfter(s, a) < t.end
  {
    hide Inv, MarkAfter, Wire;
    MarkMoves(s, t, a);
  }

  // ---- the window of an open message --------------------------------------------------------------------------

  // Covered offsets beyond the watermark leave none out, the one after the message is not covered, and what is
  // in got is covered or lies between watermark and expected PSN.
  ghost predicate Takes(w: WindowView, m: Message, pmtu: Pmtu, mark: int, e: int, got: iset<int>) {
    && m.start <= mark && !w.IsComplete() && !Covers(w.intervals, m.Count(pmtu))
    && (forall x: int, y: int :: Covers(w.intervals, x) && mark - m.start < y <= x ==> Covers(w.intervals, y))
    && (forall x :: x in got && m.Contains(pmtu, x) ==> Covers(w.intervals, x - m.start) || mark < x < e)
  }

  // A range that runs past the next interval meets the start of one, and an offset missing after it.
  lemma StartOfNext(m: Intervals, left: nat, right: nat) returns (h: nat)
    requires WellFormed(m) && RunsPastNext(m, left, right)
    ensures left < h && h in m && h <= m[h] < right && Covers(m, h) && !Covers(m, h - 1) && !Covers(m, m[h] + 1)
  {
    h := HigherKey(m, left).value;
    assert Covers(m, h);
  }

  // The range is what lies between watermark and expected PSN.
  lemma RangeIs(w: WindowView, m: Message, mark: int, e: int, x: int)
    requires w.startPsn == Wire(m.start) && m.start <= mark < e < m.start + PSN_MAX_WINDOW_SIZE
    ensures InRange(w, Wire(mark), Wire(e), x) <==> mark < m.start + x < e
  {
    assert WrappingAdd(Wire(mark), 1) == Wire(mark + 1) by { WireAdd(mark, 1); }
    assert WrappingSub(Wire(e), 1) == Wire(e - 1) by { WireSub(e, 1); assert Wire(1) == 1; }
    WireSub(e - 1, mark + 1);
    WireNear(e - 1, mark + 1);
    WireSub(mark + 1, m.start);
    WireNear(mark + 1, m.start);
    WireSub(e - 1, m.start);
    WireNear(e - 1, m.start);
  }

  // A packet of the message, reported out of order.
  ghost predicate Reaches(w: WindowView, m: Message, pmtu: Pmtu, mark: int, e: int, p: int) {
    && w.startPsn == Wire(m.start) && w.numOfPackets == m.Count(pmtu) && Sane(w.intervals)
    && mark < e < m.start + PSN_MAX_WINDOW_SIZE && m.Count(pmtu) < PSN_MAX_WINDOW_SIZE && m.Contains(pmtu, p)
  }

  lemma OffsetOf(m: Message, p: int)
    requires m.start <= p < m.start + PSN_MAX_WINDOW_SIZE
    ensures WrappingSub(Wire(p), Wire(m.start)) == p - m.start
  {
    WireSub(p, m.start);
    WireNear(p, m.start);
  }

  lemma TakesRegular(w: WindowView, m: Message, pmtu: Pmtu, mark: int, e: int, got: iset<int>, ev: WriteEvent, p: int)
    requires Takes(w, m, pmtu, mark, e, got) && Reaches(w, m, pmtu, mark, e, p)
    requires ev.psn == Wire(p) && ev.expectedPsn == Wire(e)
    ensures Regular(w, Wire(mark), ev)
    ensures forall x: int :: Filled(w, Wire(mark), ev, x) <==>
              Covers(w.intervals, x) || mark < m.start + x < e || x == p - m.start
  {
    hide Covers, WellFormed, Bounded, RunsPastNext, WindowView.IsComplete;
    OffsetOf(m, p);
    hide Wire;
    var range := GetContinuousRange(Wire(mark), Wire(e));
    if range.Some? && w.Accepts(range.value.0, range.value.1) {
      var left, right := WrappingSub(range.value.0, w.startPsn), WrappingSub(range.value.1, w.startPsn);
      if RunsPastNext(w.intervals, left, right) {
        var h := StartOfNext(w.intervals, left, right);
        RangeIs(w, m, mark, e, h - 1);
      }
    }
    forall x: int ensures Filled(w, Wire(mark), ev, x) <==>
                            Covers(w.intervals, x) || mark < m.start + x < e || x == p - m.start {
      RangeIs(w, m, mark, e, x);
    }
  }

  lemma RecordedTakes(w: WindowView, m: Message, pmtu: Pmtu, mark: int, e: int, got: iset<int>, ev: WriteEvent, p: int)
    requires Takes(w, m, pmtu, mark, e, got) && Reaches(w, m, pmtu, mark, e, p)
    requires ev.psn == Wire(p) && ev.expectedPsn == Wire(e) && !(mark < m.start + m.Count(pmtu) < e)
    requires forall x: int :: Covers(w.intervals, x) ==> m.start + x < e
    ensures var w' := RecordPacket(w, Wire(mark), ev);
            !w'.IsComplete() ==>
              Takes(w', m, pmtu, if p > mark then p else mark, if p >= e then p + 1 else e, got + iset{p})
  {
    hide Covers, WellFormed, Bounded, RunsPastNext, WindowView.IsComplete, RecordPacket, Filled, Regular, Wire;
    TakesRegular(w, m, pmtu, mark, e, got, ev, p);
    RecordedCover(w, Wire(mark), ev);
    OffsetOf(m, p);
  }

  // The PSN after a message is not from the middle of another.
  lemma NextIsStart(s: System, t: Stream, m: Message)
    requires t.Valid() && Awake(s, t) && s.qp.status.OutOfOrder? && m in t.msgs
    ensures !(s.mark < m.start + m.Count(t.pmtu) < s.e)
  {
    hide WindowSound;
    var x := m.start + m.Count(t.pmtu);
    assert m.Contains(t.pmtu, x - 1);
    if s.mark < x < s.e {
      assert t.Owns(x);
      var o :| o in t.msgs && o.Contains(t.pmtu, x);
    }
  }

  // ---- entering --------------------------------------------------------------------------------------------------

  // The window of the open message when the first gap is seen: all before the expected PSN, and the packet.
  lemma EntryCover(c: RecvContext, m: Message, pmtu: Pmtu, e: int, p: int)
    requires ContextMatches(c, m) && m.start < e < m.start + m.Count(pmtu) <= m.start + PSN_MAX_WINDOW_SIZE
    requires -PSN_MAX_WINDOW_SIZE <= p - m.start < PSN_MAX_WINDOW_SIZE
    ensures var w := CreateMapOnPsn(c, WrappingSub(Wire(e), 1), Wire(p), pmtu).recvMap.value;
            && w.startPsn == Wire(m.start) && w.numOfPackets == m.Count(pmtu) && Sane(w.intervals)
            && forall x: int :: Covers(w.intervals, x) <==> 0 <= x < e - m.start || (x == p - m.start && x >= 0)
  {
    hide Covers, WellFormed, Bounded, RunsPastNext, InsertedRange;
    assert WrappingSub(Wire(e), 1) == Wire(e - 1) by { WireSub(e, 1); assert Wire(1) == 1; }
    OffsetOf(m, m.start);
    OffsetOf(m, e - 1);
    WireSub(p, m.start);
    WireNear(p, m.start);
    var w := WindowView(map[], Wire(m.start), m.Count(pmtu));
    var w1 := w.Inserted(Wire(m.start), Wire(e - 1));
    Prefix(e - 1 - m.start, m.Count(pmtu), Wire(m.start));
    assert w1 == WindowView(map[0 := e - 1 - m.start], Wire(m.start), m.Count(pmtu));
    hide Wire, CalculatePacketCnt, WrappingSub;
    InsertedSane(w1, Wire(p), Wire(p));
    if w1.Accepts(Wire(p), Wire(p)) {
      PointFits(w1.intervals, p - m.start);
      InsertedIsUnion(w1, Wire(p), Wire(p));
    } else {
      NotInserted(w1, Wire(p), Wire(p));
    }
  }

  lemma Prefix(k: nat, n: pos, start: Psn)
    requires k < n - 1 && k < PSN_MAX_WINDOW_SIZE
    ensures InsertedRange(map[], 0, k) == map[0 := k]
    ensures Sane(map[0 := k]) && !WindowView(map[0 := k], start, n).IsComplete()
    ensures !WindowView(map[], start, n).IsComplete()
    ensures forall x: int :: Covers(map[0 := k], x) <==> 0 <= x <= k
  {
    var m: Intervals := map[0 := k];
    assert 0 in m && Covers(m, 0);
    forall x: int ensures Covers(m, x) <==> 0 <= x <= k {
      assert Covers(m, x) <==> 0 in m && 0 <= x <= m[0];
    }
  }

  // ---- a message that is open ----------------------------------------------------------------------------------

  ghost predicate SlotHeld(q: Qp, msn: Msn) {
    q.perQp.Some? && q.perQp.value.recentMsn[msn % MAX_MSN_WINDOW_PER_QP].1 == Processing
  }

  // m is open and holds its slot; got are packets of it that have been taken in.
  ghost predicate Kept(s: System, t: Stream, m: Message, got: iset<int>) {
    && m in t.msgs && Open(s, m.msn) && m.msn in s.owner && s.owner[m.msn] == m && SlotHeld(s.qp, m.msn)
    && (s.qp.status.Normal? ==> forall x :: x in got ==> x < s.e)
    && (s.qp.status.OutOfOrder? ==>
          var c := s.qp.perQp.value.contexts[m.msn];
          c.recvMap.Some? && Takes(c.recvMap.value, m, t.pmtu, s.mark, s.e, got))
  }

  // A packet of another message that moves the watermark makes the checker forget what it has not recorded.
  ghost function Taken(s: System, m: Message, act: Action, got: iset<int>): iset<int> {
    if act.Read? then got
    else if act.arrival.msg == m then got + iset{act.arrival.At()}
    else if s.qp.status.OutOfOrder? && MarkAfter(s, act.arrival) > s.mark then iset x | x in got && x <= s.mark
    else got
  }

  // The card itself acknowledges an in-order last packet.
  ghost predicate AutoAcked(s: System, m: Message, act: Action) {
    act.Arrive? && s.qp.status.Normal? && act.arrival.msg == m && act.arrival.At() == s.e && act.arrival.autoAck
    && act.arrival.offset == m.Count(s.qp.pmtu) - 1
  }

  // How often the step answers m.
  ghost function Answers(s: System, m: Message, act: Action): nat {
    var r := Step(s, act);
    (if r.Ran? then Acks(r.effects, m.msn) else 0) + if AutoAcked(s, m, act) then 1 else 0
  }

  ghost predicate Advances(s: System, t: Stream, m: Message, act: Action, got: iset<int>) {
    var r := Step(s, act);
    && r.Ran?
    && ((Answers(s, m, act) == 1 && Closed(r.sys, t, m))
        || (Answers(s, m, act) == 0 && Kept(r.sys, t, m, Taken(s, m, act, got))))
  }

  // The window of an open message, out of order.
  lemma KeptWindow(s: System, t: Stream, m: Message, got: iset<int>)
    requires Inv(s) && OneCurrent(s, t) && Kept(s, t, m, got) && s.qp.status.OutOfOrder?
    ensures var w := s.qp.perQp.value.contexts[m.msn].recvMap.value;
            && w.startPsn == Wire(m.start) && w.numOfPackets == m.Count(t.pmtu) && Sane(w.intervals)
            && s.qp.perQp.value.largestPsnRecved == Wire(s.mark)
            && forall x: int :: Covers(w.intervals, x) ==> m.start + x < s.e
  {
    hide Sane, Covers, Wire, CalculatePacketCnt;
    assert ContextSound(s, m.msn);
  }

  // Something of the message is still missing.
  lemma KeptMissing(s: System, t: Stream, m: Message, got: iset<int>)
    requires t.Valid() && Awake(s, t) && Kept(s, t, m, got)
    ensures exists x :: m.Contains(t.pmtu, x) && x !in got
  {
    hide Covers, WellFormed, Bounded, WindowView.IsComplete, Inv, CalculatePacketCnt, Stream.Owns, Stream.Apart,
         SlotHeld, Wire;
    var n := m.Count(t.pmtu);
    var last := m.start + n - 1;
    assert m.Contains(t.pmtu, last);
    if s.qp.status.OutOfOrder? && last in got {
      KeptWindow(s, t, m, got);
      var w := s.qp.perQp.value.contexts[m.msn].recvMap.value;
      CompleteIff(w);
      var x: int :| 0 <= x < n && !Covers(w.intervals, x);
      assert m.Contains(t.pmtu, m.start + x);
      assert Covers(w.intervals, last - m.start);
      assert m.start + x !in got;
    }
  }

  // ---- steps in order -----------------------------------------------------------------------------------------------

  lemma KeptInOrder(s: System, t: Stream, m: Message, a: Arrival, got: iset<int>)
    requires t.Valid() && Awake(s, t) && Kept(s, t, m, got) && t.Sends(Arrive(a))
    requires s.qp.status.Normal? && a.At() == s.e
    ensures Advances(s, t, m, Arrive(a), got)
  {
    hide Inv;
    assert m.Contains(t.pmtu, s.e) && a.msg.Contains(t.pmtu, s.e);
    assert a.msg == m;
    var e := EventOf(a, s.e, s.qp.pmtu);
    if e.writeType.Last? {
      InOrderAnswers(s.qp, e);
      RemovedIsFinished(s.qp, m.msn);
    }
  }

  // ---- steps out of order ---------------------------------------------------------------------------------

  // Packets of other messages leave the context alone, and the slot.
  lemma OtherHandled(q: Qp, e: WriteEvent, msn: Msn)
    requires q.perQp.Some? && msn in q.perQp.value.contexts && SlotHeld(q, msn) && HandleOutOfOrder(q, e).Next?
    requires e.msn % MAX_MSN_WINDOW_PER_QP != msn % MAX_MSN_WINDOW_PER_QP
    ensures var r := HandleOutOfOrder(q, e);
            && SlotHeld(r.qp, msn) && msn in r.qp.perQp.value.contexts
            && r.qp.perQp.value.contexts[msn] == q.perQp.value.contexts[msn]
  {
    hide RecordPacket, GapEffects, RecoverEffects, WindowView.IsComplete, WindowView.RecoverPanics,
         WindowView.GapPanics, WindowView.TryGetRecoverPsn, WindowView.LastPsn, ContextWithWindow, LargerInPsn;
  }

  // The first packet again is not taken for a new message.
  lemma FirstHandled(q: Qp, e: WriteEvent)
    requires q.perQp.Some? && e.msn in q.perQp.value.contexts && SlotHeld(q, e.msn) && e.writeType.First?
    ensures var r := HandleOutOfOrder(q, e);
            && r.Next? && r.effects == [] && SlotHeld(r.qp, e.msn)
            && r.qp.perQp.value.contexts == q.perQp.value.contexts
  {
    hide ContextWithWindow, LargerInPsn;
  }

  // Any other packet of the message leaves it with the window w, or answers it.
  lemma OwnHandled(q: Qp, e: WriteEvent, w: WindowView)
    requires q.status.OutOfOrder? && q.perQp.Some? && e.msn in q.perQp.value.contexts && SlotHeld(q, e.msn)
    requires (e.writeType.Middle? || e.writeType.Last?) && q.perQp.value.contexts[e.msn].recvMap.Some?
    requires w == RecordPacket(q.perQp.value.contexts[e.msn].recvMap.value, q.perQp.value.largestPsnRecved, e)
    requires Sane(w.intervals) && !q.perQp.value.contexts[e.msn].isReadResp
    ensures var r := HandleOutOfOrder(q, e);
            && r.Next?
            && (w.IsComplete() ==> Acks(r.effects, e.msn) == 1 && FinishedAt(r.qp, e.msn))
            && (!w.IsComplete() ==>
                  && Acks(r.effects, e.msn) == 0 && SlotHeld(r.qp, e.msn) && e.msn in r.qp.perQp.value.contexts
                  && r.qp.perQp.value.contexts[e.msn].recvMap == Some(w))
  {
    hide RecordPacket, WindowView.IsComplete, WindowView.RecoverPanics, WindowView.GapPanics, Done, GapEffects,
         WindowView.TryGetRecoverPsn, WindowView.RecentGap, LargerInPsn, WindowView.LastPsn, Sane, RecoverEffects;
    SaneNeverPanics(w);
    var recover := EffectsShape(q, e, w);
    ShapeAnswers(GapEffects(w, e.msn), w.IsComplete(), false, e.msn, w.LastPsn(), recover);
  }

  lemma TakesSame(w: WindowView, w': WindowView, m: Message, pmtu: Pmtu, mark: int, e: int, got: iset<int>)
    requires Takes(w, m, pmtu, mark, e, got) && WellFormed(w.intervals) && WellFormed(w'.intervals)
    requires w'.numOfPackets == w.numOfPackets && forall x: int :: Covers(w'.intervals, x) <==> Covers(w.intervals, x)
    ensures Takes(w', m, pmtu, mark, e, got)
  {
    hide Covers, WellFormed, WindowView.IsComplete;
    CompleteIff(w);
    CompleteIff(w');
  }

  // The window at the first gap misses the expected packet.
  lemma EntryTakes(c: RecvContext, m: Message, pmtu: Pmtu, e: int, p: int, got: iset<int>)
    requires ContextMatches(c, m) && m.start < e < m.start + m.Count(pmtu) <= m.start + PSN_MAX_WINDOW_SIZE
    requires p != e && m.start <= p < m.start + PSN_MAX_WINDOW_SIZE && p != m.start + m.Count(pmtu)
    requires forall x :: x in got ==> x < e
    ensures var w := CreateMapOnPsn(c, WrappingSub(Wire(e), 1), Wire(p), pmtu).recvMap.value;
            Takes(w, m, pmtu, p, if p >= e then p + 1 else e, got + iset{p})
  {
    hide Covers, WellFormed, Bounded, WindowView.IsComplete, WindowView.Inserted, Wire, WrappingSub;
    EntryCover(c, m, pmtu, e, p);
    var w := CreateMapOnPsn(c, WrappingSub(Wire(e), 1), Wire(p), pmtu).recvMap.value;
    CompleteIff(w);
    assert !Covers(w.intervals, e - m.start);
  }

  // Recording the packet once more adds nothing, whatever the watermark.
  lemma EntryRecords(w: WindowView, m: Message, pmtu: Pmtu, e: int, p: int, largest: Psn, ev: WriteEvent)
    requires w.startPsn == Wire(m.start) && w.numOfPackets == m.Count(pmtu) && Sane(w.intervals) && !w.IsComplete()
    requires m.start < e < m.start + m.Count(pmtu) <= m.start + PSN_MAX_WINDOW_SIZE && m.Contains(pmtu, p)
    requires forall x: int :: Covers(w.intervals, x) <==> 0 <= x < e - m.start || (x == p - m.start && x >= 0)
    requires ev.psn == Wire(p) && ev.expectedPsn == Wire(e)
    ensures var w' := RecordPacket(w, largest, ev);
            && w'.startPsn == w.startPsn && w'.numOfPackets == w.numOfPackets && Sane(w'.intervals)
            && forall x: int :: Covers(w'.intervals, x) <==> Covers(w.intervals, x)
  {
    hide Covers, WellFormed, Bounded, RunsPastNext, WindowView.IsComplete, RecordPacket;
    OffsetOf(m, p);
    OffsetOf(m, e - 1);
    assert WrappingSub(Wire(e), 1) == Wire(e - 1) by { WireSub(e, 1); assert Wire(1) == 1; }
    hide Wire;
    var range := GetContinuousRange(largest, Wire(e));
    if range.Some? && w.Accepts(range.value.0, range.value.1) {
      var left, right := WrappingSub(range.value.0, w.startPsn), WrappingSub(range.value.1, w.startPsn);
      if RunsPastNext(w.intervals, left, right) {
        var h := StartOfNext(w.intervals, left, right);
      }
    }
    hide WrappingSub;
    RecordedCover(w, largest, ev);
  }

  // The step is that of the checker in the state in which the packet is handled.
  lemma Handles(s: System, t: Stream, a: Arrival)
    requires t.Valid() && Awake(s, t) && t.Sends(Arrive(a))
    requires Enters(s, a) || (s.qp.status.OutOfOrder? && Reported(s, a))
    ensures var u := Handled(s, a);
            var r := HandleOutOfOrder(u.qp, EventOf(a, s.e, t.pmtu));
            && u.qp.pmtu == t.pmtu && u.qp.status.OutOfOrder? && u.qp.perQp.Some? && r.Next?
            && Step(s, Arrive(a)) == Ran(AfterStep(s, a, u, r.qp), r.effects)
  {
    hide Step, Inv, InFlight, HandleOutOfOrder, AfterStep, CreateMapOnPsn;
    FreshInFlight(s, t, a);
    HandledReady(s, a);
    HandledSound(Handled(s, a), a);
    StepIsHandling(s, a);
  }

  // The context of an open message when the packet is handled.
  lemma HandledContext(s: System, t: Stream, m: Message, a: Arrival, got: iset<int>)
    requires t.Valid() && Awake(s, t) && Kept(s, t, m, got) && t.Sends(Arrive(a)) && Timely(s, a)
    requires Enters(s, a) || s.qp.status.OutOfOrder?
    ensures var u := Handled(s, a);
            && u.qp.perQp.Some? && SlotHeld(u.qp, m.msn) && m.msn in u.qp.perQp.value.contexts
            && var c := u.qp.perQp.value.contexts[m.msn];
               && c.recvMap.Some? && !c.isReadResp
               && c.recvMap.value.startPsn == Wire(m.start) && c.recvMap.value.numOfPackets == m.Count(t.pmtu)
               && Sane(c.recvMap.value.intervals)
               && (forall x: int :: Covers(c.recvMap.value.intervals, x) ==> m.start + x < s.e || m.start + x == a.At())
  {
    hide Covers, WellFormed, Bounded, WindowView.Inserted, WindowView.IsComplete;
    assert ContextSound(s, m.msn);
    if Enters(s, a) {
      EntryCover(s.qp.perQp.value.contexts[m.msn], m, t.pmtu, s.e, a.At());
    }
  }

  // A later watermark.
  lemma TakesLater(w: WindowView, m: Message, pmtu: Pmtu, mark: int, e: int, got: iset<int>, mark': int, e': int,
                   got': iset<int>)
    requires Takes(w, m, pmtu, mark, e, got) && mark <= mark' && e <= e' && got' <= got
    requires mark' == mark || forall x :: x in got' ==> x <= mark
    ensures Takes(w, m, pmtu, mark', e', got')
  {
    hide Covers, WindowView.IsComplete;
  }

  // The state after a packet that was handled out of order.
  ghost predicate LeftWith(s: System, t: Stream, m: Message, a: Arrival, w: WindowView) {
    var r := Step(s, Arrive(a));
    && r.Ran? && r.sys.qp.status.OutOfOrder? && SlotHeld(r.sys.qp, m.msn)
    && m.msn in r.sys.qp.perQp.value.contexts && r.sys.qp.perQp.value.contexts[m.msn].recvMap == Some(w)
    && r.sys.mark == MarkAfter(s, a) && r.sys.e == (if a.At() >= s.e then a.At() + 1 else s.e)
    && r.sys.owner == if a.offset == 0 then s.owner[a.msg.msn := a.msg] else s.owner
  }

  lemma LeftIsKept(s: System, t: Stream, m: Message, a: Arrival, got: iset<int>, w: WindowView)
    requires t.Valid() && Kept(s, t, m, got) && t.Sends(Arrive(a)) && LeftWith(s, t, m, a, w)
    requires Takes(w, m, t.pmtu, MarkAfter(s, a), if a.At() >= s.e then a.At() + 1 else s.e,
                   Taken(s, m, Arrive(a), got))
    ensures Kept(Step(s, Arrive(a)).sys, t, m, Taken(s, m, Arrive(a), got))
  {
    hide Takes, Step, MarkAfter, Taken;
  }

  lemma KeptOther(s: System, t: Stream, m: Message, a: Arrival, got: iset<int>)
    requires t.Valid() && Awake(s, t) && Kept(s, t, m, got) && OwnSlot(t, m) && Calm(s, t, m, Arrive(a)) && a.msg != m
    requires Enters(s, a) || (s.qp.status.OutOfOrder? && Reported(s, a))
    ensures Advances(s, t, m, Arrive(a), got)
  {
    hide Step, Inv, AcksSound, InFlight, Covers, WellFormed, HandleOutOfOrder, CreateMapOnPsn, Wire, MarkAfter,
         WindowView.IsComplete, Acks, Takes, Awake, LeftWith, Sane;
    AwakeStep(s, t, Arrive(a));
    OthersNotAcked(s, t, m, a);
    OtherLeft(s, t, m, a, got);
    HandledContext(s, t, m, a, got);
    var w := Handled(s, a).qp.perQp.value.contexts[m.msn].recvMap.value;
    var mark, e := MarkAfter(s, a), if a.At() >= s.e then a.At() + 1 else s.e;
    MarkMoves(s, t, a);
    if Enters(s, a) {
      KeptEntry(s, t, m, a, got);
      TakesLater(w, m, t.pmtu, a.At(), e, got + iset{a.At()}, mark, e, got);
    } else {
      TakesLater(w, m, t.pmtu, s.mark, s.e, got, mark, e, Taken(s, m, Arrive(a), got));
    }
    LeftIsKept(s, t, m, a, got, w);
  }

  lemma OtherLeft(s: System, t: Stream, m: Message, a: Arrival, got: iset<int>)
    requires t.Valid() && Awake(s, t) && Kept(s, t, m, got) && OwnSlot(t, m) && Calm(s, t, m, Arrive(a)) && a.msg != m
    requires Enters(s, a) || (s.qp.status.OutOfOrder? && Reported(s, a))
    ensures var p := Handled(s, a).qp.perQp;
            && p.Some? && m.msn in p.value.contexts && p.value.contexts[m.msn].recvMap.Some?
            && LeftWith(s, t, m, a, p.value.contexts[m.msn].recvMap.value)
  {
    hide Step, HandleOutOfOrder, Wire, MarkAfter, Takes, Timely, Sane, Awake, Handled;
    Handles(s, t, a);
    HandledContext(s, t, m, a, got);
    OtherHandled(Handled(s, a).qp, EventOf(a, s.e, t.pmtu), m.msn);
    HandledStatus(Handled(s, a).qp, EventOf(a, s.e, t.pmtu));
    assert Awake(s, t);
    AfterFields(s, a, HandleOutOfOrder(Handled(s, a).qp, EventOf(a, s.e, t.pmtu)).qp);
  }

  lemma AfterFields(s: System, a: Arrival, qp: Qp)
    ensures var s' := AfterStep(s, a, Handled(s, a), qp);
            && s'.qp == qp && s'.mark == MarkAfter(s, a) && s'.e == (if a.At() >= s.e then a.At() + 1 else s.e)
            && s'.owner == if a.offset == 0 then s.owner[a.msg.msn := a.msg] else s.owner
  {
  }

  lemma HandledStatus(q: Qp, e: WriteEvent)
    requires HandleOutOfOrder(q, e).Next?
    ensures HandleOutOfOrder(q, e).qp.status == q.status
  {
    hide RecordPacket, GapEffects, RecoverEffects, WindowView.IsComplete, WindowView.RecoverPanics,
         WindowView.GapPanics, ContextWithWindow, LargerInPsn;
  }

  lemma OthersNotAcked(s: System, t: Stream, m: Message, a: Arrival)
    requires t.Valid() && t.Sends(Arrive(a)) && m in t.msgs && a.msg != m && StepIsSound(s, Arrive(a))
    ensures Answers(s, m, Arrive(a)) == 0
  {
    hide Step;
    NoAcks(Step(s, Arrive(a)).effects, m.msn);
  }

  // What the first gap does to the window of an open message.
  lemma KeptEntry(s: System, t: Stream, m: Message, a: Arrival, got: iset<int>)
    requires t.Valid() && Awake(s, t) && Kept(s, t, m, got) && t.Sends(Arrive(a)) && Timely(s, a) && Enters(s, a)
    ensures var u := Handled(s, a); u.qp.perQp.Some? && m.msn in u.qp.perQp.value.contexts
    ensures var c := Handled(s, a).qp.perQp.value.contexts[m.msn];
            && c.recvMap.Some?
            && Takes(c.recvMap.value, m, t.pmtu, a.At(), if a.At() >= s.e then a.At() + 1 else s.e, got + iset{a.At()})
  {
    hide Takes, Covers, WindowView.Inserted, Wire, WindowSound, Stream.Owns, CalculatePacketCnt;
    assert ContextSound(s, m.msn);
    assert m.Contains(t.pmtu, s.e);
    assert OwnOpen(s, a) ==> a.msg.Contains(t.pmtu, s.e);
    EntryTakes(s.qp.perQp.value.contexts[m.msn], m, t.pmtu, s.e, a.At(), got);
  }

  // The first packet again.
  lemma KeptFirst(s: System, t: Stream, m: Message, a: Arrival, got: iset<int>)
    requires t.Valid() && Awake(s, t) && Kept(s, t, m, got) && Calm(s, t, m, Arrive(a)) && a.msg == m && a.offset == 0
    requires Enters(s, a) || (s.qp.status.OutOfOrder? && Reported(s, a))
    requires m.Count(t.pmtu) > 1
    ensures Advances(s, t, m, Arrive(a), got)
  {
    hide Step, HandleOutOfOrder, Wire, MarkAfter, Takes, Sane, Handled;
    Handles(s, t, a);
    HandledContext(s, t, m, a, got);
    var q, ev := Handled(s, a).qp, EventOf(a, s.e, t.pmtu);
    FirstHandled(q, ev);
    HandledStatus(q, ev);
    AfterFields(s, a, HandleOutOfOrder(q, ev).qp);
    var w := q.perQp.value.contexts[m.msn].recvMap.value;
    FirstTaken(s, t, m, a, got);
    LeftIsKept(s, t, m, a, got, w);
  }

  lemma FirstTaken(s: System, t: Stream, m: Message, a: Arrival, got: iset<int>)
    requires t.Valid() && Awake(s, t) && Kept(s, t, m, got) && Calm(s, t, m, Arrive(a)) && a.msg == m && a.offset == 0
    requires Enters(s, a) || (s.qp.status.OutOfOrder? && Reported(s, a))
    ensures var u := Handled(s, a); u.qp.perQp.Some? && m.msn in u.qp.perQp.value.contexts
    ensures var c := Handled(s, a).qp.perQp.value.contexts[m.msn];
            && c.recvMap.Some?
            && Takes(c.recvMap.value, m, t.pmtu, MarkAfter(s, a), if a.At() >= s.e then a.At() + 1 else s.e,
                     got + iset{a.At()})
  {
    hide Inv, Wire, MarkAfter, Covers, WellFormed, WindowView.IsComplete, CreateMapOnPsn, Bounded;
    MarkMoves(s, t, a);
    HandledContext(s, t, m, a, got);
    if Enters(s, a) {
      KeptEntry(s, t, m, a, got);
    }
  }

  // The window after another packet of the message, out of order.
  lemma OwnRecorded(s: System, t: Stream, m: Message, a: Arrival, got: iset<int>)
    requires t.Valid() && Awake(s, t) && Kept(s, t, m, got) && t.Sends(Arrive(a)) && a.msg == m
    requires s.qp.status.OutOfOrder? && Reported(s, a)
    ensures var p := s.qp.perQp.value;
            var w := RecordPacket(p.contexts[m.msn].recvMap.value, p.largestPsnRecved, EventOf(a, s.e, t.pmtu));
            var mark, e := if a.At() > s.mark then a.At() else s.mark, if a.At() >= s.e then a.At() + 1 else s.e;
            && Sane(w.intervals)
            && (w.IsComplete() ==> m.start + m.Count(t.pmtu) <= e)
            && (!w.IsComplete() ==> Takes(w, m, t.pmtu, mark, e, got + iset{a.At()}))
  {
    hide Covers, WellFormed, Bounded, WindowView.IsComplete, RecordPacket, Wire, Filled, Regular;
    assert ContextSound(s, m.msn);
    var p, ev, n := s.qp.perQp.value, EventOf(a, s.e, t.pmtu), m.Count(t.pmtu);
    var w := p.contexts[m.msn].recvMap.value;
    assert m.Contains(t.pmtu, a.At());
    NextIsStart(s, t, m);
    assert s.e < m.start + PSN_MAX_WINDOW_SIZE && n < PSN_MAX_WINDOW_SIZE;
    TakesRegular(w, m, t.pmtu, s.mark, s.e, got, ev, a.At());
    RecordedTakes(w, m, t.pmtu, s.mark, s.e, got, ev, a.At());
    RecordedCover(w, Wire(s.mark), ev);
    if RecordPacket(w, Wire(s.mark), ev).IsComplete() {
      CompleteIff(RecordPacket(w, Wire(s.mark), ev));
      assert Filled(w, Wire(s.mark), ev, n - 1);
    }
  }

  // The same when the first gap is seen: the expected packet is missing.
  lemma OwnEntered(s: System, t: Stream, m: Message, a: Arrival, got: iset<int>)
    requires t.Valid() && Awake(s, t) && Kept(s, t, m, got) && t.Sends(Arrive(a)) && a.msg == m
    requires Enters(s, a) && Timely(s, a)
    ensures var p := Handled(s, a).qp.perQp;
            p.Some? && m.msn in p.value.contexts && p.value.contexts[m.msn].recvMap.Some?
    ensures var p := Handled(s, a).qp.perQp.value;
            var w := RecordPacket(p.contexts[m.msn].recvMap.value, p.largestPsnRecved, EventOf(a, s.e, t.pmtu));
            && Sane(w.intervals) && !w.IsComplete()
            && Takes(w, m, t.pmtu, a.At(), if a.At() >= s.e then a.At() + 1 else s.e, got + iset{a.At()})
  {
    hide Covers, WellFormed, Bounded, WindowView.IsComplete, WindowView.Inserted, Wire, RecordPacket;
    assert ContextSound(s, m.msn);
    KeptEntry(s, t, m, a, got);
    EntryCover(s.qp.perQp.value.contexts[m.msn], m, t.pmtu, s.e, a.At());
    var p, ev := Handled(s, a).qp.perQp.value, EventOf(a, s.e, t.pmtu);
    var w := p.contexts[m.msn].recvMap.value;
    var w' := RecordPacket(w, p.largestPsnRecved, ev);
    assert m.Contains(t.pmtu, a.At());
    EntryRecords(w, m, t.pmtu, s.e, a.At(), p.largestPsnRecved, ev);
    TakesSame(w, w', m, t.pmtu, a.At(), if a.At() >= s.e then a.At() + 1 else s.e, got + iset{a.At()});
  }

  lemma KeptOwn(s: System, t: Stream, m: Message, a: Arrival, got: iset<int>)
    requires t.Valid() && Awake(s, t) && Kept(s, t, m, got) && Calm(s, t, m, Arrive(a)) && a.msg == m
    requires Enters(s, a) || (s.qp.status.OutOfOrder? && Reported(s, a))
    requires a.Type(t.pmtu).Middle? || a.Type(t.pmtu).Last?
    ensures Advances(s, t, m, Arrive(a), got)
  {
    hide Step, HandleOutOfOrder, Wire, MarkAfter, Takes, Sane, RecordPacket, WindowView.IsComplete, WindowView.Inserted,
         FinishedAt, SlotHeld;
    Handles(s, t, a);
    HandledContext(s, t, m, a, got);
    MarkMoves(s, t, a);
    var q, ev := Handled(s, a).qp, EventOf(a, s.e, t.pmtu);
    var w := RecordPacket(q.perQp.value.contexts[m.msn].recvMap.value, q.perQp.value.largestPsnRecved, ev);
    if Enters(s, a) {
      OwnEntered(s, t, m, a, got);
    } else {
      OwnRecorded(s, t, m, a, got);
    }
    OwnHandled(q, ev, w);
    HandledStatus(q, ev);
    AfterFields(s, a, HandleOutOfOrder(q, ev).qp);
    if !w.IsComplete() {
      LeftIsKept(s, t, m, a, got, w);
    }
  }

  // A packet that is not reported.
  lemma KeptQuiet(s: System, t: Stream, m: Message, a: Arrival, got: iset<int>)
    requires t.Valid() && Awake(s, t) && Kept(s, t, m, got) && Calm(s, t, m, Arrive(a))
    requires s.qp.status.OutOfOrder? && !Reported(s, a)
    ensures Advances(s, t, m, Arrive(a), got)
  {
    hide Wire, Inv, Takes, MarkAfter, CalculatePacketCnt, Stream.Apart, Stream.Owns, Quiet, SlotHeld, HandleEvent;
    MarkMoves(s, t, a);
    assert s.mark < s.e by { QuietMark(s, t); }
    var w := s.qp.perQp.value.contexts[m.msn].recvMap.value;
    TakesQuiet(w, m, t.pmtu, s.mark, s.e, got, Taken(s, m, Arrive(a), got));
  }

  lemma QuietMark(s: System, t: Stream)
    requires Quiet(s, t)
    ensures s.mark < s.e
  {
  }

  lemma TakesQuiet(w: WindowView, m: Message, pmtu: Pmtu, mark: int, e: int, got: iset<int>, got': iset<int>)
    requires Takes(w, m, pmtu, mark, e, got) && mark < e && got' <= got + iset{e}
    ensures Takes(w, m, pmtu, mark, e + 1, got')
  {
    hide Covers, WindowView.IsComplete, CalculatePacketCnt;
  }

  lemma KeptRead(s: System, t: Stream, m: Message, msn: Msn, got: iset<int>)
    requires Kept(s, t, m, got) && Calm(s, t, m, Read(msn))
    ensures Advances(s, t, m, Read(msn), got)
  {
    hide Takes;
    AcksOne(SendReadResp(msn), m.msn);
  }

  lemma KeptStep(s: System, t: Stream, m: Message, act: Action, got: iset<int>)
    requires t.Valid() && Awake(s, t) && Kept(s, t, m, got) && OwnSlot(t, m) && Calm(s, t, m, act)
    requires m.Count(t.pmtu) > 1
    ensures Advances(s, t, m, act, got)
  {
    match act
    case Read(msn) =>
      KeptRead(s, t, m, msn, got);
    case Arrive(a) =>
      hide Kept, Advances, Timely;
      if s.qp.status.Normal? && a.At() == s.e {
        KeptInOrder(s, t, m, a, got);
      } else if s.qp.status.OutOfOrder? && !Reported(s, a) {
        KeptQuiet(s, t, m, a, got);
      } else if a.msg != m {
        KeptOther(s, t, m, a, got);
      } else if a.offset == 0 {
        KeptFirst(s, t, m, a, got);
      } else {
        KeptOwn(s, t, m, a, got);
      }
  }
}
