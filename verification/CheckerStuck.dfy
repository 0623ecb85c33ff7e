// Messages that are never acknowledged: their window has taken in the packet that follows them.

module CheckerStuck {
  import opened Psn
  import opened Wrappers
  import opened RecvWindow
  import opened PacketLength
  import opened Checker
  import opened CheckerRuns
  import opened CheckerStreams
  import opened CheckerDuplicates
  import opened CheckerAcks
  import opened CheckerTaking
  import opened CheckerLiveness

  // The window of the message has taken in the packet after its last.
  ghost predicate Stuck(q: Qp, msn: Msn) {
    && q.status.OutOfOrder? && SlotHeld(q, msn) && msn in q.perQp.value.contexts
    && var c := q.perQp.value.contexts[msn];
       && c.recvMap.Some? && !c.isReadResp
       && Sane(c.recvMap.value.intervals) && Covers(c.recvMap.value.intervals, c.recvMap.value.numOfPackets)
  }

  // Any event but one that takes the slot of the message.
  predicate Spares(e: Event, msn: Msn) {
    !TakesSlotOf(e, msn) && (e.Write? && e.write.msn == msn ==> !e.write.writeType.Only?)
    && (e.ReadReq? ==> e.msn != msn)
  }

  lemma RecordKeepsCover(w: WindowView, largest: Psn, e: WriteEvent, x: int)
    requires Sane(w.intervals) && Covers(w.intervals, x)
    ensures Covers(RecordPacket(w, largest, e).intervals, x)
  {
    hide Covers, WellFormed, Bounded, WindowView.Inserted;
    var range := GetContinuousRange(largest, e.expectedPsn);
    RangeSane(w, largest, e.expectedPsn);
    if range.Some? {
      if w.Accepts(range.value.0, range.value.1) {
        AcceptedIsOrdered(w, range.value.0, range.value.1);
      }
      InsertedKeeps(w, range.value.0, range.value.1);
    }
    InsertedKeeps(if range.Some? then w.Inserted(range.value.0, range.value.1) else w, e.psn, e.psn);
  }

  lemma PastIsIncomplete(w: WindowView)
    requires Sane(w.intervals) && Covers(w.intervals, w.numOfPackets)
    ensures !w.IsComplete()
  {
    CompleteIff(w);
  }

  lemma StuckWrite(q: Qp, e: WriteEvent, msn: Msn)
    requires Stuck(q, msn) && Spares(Write(e), msn) && HandleEvent(q, Write(e)).Next?
    ensures Stuck(HandleEvent(q, Write(e)).qp, msn) && Acks(HandleEvent(q, Write(e)).effects, msn) == 0
  {
    hide HandleOutOfOrder, Covers, Sane, RecordPacket, WindowView.IsComplete;
    HandledStatus(q, e);
    if e.msn != msn {
      OwnAcksOnly(q, e, msn);
      OtherHandled(q, e, msn);
    } else if e.writeType.First? {
      FirstHandled(q, e);
    } else {
      var c, largest := q.perQp.value.contexts[msn], q.perQp.value.largestPsnRecved;
      var w := RecordPacket(c.recvMap.value, largest, e);
      RecordSane(c.recvMap.value, largest, e);
      RecordKeepsCover(c.recvMap.value, largest, e, c.recvMap.value.numOfPackets);
      PastIsIncomplete(w);
      OwnHandled(q, e, w);
      OwnContext(q, e, w);
    }
  }

  lemma OwnContext(q: Qp, e: WriteEvent, w: WindowView)
    requires q.perQp.Some? && e.msn in q.perQp.value.contexts && HandleOutOfOrder(q, e).Next?
    requires (e.writeType.Middle? || e.writeType.Last?) && q.perQp.value.contexts[e.msn].recvMap.Some?
    requires w == RecordPacket(q.perQp.value.contexts[e.msn].recvMap.value, q.perQp.value.largestPsnRecved, e)
    requires !w.IsComplete()
    ensures HandleOutOfOrder(q, e).qp.perQp.Some? && e.msn in HandleOutOfOrder(q, e).qp.perQp.value.contexts
    ensures HandleOutOfOrder(q, e).qp.perQp.value.contexts[e.msn] == q.perQp.value.contexts[e.msn].(recvMap := Some(w))
  {
    hide RecordPacket, GapEffects, RecoverEffects, WindowView.IsComplete, WindowView.RecoverPanics,
         WindowView.GapPanics, LargerInPsn;
  }

  ghost function EventAcks(q: Qp, events: seq<Event>, msn: Msn): nat
    decreases |events|
  {
    if events == [] then 0
    else
      var r := HandleEvent(q, events[0]);
      if r.Panic? then 0 else Acks(r.effects, msn) + EventAcks(r.qp, events[1..], msn)
  }

  // Whatever follows, such a message is not acknowledged.
  lemma {:induction false} StuckForever(q: Qp, events: seq<Event>, msn: Msn)
    requires Stuck(q, msn) && forall i :: 0 <= i < |events| ==> Spares(events[i], msn)
    ensures EventAcks(q, events, msn) == 0
    decreases |events|
  {
    hide Stuck, HandleEvent, Spares;
    if events != [] && HandleEvent(q, events[0]).Next? {
      StuckStep(q, events[0], msn);
      StuckForever(HandleEvent(q, events[0]).qp, events[1..], msn);
    }
  }

  lemma StuckStep(q: Qp, e: Event, msn: Msn)
    requires Stuck(q, msn) && Spares(e, msn) && HandleEvent(q, e).Next?
    ensures Stuck(HandleEvent(q, e).qp, msn) && Acks(HandleEvent(q, e).effects, msn) == 0
  {
    if e.Write? {
      StuckWrite(q, e.write, msn);
    } else {
      NoAcks(HandleEvent(q, e).effects, msn);
    }
  }

  // If the first gap is seen with the packet that follows the open message, the message is stuck: the end of it
  // can be sent again as often as one likes.
  lemma NextMessageSticks(s: System, t: Stream, m: Message, a: Arrival, got: iset<int>)
    requires t.Valid() && Awake(s, t) && Kept(s, t, m, got) && OwnSlot(t, m) && t.Sends(Arrive(a))
    requires s.qp.status.Normal? && a.At() == m.start + m.Count(t.pmtu)
    ensures Step(s, Arrive(a)).Ran? && Stuck(Step(s, Arrive(a)).sys.qp, m.msn)
  {
    hide Step, HandleOutOfOrder, Wire, Covers, Bounded, WellFormed, WindowView.Inserted;
    assert ContextSound(s, m.msn);
    assert m.Contains(t.pmtu, a.At() - 1) && a.msg.Contains(t.pmtu, a.At());
    EntryCover(s.qp.perQp.value.contexts[m.msn], m, t.pmtu, s.e, a.At());
    Handles(s, t, a);
    var u, ev := Handled(s, a), EventOf(a, s.e, t.pmtu);
    OtherHandled(u.qp, ev, m.msn);
    HandledStatus(u.qp, ev);
    AfterFields(s, a, HandleOutOfOrder(u.qp, ev).qp);
  }

  // ---- unreported packets beyond 2^23 ------------------------------------------------------------------------

  // m lies at or beyond 2^23.
  ghost predicate HighMessage(m: Message, pmtu: Pmtu) {
    PSN_MAX_WINDOW_SIZE <= Wire(m.start) && Wire(m.start) + m.Count(pmtu) <= BORDER
  }

  // Out of order with the watermark 0 of a table that was created in order, and offset x of m not covered.
  ghost predicate Misses(s: System, m: Message, pmtu: Pmtu, x: int) {
    && s.qp.status.OutOfOrder? && s.qp.pmtu == pmtu && SlotHeld(s.qp, m.msn) && m.msn in s.qp.perQp.value.contexts
    && s.qp.perQp.value.largestPsnRecved == 0 && m.start + 3 <= s.e <= m.start + m.Count(pmtu)
    && var c := s.qp.perQp.value.contexts[m.msn];
       && c.recvMap.Some? && !c.isReadResp && c.recvMap.value.startPsn == Wire(m.start)
       && c.recvMap.value.numOfPackets == m.Count(pmtu) && Sane(c.recvMap.value.intervals)
       && 0 <= x < m.Count(pmtu) && !Covers(c.recvMap.value.intervals, x)
  }

  lemma HighPsn(m: Message, pmtu: Pmtu, x: int)
    requires HighMessage(m, pmtu) && m.start <= x < m.start + m.Count(pmtu)
    ensures Wire(x) == Wire(m.start) + (x - m.start) && LargerInPsn(0, Wire(x))
    ensures m.Count(pmtu) <= PSN_MAX_WINDOW_SIZE
  {
    WireAdd(m.start, x - m.start);
  }

  // There is no range between 0 and the expected PSN.
  lemma HighRange(m: Message, pmtu: Pmtu, e: int)
    requires HighMessage(m, pmtu) && m.start + 3 <= e <= m.start + m.Count(pmtu)
    ensures GetContinuousRange(0, Wire(e)).None?
  {
    HighPsn(m, pmtu, e - 1);
    WireAdd(e - 1, 1);
  }

  // Only the packet itself closes its gap.
  lemma HighRecord(w: WindowView, m: Message, pmtu: Pmtu, e: int, ev: WriteEvent, p: int, x: int)
    requires HighMessage(m, pmtu) && m.start + 3 <= e <= m.start + m.Count(pmtu) && m.Contains(pmtu, p)
    requires w.startPsn == Wire(m.start) && w.numOfPackets == m.Count(pmtu) && Sane(w.intervals)
    requires ev.psn == Wire(p) && ev.expectedPsn == Wire(e)
    requires 0 <= x < m.Count(pmtu) && !Covers(w.intervals, x) && p != m.start + x
    ensures var w' := RecordPacket(w, 0, ev);
            && w'.startPsn == w.startPsn && w'.numOfPackets == w.numOfPackets && Sane(w'.intervals)
            && !Covers(w'.intervals, x) && !w'.IsComplete()
  {
    hide WindowView.Inserted, Covers, WellFormed, Bounded, WindowView.IsComplete;
    HighRange(m, pmtu, e);
    HighPsn(m, pmtu, p);
    OffsetOf(m, p);
    RecordSane(w, 0, ev);
    InsertedKeeps(w, ev.psn, ev.psn);
    CompleteIff(RecordPacket(w, 0, ev));
  }

  lemma MissesReported(s: System, m: Message, pmtu: Pmtu, a: Arrival, x: int)
    requires HighMessage(m, pmtu) && Misses(s, m, pmtu, x) && a.msg == m && a.offset < m.Count(pmtu)
    requires Reported(s, a) && a.offset != x
    ensures Step(s, Arrive(a)).Ran? && Misses(Step(s, Arrive(a)).sys, m, pmtu, x) && Answers(s, m, Arrive(a)) == 0
  {
    hide HandleOutOfOrder, Wire, Covers, Sane, RecordPacket, WindowView.IsComplete, MarkAfter, LargerInPsn, Acks;
    var q, ev := s.qp, EventOf(a, s.e, pmtu);
    HighPsn(m, pmtu, a.At());
    NoAcks([], m.msn);
    if ev.writeType.First? {
      FirstHandled(q, ev);
    } else {
      var w := q.perQp.value.contexts[m.msn].recvMap.value;
      HighRecord(w, m, pmtu, s.e, ev, a.At(), x);
      OwnHandled(q, ev, RecordPacket(w, 0, ev));
      OwnContext(q, ev, RecordPacket(w, 0, ev));
    }
    LargestKept(q, ev);
  }

  // A packet that is not larger leaves the watermark.
  lemma LargestKept(q: Qp, e: WriteEvent)
    requires q.perQp.Some? && HandleOutOfOrder(q, e).Next? && LargerInPsn(q.perQp.value.largestPsnRecved, e.psn)
    ensures var r := HandleOutOfOrder(q, e).qp;
            && r.perQp.Some? && r.status == q.status && r.pmtu == q.pmtu
            && r.perQp.value.largestPsnRecved == q.perQp.value.largestPsnRecved
  {
    hide RecordPacket, GapEffects, RecoverEffects, WindowView.IsComplete, WindowView.RecoverPanics,
         WindowView.GapPanics, LargerInPsn, ContextWithWindow;
  }

  lemma MissesStep(s: System, m: Message, pmtu: Pmtu, a: Arrival, x: int)
    requires HighMessage(m, pmtu) && Misses(s, m, pmtu, x) && a.msg == m && a.offset < m.Count(pmtu)
    requires Reported(s, a) ==> a.offset != x
    ensures Step(s, Arrive(a)).Ran? && Misses(Step(s, Arrive(a)).sys, m, pmtu, x) && Answers(s, m, Arrive(a)) == 0
  {
    if Reported(s, a) {
      MissesReported(s, m, pmtu, a, x);
    } else {
      hide Sane, Covers, MarkAfter, Acks;
      NoAcks([], m.msn);
    }
  }

  // Packets of m, of which x is never reported.
  ghost predicate NeverReports(s: System, m: Message, pmtu: Pmtu, acts: seq<Action>, x: int)
    decreases |acts|
  {
    acts != [] ==>
      && acts[0].Arrive? && acts[0].arrival.msg == m && acts[0].arrival.offset < m.Count(pmtu)
      && (Reported(s, acts[0].arrival) ==> acts[0].arrival.offset != x)
      && (var r := Step(s, acts[0]); r.Ran? ==> NeverReports(r.sys, m, pmtu, acts[1..], x))
  }

  // Beyond 2^23 the checker never takes in a packet that arrives as expected after the first gap: the message is
  // not answered, even when all of it has arrived, until that packet is sent again.
  lemma {:induction false} HighIsNotAnswered(s: System, m: Message, pmtu: Pmtu, acts: seq<Action>, x: int)
    requires HighMessage(m, pmtu) && Misses(s, m, pmtu, x) && NeverReports(s, m, pmtu, acts, x)
    ensures TotalAnswers(s, m, acts) == 0
    decreases |acts|
  {
    hide Misses, Step, Answers, Reported, Wire;
    if acts != [] {
      MissesStep(s, m, pmtu, acts[0].arrival, x);
      assert acts[0] == Arrive(acts[0].arrival);
      HighIsNotAnswered(Step(s, acts[0]).sys, m, pmtu, acts[1..], x);
    }
  }

  // This begins with any gap in such a message: the packet after the one with which the gap is seen.
  lemma HighGap(s: System, m: Message, pmtu: Pmtu, a: Arrival, got: iset<int>)
    requires HighMessage(m, pmtu) && m.Count(pmtu) < PSN_MAX_WINDOW_SIZE
    requires Awake(s, Alone(m, pmtu)) && Kept(s, Alone(m, pmtu), m, got) && s.qp.status.Normal?
    requires a.msg == m && s.e < a.At() && a.offset + 1 < m.Count(pmtu)
    ensures Step(s, Arrive(a)).Ran? && Misses(Step(s, Arrive(a)).sys, m, pmtu, a.offset + 1)
  {
    hide Step, HandleOutOfOrder, Covers, Bounded, WellFormed, WindowView.Inserted, WindowView.IsComplete, RecordPacket,
         LargerInPsn, Wire;
    var t, p := Alone(m, pmtu), a.At();
    assert ContextSound(s, m.msn);
    var u, ev := Handled(s, a), EventOf(a, s.e, pmtu);
    EntryCover(s.qp.perQp.value.contexts[m.msn], m, pmtu, s.e, p);
    var w := u.qp.perQp.value.contexts[m.msn].recvMap.value;
    assert !Covers(w.intervals, s.e - m.start);
    CompleteIff(w);
    EntryRecords(w, m, pmtu, s.e, p, 0, ev);
    HighPsn(m, pmtu, p);
    Handles(s, t, a);
    var w' := RecordPacket(w, 0, ev);
    CompleteIff(w');
    OwnHandled(u.qp, ev, w');
    OwnContext(u.qp, ev, w');
    LargestKept(u.qp, ev);
    AfterFields(s, a, HandleOutOfOrder(u.qp, ev).qp);
  }
}
