// Messages that are acknowledged: exactly once, at the packet that completes them.

module CheckerLiveness {
  import opened Psn
  import opened RecvWindow
  import opened PacketLength
  import opened Checker
  import opened CheckerRuns
  import opened CheckerStreams
  import opened CheckerDuplicates
  import opened CheckerAcks
  import opened CheckerTaking

  // ---- a message that has been answered ------------------------------------------------------------------------

  // A packet is acknowledged under its own MSN only.
  lemma OwnAcksOnly(q: Qp, e: WriteEvent, msn: Msn)
    requires e.msn != msn && HandleEvent(q, Write(e)).Next?
    ensures Acks(HandleEvent(q, Write(e)).effects, msn) == 0
  {
    hide EnterError, HandleOutOfOrder;
    if q.status.Normal? && e.expectedPsn != e.psn {
      OwnAcksOutOfOrder(EnterError(q, e.expectedPsn, e.psn), e);
    } else if q.status.OutOfOrder? {
      OwnAcksOutOfOrder(q, e);
    }
    NoAcks(HandleEvent(q, Write(e)).effects, msn);
  }

  lemma OwnAcksOutOfOrder(q: Qp, e: WriteEvent)
    requires HandleOutOfOrder(q, e).Next?
    ensures forall x :: x in HandleOutOfOrder(q, e).effects && x.SendAck? ==> x.msn == e.msn
  {
    hide RecordPacket, WindowView.RecentGap, WindowView.IsComplete, WindowView.RecoverPanics, WindowView.GapPanics,
         WindowView.TryGetRecoverPsn, WindowView.LastPsn, ContextWithWindow, LargerInPsn, PerQpContext.SetStatus,
         PerQpContext.QueryStatus, PerQpContext.InsertCtx, PerQpContext.RemoveCtx;
  }

  lemma FinishedInOrder(q: Qp, e: WriteEvent, msn: Msn)
    requires FinishedAt(q, msn) && e.msn % MAX_MSN_WINDOW_PER_QP != msn % MAX_MSN_WINDOW_PER_QP
    ensures FinishedAt(HandleNormal(q, e).qp, msn)
  {
  }

  lemma FinishedEnters(q: Qp, e: WriteEvent, msn: Msn)
    requires FinishedAt(q, msn)
    ensures var q' := EnterError(q, e.expectedPsn, e.psn); q'.status.OutOfOrder? && FinishedAt(q', msn)
  {
  }

  // The event of a packet, as the checker handles it, leaves a finished message finished.
  lemma FinishedHandled(q: Qp, e: WriteEvent, msn: Msn)
    requires FinishedAt(q, msn) && HandleEvent(q, Write(e)).Next?
    requires e.msn % MAX_MSN_WINDOW_PER_QP == msn % MAX_MSN_WINDOW_PER_QP ==> e.msn == msn
    requires e.msn == msn ==> !e.writeType.Only? && (q.status.Normal? ==> e.expectedPsn != e.psn)
    ensures var r := HandleEvent(q, Write(e)); FinishedAt(r.qp, msn) && Acks(r.effects, msn) == 0
  {
    hide FinishedAt, HandleNormal, HandleOutOfOrder, EnterError;
    if e.msn != msn {
      OwnAcksOnly(q, e, msn);
    }
    if q.status.OutOfOrder? {
      FinishedStep(q, Write(e), msn);
    } else if e.expectedPsn == e.psn {
      FinishedInOrder(q, e, msn);
    } else {
      FinishedEnters(q, e, msn);
      FinishedStep(EnterError(q, e.expectedPsn, e.psn), Write(e), msn);
    }
  }

  lemma ClosedStep(s: System, t: Stream, m: Message, act: Action)
    requires t.Valid() && Closed(s, t, m) && OwnSlot(t, m) && Steady(t, m, act) && m.Count(t.pmtu) > 1
    requires s.qp.pmtu == t.pmtu && t.base <= s.e <= t.end
    ensures Answers(s, m, act) == 0
    ensures var r := Step(s, act);
            r.Ran? ==> Closed(r.sys, t, m) && r.sys.qp.pmtu == t.pmtu && t.base <= r.sys.e <= t.end
  {
    match act
    case Read(msn) =>
      AcksOne(SendReadResp(msn), m.msn);
    case Arrive(a) =>
      hide FinishedAt, HandleEvent, Wire, MarkAfter;
      assert a.msg.Contains(t.pmtu, a.At());
      assert a.At() == s.e ==> a.msg != m;
      EventDiffers(s, a);
      if Step(s, act).Ran? && Reported(s, a) {
        FinishedHandled(s.qp, EventOf(a, s.e, t.pmtu), m.msn);
        PmtuKept(s.qp, EventOf(a, s.e, t.pmtu));
      }
  }

  lemma PmtuKept(q: Qp, e: WriteEvent)
    requires HandleEvent(q, Write(e)).Next?
    ensures HandleEvent(q, Write(e)).qp.pmtu == q.pmtu
  {
    hide RecordPacket, WindowView.RecentGap, WindowView.IsComplete, WindowView.RecoverPanics, WindowView.GapPanics,
         WindowView.TryGetRecoverPsn, WindowView.LastPsn, ContextWithWindow, LargerInPsn, CreateMapOnPsn;
  }

  // ---- whole runs ---------------------------------------------------------------------------------------------------

  ghost function TotalAnswers(s: System, m: Message, acts: seq<Action>): nat
    decreases |acts|
  {
    if acts == [] then 0
    else
      var r := Step(s, acts[0]);
      Answers(s, m, acts[0]) + if r.Ran? then TotalAnswers(r.sys, m, acts[1..]) else 0
  }

  ghost function TakenAll(s: System, m: Message, acts: seq<Action>, got: iset<int>): iset<int>
    decreases |acts|
  {
    if acts == [] then got
    else
      var r := Step(s, acts[0]);
      if r.Ran? then TakenAll(r.sys, m, acts[1..], Taken(s, m, acts[0], got)) else got
  }

  ghost predicate All(t: Stream, m: Message, got: iset<int>) {
    forall x :: m.Contains(t.pmtu, x) ==> x in got
  }

  lemma {:induction false} ClosedRun(s: System, t: Stream, m: Message, acts: seq<Action>)
    requires t.Valid() && Closed(s, t, m) && OwnSlot(t, m) && CalmRun(s, t, m, acts) && m.Count(t.pmtu) > 1
    requires s.qp.pmtu == t.pmtu && t.base <= s.e <= t.end
    ensures TotalAnswers(s, m, acts) == 0
    decreases |acts|
  {
    hide Step, Answers, Closed, Stream.Valid, OwnSlot, Steady, Calm;
    if acts != [] {
      ClosedStep(s, t, m, acts[0]);
      if Step(s, acts[0]).Ran? {
        ClosedRun(Step(s, acts[0]).sys, t, m, acts[1..]);
      }
    }
  }

  lemma {:induction false} KeptRun(s: System, t: Stream, m: Message, acts: seq<Action>, got: iset<int>)
    requires t.Valid() && Awake(s, t) && Kept(s, t, m, got) && OwnSlot(t, m) && CalmRun(s, t, m, acts)
    requires m.Count(t.pmtu) > 1
    ensures TotalAnswers(s, m, acts) <= 1
    ensures All(t, m, TakenAll(s, m, acts, got)) ==> TotalAnswers(s, m, acts) == 1
    decreases |acts|
  {
    hide Step, Answers, Closed, Stream.Valid, OwnSlot, Steady, Calm, Awake, Kept, Taken, Stream.Sends;
    if acts == [] {
      KeptMissing(s, t, m, got);
    } else {
      KeptIsOpen(s, t, m, got);
      CalmSends(s, t, m, acts[0]);
      AwakeStep(s, t, acts[0]);
      KeptStep(s, t, m, acts[0], got);
      var s' := Step(s, acts[0]).sys;
      if Answers(s, m, acts[0]) == 1 {
        AwakeBounds(s', t);
        ClosedRun(s', t, m, acts[1..]);
      } else {
        KeptRun(s', t, m, acts[1..], Taken(s, m, acts[0], got));
      }
    }
  }

  lemma KeptIsOpen(s: System, t: Stream, m: Message, got: iset<int>)
    requires Kept(s, t, m, got)
    ensures !Closed(s, t, m)
  {
  }

  lemma CalmSends(s: System, t: Stream, m: Message, act: Action)
    requires Calm(s, t, m, act)
    ensures t.Sends(act) && (act.Arrive? ==> Timely(s, act.arrival))
  {
  }

  lemma AwakeBounds(s: System, t: Stream)
    requires Awake(s, t)
    ensures s.qp.pmtu == t.pmtu && t.base <= s.e <= t.end
  {
  }

  // ---- opening a message ------------------------------------------------------------------------------------------

  // The first packet of m arrives, m is not open, and its slot is free.
  ghost predicate Opens(s: System, t: Stream, m: Message, act: Action) {
    && act.Arrive? && act.arrival.msg == m && act.arrival.offset == 0 && m in t.msgs
    && !Open(s, m.msn) && StatusOf(s.qp, m.msn) == NoExist
  }

  lemma OpensInOrder(s: System, t: Stream, m: Message, a: Arrival)
    requires t.Valid() && Awake(s, t) && Opens(s, t, m, Arrive(a)) && t.Sends(Arrive(a)) && m.Count(t.pmtu) > 1
    requires s.qp.status.Normal? && a.At() == s.e
    ensures Step(s, Arrive(a)).Ran? && Kept(Step(s, Arrive(a)).sys, t, m, iset{m.start})
    ensures Answers(s, m, Arrive(a)) == 0
  {
    hide Inv, Acks;
    NoAcks([], m.msn);
  }

  lemma OpensOutOfOrder(s: System, t: Stream, m: Message, a: Arrival)
    requires t.Valid() && Awake(s, t) && Opens(s, t, m, Arrive(a)) && Calm(s, t, m, Arrive(a)) && m.Count(t.pmtu) > 1
    requires Enters(s, a) || s.qp.status.OutOfOrder?
    ensures Step(s, Arrive(a)).Ran? && Kept(Step(s, Arrive(a)).sys, t, m, iset{m.start})
    ensures Answers(s, m, Arrive(a)) == 0
  {
    hide Step, HandleOutOfOrder, MarkAfter, Takes, Timely, ContextWithWindow, Wire;
    Handles(s, t, a);
    MarkMoves(s, t, a);
    var q, ev := Handled(s, a).qp, EventOf(a, s.e, t.pmtu);
    FirstOpens(q, ev);
    HandledStatus(q, ev);
    AfterFields(s, a, HandleOutOfOrder(q, ev).qp);
    NewTakes(m, t.pmtu, ev, MarkAfter(s, a), if a.At() >= s.e then a.At() + 1 else s.e);
  }

  lemma FirstOpens(q: Qp, e: WriteEvent)
    requires q.perQp.Some? && e.msn !in q.perQp.value.contexts && q.perQp.value.QueryStatus(e.msn) == NoExist
    requires e.writeType.First?
    ensures var r := HandleOutOfOrder(q, e);
            && r.Next? && r.effects == [] && SlotHeld(r.qp, e.msn) && e.msn in r.qp.perQp.value.contexts
            && r.qp.perQp.value.contexts[e.msn] == ContextWithWindow(e, q.pmtu)
  {
    hide ContextWithWindow, LargerInPsn;
  }

  lemma NewTakes(m: Message, pmtu: Pmtu, e: WriteEvent, mark: int, next: int)
    requires m.Count(pmtu) > 1 && e.psn == Wire(m.start) && e.addr == m.addr && e.len == m.len && m.start <= mark
    ensures var c := ContextWithWindow(e, pmtu);
            c.recvMap.Some? && Takes(c.recvMap.value, m, pmtu, mark, next, iset{m.start})
  {
    OffsetOf(m, m.start);
    Prefix(0, if m.Count(pmtu) > 2 then m.Count(pmtu) else 3, Wire(m.start));
    var w := ContextWithWindow(e, pmtu).recvMap.value;
    assert w.intervals == map[0 := 0];
  }

  // ---- the main result -------------------------------------------------------------------------------------------

  lemma OpeningStep(s: System, t: Stream, m: Message, act: Action)
    requires t.Valid() && Awake(s, t) && Opens(s, t, m, act) && Calm(s, t, m, act) && m.Count(t.pmtu) > 1
    ensures Step(s, act).Ran? && Kept(Step(s, act).sys, t, m, iset{m.start}) && Answers(s, m, act) == 0
  {
    hide Kept, Answers, Step, Awake;
    if s.qp.status.Normal? && act.arrival.At() == s.e {
      OpensInOrder(s, t, m, act.arrival);
    } else {
      OpensOutOfOrder(s, t, m, act.arrival);
    }
  }

  // From the packet that opens a message on: it is answered at most once, and once if all of it is taken in.
  lemma AnsweredOnce(s: System, t: Stream, m: Message, acts: seq<Action>)
    requires t.Valid() && Awake(s, t) && OwnSlot(t, m) && m.Count(t.pmtu) > 1
    requires acts != [] && Opens(s, t, m, acts[0]) && CalmRun(s, t, m, acts)
    ensures TotalAnswers(s, m, acts) <= 1
    ensures All(t, m, TakenAll(s, m, acts, iset{})) ==> TotalAnswers(s, m, acts) == 1
  {
    hide Step, Answers, Stream.Valid, OwnSlot, Steady, Calm, Awake, Kept, Stream.Sends, Open;
    assert !Closed(s, t, m) by { FreeIsNotClosed(s, t, m, acts[0]); }
    hide Closed;
    CalmSends(s, t, m, acts[0]);
    AwakeStep(s, t, acts[0]);
    OpeningStep(s, t, m, acts[0]);
    assert Taken(s, m, acts[0], iset{}) == iset{m.start};
    KeptRun(Step(s, acts[0]).sys, t, m, acts[1..], iset{m.start});
  }

  lemma FreeIsNotClosed(s: System, t: Stream, m: Message, act: Action)
    requires Opens(s, t, m, act)
    ensures !Closed(s, t, m)
  {
  }

  ghost predicate TimelyRun(s: System, t: Stream, acts: seq<Action>)
    decreases |acts|
  {
    acts != [] ==>
      && t.Sends(acts[0]) && (acts[0].Arrive? ==> Timely(s, acts[0].arrival))
      && (var r := Step(s, acts[0]); r.Ran? ==> TimelyRun(r.sys, t, acts[1..]))
  }

  lemma {:induction false} StaysAwake(s: System, t: Stream, acts: seq<Action>)
    requires t.Valid() && Awake(s, t) && TimelyRun(s, t, acts)
    ensures Awake(RunTo(s, acts), t)
    decreases |acts|
  {
    hide Awake, Step, Stream.Valid, Stream.Sends, Timely;
    if acts != [] {
      AwakeStep(s, t, acts[0]);
      StaysAwake(Step(s, acts[0]).sys, t, acts[1..]);
    }
  }

  // Over every loss, duplication and reordering of a valid stream in which the first gap is timely: a message
  // of several packets that the checker opens is answered at most once, and once if all of it is taken in.
  lemma AckCompleteness(t: Stream, m: Message, before: seq<Action>, acts: seq<Action>)
    requires t.Valid() && OwnSlot(t, m) && m.Count(t.pmtu) > 1 && TimelyRun(Init(t.pmtu, t.base), t, before)
    requires var s := RunTo(Init(t.pmtu, t.base), before);
             acts != [] && Opens(s, t, m, acts[0]) && CalmRun(s, t, m, acts)
    ensures var s := RunTo(Init(t.pmtu, t.base), before);
            && TotalAnswers(s, m, acts) <= 1
            && (All(t, m, TakenAll(s, m, acts, iset{})) ==> TotalAnswers(s, m, acts) == 1)
  {
    hide TotalAnswers, TakenAll, Opens, CalmRun, RunTo, TimelyRun, OwnSlot;
    assert Awake(Init(t.pmtu, t.base), t);
    StaysAwake(Init(t.pmtu, t.base), t, before);
    AnsweredOnce(RunTo(Init(t.pmtu, t.base), before), t, m, acts);
  }

  // ---- one message alone ----------------------------------------------------------------------------------

  ghost function Alone(m: Message, pmtu: Pmtu): Stream {
    Stream(pmtu, iset{m}, m.start, m.start + m.Count(pmtu))
  }

  ghost function Arrived(acts: seq<Action>): iset<int> {
    iset a | a in acts && a.Arrive? :: a.arrival.At()
  }

  ghost predicate LonePackets(m: Message, pmtu: Pmtu, acts: seq<Action>) {
    forall a :: a in acts ==> a.Arrive? && a.arrival.msg == m && a.arrival.offset < m.Count(pmtu)
  }

  // m lies below 2^23 and has several packets, but fewer than 2^23.
  ghost predicate LowMessage(m: Message, pmtu: Pmtu) {
    1 < m.Count(pmtu) && Wire(m.start) + m.Count(pmtu) <= PSN_MAX_WINDOW_SIZE && m.Count(pmtu) < PSN_MAX_WINDOW_SIZE
  }

  lemma LoneTimely(s: System, m: Message, pmtu: Pmtu, a: Arrival, got: iset<int>)
    requires LowMessage(m, pmtu) && Kept(s, Alone(m, pmtu), m, got) && s.qp.pmtu == pmtu
    requires Awake(s, Alone(m, pmtu)) && a.msg == m && a.offset < m.Count(pmtu)
    ensures Timely(s, a)
  {
    hide Inv;
    LowPsn(m, pmtu, a.offset);
    forall k | Open(s, k) && k in s.owner ensures a.At() != s.owner[k].start + s.owner[k].Count(pmtu) {
      assert s.owner[k] == m;
    }
  }

  lemma LowPsn(m: Message, pmtu: Pmtu, offset: nat)
    requires LowMessage(m, pmtu) && offset < m.Count(pmtu)
    ensures Wire(m.start + offset) < PSN_MAX_WINDOW_SIZE
  {
    WireAdd(m.start, offset);
  }

  // A step that answers m means that all of m has arrived.
  lemma AnswerIsSound(s: System, m: Message, pmtu: Pmtu, a: Arrival)
    requires Awake(s, Alone(m, pmtu)) && a.msg == m && a.offset < m.Count(pmtu) && StepIsSound(s, Arrive(a))
    requires Answers(s, m, Arrive(a)) > 0
    ensures All(Alone(m, pmtu), m, s.recved + iset{a.At()})
  {
    hide WindowSound;
    if !AutoAcked(s, m, Arrive(a)) {
      var effects := Step(s, Arrive(a)).effects;
      assert exists i :: 0 <= i < |effects| && effects[i].SendAck? by {
        if forall i :: 0 <= i < |effects| ==> !effects[i].SendAck? {
          NoAcks(effects, m.msn);
        }
      }
    }
  }

  lemma {:induction false} LoneRun(s: System, m: Message, pmtu: Pmtu, acts: seq<Action>)
    requires LowMessage(m, pmtu) && Kept(s, Alone(m, pmtu), m, s.recved) && Awake(s, Alone(m, pmtu))
    requires LonePackets(m, pmtu, acts)
    ensures TotalAnswers(s, m, acts) == if All(Alone(m, pmtu), m, s.recved + Arrived(acts)) then 1 else 0
    decreases |acts|
  {
    hide Step, Answers, Kept, Awake, Closed, Wire, Timely, AcksSound;
    var t := Alone(m, pmtu);
    if acts == [] {
      KeptMissing(s, t, m, s.recved);
      assert Arrived(acts) == iset{};
    } else {
      var a := acts[0].arrival;
      assert acts[0] in acts && acts[0] == Arrive(a);
      AwakeBounds(s, t);
      LoneTimely(s, m, pmtu, a, s.recved);
      AwakeStep(s, t, acts[0]);
      KeptStep(s, t, m, acts[0], s.recved);
      StepFields(s, a);
      var s' := Step(s, acts[0]).sys;
      AwakeBounds(s', t);
      ArrivedStep(acts);
      if Answers(s, m, acts[0]) == 1 {
        AnswerIsSound(s, m, pmtu, a);
        LoneClosed(s', m, pmtu, acts[1..]);
      } else {
        LoneRun(s', m, pmtu, acts[1..]);
        assert s.recved + Arrived(acts) == s'.recved + Arrived(acts[1..]);
      }
    }
  }

  lemma ArrivedStep(acts: seq<Action>)
    requires acts != [] && acts[0].Arrive?
    ensures Arrived(acts) == iset{acts[0].arrival.At()} + Arrived(acts[1..])
  {
    assert forall a :: a in acts <==> a == acts[0] || a in acts[1..];
  }

  lemma {:induction false} LoneClosed(s: System, m: Message, pmtu: Pmtu, acts: seq<Action>)
    requires LowMessage(m, pmtu) && Closed(s, Alone(m, pmtu), m) && LonePackets(m, pmtu, acts)
    requires s.qp.pmtu == pmtu && m.start <= s.e <= m.start + m.Count(pmtu)
    ensures TotalAnswers(s, m, acts) == 0
    decreases |acts|
  {
    hide Step, Answers, Closed, Wire;
    if acts != [] {
      assert acts[0] in acts;
      ClosedStep(s, Alone(m, pmtu), m, acts[0]);
      if Step(s, acts[0]).Ran? {
        LoneClosed(Step(s, acts[0]).sys, m, pmtu, acts[1..]);
      }
    }
  }

  // A message below 2^23 whose first packet comes first, its other packets in any order and any number of
  // times: it is answered exactly once if every packet has arrived, and not at all otherwise.
  lemma LoneMessageAnsweredIff(m: Message, pmtu: Pmtu, acts: seq<Action>)
    requires LowMessage(m, pmtu) && LonePackets(m, pmtu, acts) && acts != [] && acts[0].arrival.offset == 0
    ensures TotalAnswers(Init(pmtu, m.start), m, acts) == if All(Alone(m, pmtu), m, Arrived(acts)) then 1 else 0
  {
    hide Step, Answers, Kept, Awake, Timely, AcksSound;
    var t, s := Alone(m, pmtu), Init(pmtu, m.start);
    assert acts[0] in acts;
    assert Awake(s, t) by { InitAwake(t); }
    assert Opens(s, t, m, acts[0]);
    assert Timely(s, acts[0].arrival) by { InitTimely(m, pmtu, acts[0].arrival); }
    AwakeStep(s, t, acts[0]);
    OpeningStep(s, t, m, acts[0]);
    StepFields(s, acts[0].arrival);
    var s' := Step(s, acts[0]).sys;
    assert s'.recved == iset{m.start};
    LoneRun(s', m, pmtu, acts[1..]);
    ArrivedStep(acts);
  }

  lemma InitAwake(t: Stream)
    requires t.Valid()
    ensures Awake(Init(t.pmtu, t.base), t)
  {
  }

  lemma InitTimely(m: Message, pmtu: Pmtu, a: Arrival)
    requires a.msg == m && a.offset == 0
    ensures Timely(Init(pmtu, m.start), a)
  {
  }

  // ---- received in order ------------------------------------------------------------------------------------------

  ghost predicate InSequence(s: System, t: Stream, acts: seq<Action>) {
    forall i :: 0 <= i < |acts| ==> acts[i].Arrive? && t.Sends(acts[i]) && acts[i].arrival.At() == s.e + i
  }

  lemma InOrderStepAnswers(s: System, t: Stream, m: Message, a: Arrival)
    requires t.Valid() && m in t.msgs && s.qp.status.Normal? && s.qp.pmtu == t.pmtu
    requires t.Sends(Arrive(a)) && a.At() == s.e
    ensures var r := Step(s, Arrive(a));
            r.Ran? && r.sys.qp.status.Normal? && r.sys.qp.pmtu == t.pmtu && r.sys.e == s.e + 1
    ensures Answers(s, m, Arrive(a)) == if s.e == m.start + m.Count(t.pmtu) - 1 then 1 else 0
  {
    var e := EventOf(a, s.e, t.pmtu);
    assert a.msg.Contains(t.pmtu, s.e);
    assert m.Contains(t.pmtu, m.start + m.Count(t.pmtu) - 1);
    InOrderAnswers(s.qp, e);
    if a.msg != m {
      OwnAcksOnly(s.qp, e, m.msn);
    }
  }

  // Received in order, every message is answered exactly once, at its last packet: by the driver or, if it may,
  // by the card.
  lemma {:induction false} InOrderAnswered(s: System, t: Stream, m: Message, acts: seq<Action>)
    requires t.Valid() && m in t.msgs && s.qp.status.Normal? && s.qp.pmtu == t.pmtu && InSequence(s, t, acts)
    ensures var last := m.start + m.Count(t.pmtu) - 1;
            TotalAnswers(s, m, acts) == if s.e <= last < s.e + |acts| then 1 else 0
    decreases |acts|
  {
    hide Step, Answers, Stream.Valid, Stream.Sends;
    if acts != [] {
      InOrderStepAnswers(s, t, m, acts[0].arrival);
      assert acts[0] == Arrive(acts[0].arrival);
      InOrderAnswered(Step(s, acts[0]).sys, t, m, acts[1..]);
    }
  }
}
