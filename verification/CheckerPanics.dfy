// The checker does not panic: out of order never, whatever the events say, and in order not behind a card
// that keeps to its contract. Nothing here depends on the watermark.

module CheckerPanics {
  import opened Psn
  import opened RecvWindow
  import opened PacketLength
  import opened Checker
  import opened CheckerRuns
  import opened CheckerStreams
  import opened CheckerCrossing

  // The table is there, and every open message has a window that covers its first packet.
  ghost predicate GoodTable(q: Qp) {
    && q.perQp.Some?
    && forall k :: k in q.perQp.value.contexts ==>
         var c := q.perQp.value.contexts[k]; c.recvMap.Some? && Sane(c.recvMap.value.intervals)
  }

  // ---- out of order ------------------------------------------------------------------------------------------

  lemma FreshSane(w: WindowView)
    requires w.intervals == map[]
    ensures Sane(w.Inserted(w.startPsn, w.startPsn).intervals)
  {
    assert w.Inserted(w.startPsn, w.startPsn).intervals == map[0 := 0];
    assert 0 in w.Inserted(w.startPsn, w.startPsn).intervals;
  }

  lemma MiddleOrLastNeverPanics(q: Qp, e: WriteEvent)
    requires GoodTable(q) && (e.writeType.Middle? || e.writeType.Last?)
    ensures var r := HandleOutOfOrder(q, e); r.Next? && r.qp.status == q.status && GoodTable(r.qp)
  {
    hide RecordPacket, Sane, WindowView.IsComplete, WindowView.RecoverPanics, WindowView.GapPanics,
         WindowView.TryGetRecoverPsn, LargerInPsn, RecoverEffects, GapEffects;
    var p := q.perQp.value;
    if e.msn in p.contexts {
      var w := RecordPacket(p.contexts[e.msn].recvMap.value, p.largestPsnRecved, e);
      RecordSane(p.contexts[e.msn].recvMap.value, p.largestPsnRecved, e);
      SaneNeverPanics(w);
    }
  }

  // From a good table every event, a packet from anywhere or something else, leads to a good table.
  lemma OutOfOrderNeverPanics(q: Qp, e: Event)
    requires q.status.OutOfOrder? && GoodTable(q)
    ensures var r := HandleEvent(q, e); r.Next? && r.qp.status.OutOfOrder? && GoodTable(r.qp)
  {
    hide Sane, WindowView.Inserted, LargerInPsn, PerQpContext.QueryStatus;
    match e
    case Write(w) =>
      match w.writeType {
        case First => FreshSane(WindowView(map[], w.psn, CalculatePacketCnt(q.pmtu, w.addr, w.len)));
        case Only =>
        case _ => MiddleOrLastNeverPanics(q, w);
      }
    case _ =>
  }

  // ---- whole runs -----------------------------------------------------------------------------------------------

  // In order everything below the expected PSN has arrived; out of order the table is good.
  ghost predicate Healthy(s: System) {
    (s.qp.status.Normal? ==> Inv(s)) && (s.qp.status.OutOfOrder? ==> GoodTable(s.qp))
  }

  // The card contract: it is asked for only as long as the queue pair is in order.
  ghost predicate InOrderContract(s: System, acts: seq<Action>)
    decreases |acts|
  {
    acts != [] ==>
      && (s.qp.status.Normal? ==> Admissible(s, acts[0]))
      && (var r := Step(s, acts[0]); r.Ran? ==> InOrderContract(r.sys, acts[1..]))
  }

  ghost predicate RunsOn(s: System, acts: seq<Action>)
    decreases |acts|
  {
    && Healthy(s)
    && (acts != [] ==> Step(s, acts[0]).Ran? && RunsOn(Step(s, acts[0]).sys, acts[1..]))
  }

  lemma SoundTable(s: System)
    requires Inv(s) && s.qp.status.OutOfOrder?
    ensures GoodTable(s.qp)
  {
    hide Sane;
    forall k | k in s.qp.perQp.value.contexts
      ensures var c := s.qp.perQp.value.contexts[k]; c.recvMap.Some? && Sane(c.recvMap.value.intervals)
    {
      assert Open(s, k) && ContextSound(s, k);
    }
  }

  lemma HealthyStep(s: System, act: Action)
    requires Healthy(s) && (s.qp.status.Normal? ==> Admissible(s, act))
    ensures Step(s, act).Ran? && Healthy(Step(s, act).sys)
  {
    hide Inv, Admissible, GoodTable, AcksSound;
    if s.qp.status.Normal? {
      hide Step;
      StepSound(s, act);
      if Step(s, act).sys.qp.status.OutOfOrder? {
        SoundTable(Step(s, act).sys);
      }
    } else {
      hide HandleEvent, MarkAfter;
      match act
      case Read(msn) => OutOfOrderNeverPanics(s.qp, ReadReq(msn));
      case Arrive(a) => OutOfOrderNeverPanics(s.qp, Write(EventOf(a, s.e, s.qp.pmtu)));
    }
  }

  lemma {:induction false} HealthyRun(s: System, acts: seq<Action>)
    requires Healthy(s) && InOrderContract(s, acts)
    ensures RunsOn(s, acts)
    decreases |acts|
  {
    hide Healthy, Step, Admissible;
    if acts != [] {
      HealthyStep(s, acts[0]);
      HealthyRun(Step(s, acts[0]).sys, acts[1..]);
    }
  }

  // Panic freedom over runs of any length: no step panics, and in every state reached the tables are as
  // the code takes them to be.
  lemma PanicFreedom(pmtu: Pmtu, base: int, acts: seq<Action>)
    requires InOrderContract(Init(pmtu, base), acts)
    ensures RunsOn(Init(pmtu, base), acts)
  {
    HealthyRun(Init(pmtu, base), acts);
  }

  // ---- streams ----------------------------------------------------------------------------------------------------

  // In order the state is that of the stream.
  ghost predicate OnTrack(s: System, t: Stream) {
    s.qp.status.Normal? ==> Fresh(s, t)
  }

  lemma TrackStep(s: System, t: Stream, act: Action)
    requires t.Valid() && t.Sends(act) && OnTrack(s, t) && Step(s, act).Ran?
    ensures OnTrack(Step(s, act).sys, t)
  {
    var s' := Step(s, act).sys;
    match act
    case Read(msn) =>
      if s.qp.status.Normal? {
        FreshRead(s, t, msn);
      }
    case Arrive(a) =>
      hide Step, Inv, InFlight, AcksSound, Stream.Valid;
      StepFields(s, a);
      if s.qp.status.Normal? {
        FreshInFlight(s, t, a);
        StepSound(s, act);
        if s'.qp.status.Normal? {
          TrackInOrder(s, t, a);
        }
      }
  }

  lemma TrackInOrder(s: System, t: Stream, a: Arrival)
    requires t.Valid() && t.Sends(Arrive(a)) && Fresh(s, t) && s.qp.status.Normal?
    requires Step(s, Arrive(a)).Ran? && Inv(Step(s, Arrive(a)).sys) && Step(s, Arrive(a)).sys.qp.status.Normal?
    ensures Fresh(Step(s, Arrive(a)).sys, t)
  {
    hide Step, Inv, MarkAfter, Wire;
    StepFields(s, a);
    EventDiffers(s, a);
    CurrentInStream(s, t, a);
  }

  lemma {:induction false} TrackRun(s: System, t: Stream, acts: seq<Action>)
    requires t.Valid() && Healthy(s) && OnTrack(s, t)
    requires forall i :: 0 <= i < |acts| ==> t.Sends(acts[i])
    ensures InOrderContract(s, acts) && AlwaysAtMostOne(s, acts)
    decreases |acts|
  {
    hide Step, Stream.Apart, Stream.Sends, Healthy, Admissible;
    if s.qp.status.Normal? {
      StreamAtMostOne(s, t);
    }
    if acts != [] {
      TrackAdmissible(s, t, acts[0]);
      HealthyStep(s, acts[0]);
      TrackStep(s, t, acts[0]);
      TrackRun(Step(s, acts[0]).sys, t, acts[1..]);
    }
  }

  lemma TrackAdmissible(s: System, t: Stream, act: Action)
    requires t.Valid() && t.Sends(act) && OnTrack(s, t)
    ensures s.qp.status.Normal? ==> Admissible(s, act)
  {
    if s.qp.status.Normal? && act.Arrive? {
      FreshInFlight(s, t, act.arrival);
    }
  }

  // For every stream, crossing 2^23 or not: no run panics, and while the queue pair is in order at most one
  // context is open.
  lemma StreamPanicFreedom(t: Stream, acts: seq<Action>)
    requires t.Valid() && forall i :: 0 <= i < |acts| ==> t.Sends(acts[i])
    ensures RunsOn(Init(t.pmtu, t.base), acts)
    ensures AlwaysAtMostOne(Init(t.pmtu, t.base), acts)
  {
    hide RunsOn, AlwaysAtMostOne, InOrderContract;
    var s := Init(t.pmtu, t.base);
    TrackRun(s, t, acts);
    PanicFreedom(t.pmtu, t.base, acts);
  }
}
