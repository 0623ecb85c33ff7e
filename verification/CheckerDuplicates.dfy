// A finished message stays finished while the queue pair is out of order.

module CheckerDuplicates {
  import opened Psn
  import opened Wrappers
  import opened RecvWindow
  import opened Checker

  // The message has no context and its slot of the recent-MSN ring says it is finished.
  ghost predicate FinishedAt(q: Qp, msn: Msn) {
    && q.perQp.Some?
    && msn !in q.perQp.value.contexts
    && q.perQp.value.recentMsn[msn % MAX_MSN_WINDOW_PER_QP] == (msn, Finished)
  }

  function MsnOf(e: Event): Msn {
    match e
    case Write(w) => w.msn
    case ReadReq(msn) => msn
    case Acked(msn, _, _, _) => msn
  }

  // The event belongs to another message that shares the slot of msn.
  predicate TakesSlotOf(e: Event, msn: Msn) {
    !e.Acked? && MsnOf(e) != msn && MsnOf(e) % MAX_MSN_WINDOW_PER_QP == msn % MAX_MSN_WINDOW_PER_QP
  }

  predicate IsDuplicatePacket(e: Event, msn: Msn) {
    e.Write? && e.write.msn == msn && !e.write.writeType.Only?
  }

  // Removing a context finishes its message and leaves the other contexts alone.
  lemma RemovedIsFinished(q: Qp, msn: Msn)
    requires q.perQp.Some?
    ensures FinishedAt(WithoutCtx(q, msn), msn)
    ensures WithoutCtx(q, msn).perQp.value.contexts == q.perQp.value.contexts - {msn}
  {
  }

  // Throughout the run msn stays finished, and its packets cause no effect at all: no context,
  // no acknowledgement, no wake-up.
  ghost predicate StaysFinished(q: Qp, events: seq<Event>, msn: Msn)
    decreases |events|
  {
    && FinishedAt(q, msn)
    && (events != [] ==>
          var r := HandleEvent(q, events[0]);
          r.Next? ==> (IsDuplicatePacket(events[0], msn) ==> r.effects == []) && StaysFinished(r.qp, events[1..], msn))
  }

  lemma FinishedStep(q: Qp, e: Event, msn: Msn)
    requires q.status.OutOfOrder? && FinishedAt(q, msn) && !TakesSlotOf(e, msn)
    ensures var r := HandleEvent(q, e);
            r.Next? ==>
              && r.qp.status.OutOfOrder? && FinishedAt(r.qp, msn)
              && (IsDuplicatePacket(e, msn) ==> r.effects == [])
  {
    hide RecordPacket, GapEffects, RecoverEffects, WindowView.IsComplete, WindowView.RecoverPanics,
         WindowView.GapPanics, WindowView.TryGetRecoverPsn, WindowView.LastPsn, ContextWithWindow, LargerInPsn;
  }

  lemma {:induction false} DuplicatesSuppressed(q: Qp, events: seq<Event>, msn: Msn)
    requires q.status.OutOfOrder? && FinishedAt(q, msn)
    requires forall i :: 0 <= i < |events| ==> !TakesSlotOf(events[i], msn)
    ensures StaysFinished(q, events, msn)
    decreases |events|
  {
    hide HandleEvent, FinishedAt;
    if events != [] {
      FinishedStep(q, events[0], msn);
      var r := HandleEvent(q, events[0]);
      if r.Next? {
        DuplicatesSuppressed(r.qp, events[1..], msn);
      }
    }
  }

  // A message of one packet is finished by that packet, in order and out of order, if there is a table: what comes
  // later under its MSN is a duplicate.
  lemma OnlyFinishes(q: Qp, e: WriteEvent)
    requires e.writeType.Only? && q.perQp.Some? && e.msn !in q.perQp.value.contexts
    requires q.status.OutOfOrder? || e.expectedPsn == e.psn
    ensures var r := HandleEvent(q, Write(e)); r.Next? && FinishedAt(r.qp, e.msn)
  {
  }

  // Completing a message out of order finishes it.
  lemma CompletionFinishes(q: Qp, e: WriteEvent)
    requires q.status.OutOfOrder? && !e.writeType.Only?
    requires var r := HandleWrite(q, e); r.Next? && exists psn :: SendAck(e.msn, psn) in r.effects
    ensures FinishedAt(HandleWrite(q, e).qp, e.msn)
  {
    hide RecordPacket, WindowView.RecentGap, WindowView.IsComplete, WindowView.RecoverPanics, WindowView.GapPanics,
         WindowView.TryGetRecoverPsn, WindowView.LastPsn, ContextWithWindow, LargerInPsn, WithoutCtx, FinishedAt;
    var p := q.perQp.value;
    if e.msn in p.contexts && p.contexts[e.msn].recvMap.Some? {
      var c := p.contexts[e.msn];
      var w := RecordPacket(c.recvMap.value, p.largestPsnRecved, e);
      var p' := p.(contexts := p.contexts[e.msn := c.(recvMap := Some(w))]).UpdateLargest(e.psn);
      RemovedIsFinished(q.(perQp := Some(p')), e.msn);
    }
  }
}
