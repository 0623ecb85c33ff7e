// Streams of fewer than 2^23 packets: which of them the checker acknowledges soundly under every
// loss, duplication and reordering.

module CheckerStreams {
  import opened Psn
  import opened RecvWindow
  import opened PacketLength
  import opened Checker
  import opened CheckerRuns

  // Messages with distinct MSNs that occupy disjoint parts of the PSNs base..end-1.
  datatype Stream = Stream(pmtu: Pmtu, msgs: iset<Message>, base: int, end: int) {
    ghost predicate Valid() {
      && base < end < base + PSN_MAX_WINDOW_SIZE
      && (forall m :: m in msgs ==> base <= m.start && m.start + m.Count(pmtu) <= end)
      && (forall m, m' :: m in msgs && m' in msgs && m.msn == m'.msn ==> m == m')
      && Apart()
    }

    ghost predicate Apart() {
      forall m, m', x :: m in msgs && m' in msgs && m.Contains(pmtu, x) && m'.Contains(pmtu, x) ==> m == m'
    }

    ghost predicate Owns(x: int) {
      exists m :: m in msgs && m.Contains(pmtu, x)
    }

    ghost predicate Sends(act: Action) {
      act.Arrive? ==> act.arrival.msg in msgs && act.arrival.offset < act.arrival.msg.Count(pmtu)
    }
  }

  // The PSNs base..end-1 run from below 2^23 to 2^23 or above, modulo 2^24.
  ghost predicate CrossesHalf(base: int, end: int) {
    Wire(base) < PSN_MAX_WINDOW_SIZE <= Wire(base) + (end - 1 - base)
  }

  lemma CrossesHalfIff(base: int, end: int)
    requires base < end < base + PSN_MAX_WINDOW_SIZE
    ensures CrossesHalf(base, end) <==> NearestZero(base) != NearestZero(end - 1)
  {
    hide NearestZero;
    var w := Wire(base);
    var q := (base - w) / BORDER;
    assert base == w + q * BORDER;
    ModShift(0, q);
    ModShift(0, q + 1);
    hide Wire;
    var z := q * BORDER;
    NearestZeroIsUnique(base, if w < PSN_MAX_WINDOW_SIZE then z else z + BORDER);
    var last := w + (end - 1 - base);
    NearestZeroIsUnique(end - 1, if last < PSN_MAX_WINDOW_SIZE then z else z + BORDER);
  }

  lemma NearestZeroIsUnique(x: int, z: int)
    requires Wire(z) == 0 && -PSN_MAX_WINDOW_SIZE <= x - z < PSN_MAX_WINDOW_SIZE
    ensures NearestZero(x) == z
  {
    NearestZeroIsNear(x);
    WireSub(z, NearestZero(x));
  }

  lemma NearestZeroMonotone(x: int, y: int)
    requires x <= y
    ensures NearestZero(x) <= NearestZero(y)
  {
    NearestZeroIsNear(x);
    NearestZeroIsNear(y);
    if NearestZero(x) > NearestZero(y) {
      WireSub(NearestZero(x), NearestZero(y));
    }
  }

  // ---- streams that stay on one side of 2^23 -------------------------------------------------

  ghost predicate StreamInv(s: System, t: Stream) {
    && OneCurrent(s, t) && s.base == t.base && t.base <= s.e <= t.end
    && (s.qp.status.OutOfOrder? ==> s.mark == NearestZero(t.base) || t.base <= s.mark < t.end)
  }

  // Contexts belong to messages of the stream and, in order, to the one the card is in the middle of.
  ghost predicate OneCurrent(s: System, t: Stream) {
    && s.qp.pmtu == t.pmtu
    && (forall m :: m in s.owner ==> s.owner[m] in t.msgs && s.owner[m].msn == m)
    && (s.qp.status.Normal? ==> forall m :: Open(s, m) ==> m in s.owner && IsCurrent(s, s.owner[m]))
  }

  // The card has passed the first packet of m but not its last.
  ghost predicate IsCurrent(s: System, m: Message) {
    m.start < s.e < m.start + m.Count(s.qp.pmtu)
  }

  lemma StreamInFlight(s: System, t: Stream, a: Arrival)
    requires t.Valid() && !CrossesHalf(t.base, t.end)
    requires Inv(s) && StreamInv(s, t) && t.Sends(Arrive(a))
    ensures InFlight(s, a)
  {
    hide WindowSound;
    var p := a.At();
    CrossesHalfIff(t.base, t.end);
    NearestZeroMonotone(t.base, p);
    NearestZeroMonotone(p, t.end - 1);
    NearestZeroIsNear(p);
    forall m | Open(s, m) ensures m in s.owner && s.owner[m] in t.msgs {
      assert ContextSound(s, m);
    }
  }

  lemma StreamStep(s: System, t: Stream, act: Action)
    requires t.Valid() && !CrossesHalf(t.base, t.end)
    requires Inv(s) && StreamInv(s, t) && t.Sends(act)
    ensures StepIsSound(s, act) && Inv(Step(s, act).sys) && StreamInv(Step(s, act).sys, t)
  {
    match act
    case Read(msn) =>
      StepSound(s, act);
    case Arrive(a) =>
      hide Inv, Step, AcksSound, CrossesHalf;
      StreamInFlight(s, t, a);
      StepSound(s, act);
      StepFields(s, a);
      assert StreamInv(Step(s, act).sys, t) by {
        StreamStays(s, t, a);
      }
  }

  lemma StreamStays(s: System, t: Stream, a: Arrival)
    requires t.Valid() && !CrossesHalf(t.base, t.end) && InFlight(s, a)
    requires StreamInv(s, t) && t.Sends(Arrive(a)) && Step(s, Arrive(a)).Ran?
    ensures StreamInv(Step(s, Arrive(a)).sys, t)
  {
    hide Step, MarkAfter, CrossesHalf, NearestZero, InFlight, Wire;
    StepFields(s, a);
    EventDiffers(s, a);
    if s.qp.status.Normal? && a.At() == s.e {
      CurrentInStream(s, t, a);
    } else {
      MarkInStream(s, t, a);
    }
  }

  // What a step does to the rest of the system. It leaves the MTU alone, and only a gap changes
  // the status.
  lemma StepFields(s: System, a: Arrival)
    requires Step(s, Arrive(a)).Ran?
    ensures var s' := Step(s, Arrive(a)).sys;
            && s'.base == s.base && s'.mark == MarkAfter(s, a)
            && s'.e == (if a.At() >= s.e then a.At() + 1 else s.e)
            && s'.recved == s.recved + iset{a.At()}
            && s'.owner == (if a.offset == 0 then s.owner[a.msg.msn := a.msg] else s.owner)
            && s'.qp.pmtu == s.qp.pmtu
            && (s.qp.status.OutOfOrder? ==> s'.qp.status.OutOfOrder?)
            && (s'.qp.status.OutOfOrder? && s.qp.status.Normal? ==> Enters(s, a))
            && (Enters(s, a) && Wire(a.At()) != Wire(s.e) ==> s'.qp.status.OutOfOrder?)
  {
    hide RecordPacket, CreateMapOnPsn, GapEffects, RecoverEffects, WindowView.IsComplete, WindowView.RecoverPanics,
         WindowView.GapPanics, MarkAfter;
  }

  lemma MarkInStream(s: System, t: Stream, a: Arrival)
    requires t.Valid() && !CrossesHalf(t.base, t.end)
    requires StreamInv(s, t) && t.Sends(Arrive(a))
    requires s.qp.status.OutOfOrder? || Enters(s, a)
    ensures MarkAfter(s, a) == NearestZero(t.base) || t.base <= MarkAfter(s, a) < t.end
  {
    CrossesHalfIff(t.base, t.end);
    NearestZeroMonotone(t.base, a.At());
    NearestZeroMonotone(a.At(), t.end - 1);
  }

  // In order, the one open context is that of the message the card is in the middle of.
  lemma CurrentInStream(s: System, t: Stream, a: Arrival)
    requires t.Apart() && OneCurrent(s, t) && t.Sends(Arrive(a))
    requires s.qp.status.Normal? && a.At() == s.e
    ensures var s' := Step(s, Arrive(a)).sys; forall m :: Open(s', m) ==> m in s'.owner && IsCurrent(s', s'.owner[m])
  {
    var s' := Step(s, Arrive(a)).sys;
    assert a.msg.Contains(t.pmtu, s.e);
    forall m | Open(s', m) ensures m in s'.owner && IsCurrent(s', s'.owner[m]) {
      if Open(s, m) {
        assert s.owner[m].Contains(t.pmtu, s.e);
        assert s.owner[m] == a.msg;
      }
    }
  }

  // While the queue pair is in order it has at most one receive context.
  ghost predicate AtMostOneInOrder(s: System) {
    s.qp.status.Normal? && s.qp.perQp.Some? ==> |s.qp.perQp.value.contexts| <= 1
  }

  lemma StreamAtMostOne(s: System, t: Stream)
    requires t.Apart() && OneCurrent(s, t)
    ensures AtMostOneInOrder(s)
  {
    if s.qp.status.Normal? && s.qp.perQp.Some? {
      var keys := s.qp.perQp.value.contexts.Keys;
      forall m, m' | m in keys && m' in keys ensures m == m' {
        assert Open(s, m) && Open(s, m');
        assert s.owner[m].Contains(t.pmtu, s.e) && s.owner[m'].Contains(t.pmtu, s.e);
      }
      AtMostOneElement(keys);
    }
  }

  lemma AtMostOneElement<T>(s: set<T>)
    requires forall x, y :: x in s && y in s ==> x == y
    ensures |s| <= 1
  {
    if s != {} {
      var x :| x in s;
      assert s == {x};
    }
  }

  ghost predicate AlwaysAtMostOne(s: System, acts: seq<Action>)
    decreases |acts|
  {
    && AtMostOneInOrder(s)
    && (acts != [] ==> (var r := Step(s, acts[0]); r.Ran? ==> AlwaysAtMostOne(r.sys, acts[1..])))
  }

  lemma {:induction false} StreamRun(s: System, t: Stream, acts: seq<Action>)
    requires t.Valid() && !CrossesHalf(t.base, t.end)
    requires Inv(s) && StreamInv(s, t)
    requires forall i :: 0 <= i < |acts| ==> t.Sends(acts[i])
    ensures RunsSoundly(s, acts)
    decreases |acts|
  {
    hide Inv, StreamInv, Step, AcksSound, Stream.Valid, Stream.Sends;
    if acts != [] {
      StreamStep(s, t, acts[0]);
      StreamRun(Step(s, acts[0]).sys, t, acts[1..]);
    }
  }

  // Any run over a stream that does not cross 2^23 is sound.
  lemma StreamAckSoundness(t: Stream, acts: seq<Action>)
    requires t.Valid() && !CrossesHalf(t.base, t.end)
    requires forall i :: 0 <= i < |acts| ==> t.Sends(acts[i])
    ensures RunsSoundly(Init(t.pmtu, t.base), acts)
  {
    StreamRun(Init(t.pmtu, t.base), t, acts);
  }
}
