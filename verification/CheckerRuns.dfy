// Whole runs of the packet checker behind a card.
//
// The card keeps the PSN e it expects next. It reports a packet together with e when the packet
// is the first, last or only one of its message or is not the expected one, and after packet p
// at or beyond e it expects p + 1. Sequence numbers are unbounded here; the checker sees their
// 24-bit images.

module CheckerRuns {
  import opened Psn
  import opened Wrappers
  import opened RecvWindow
  import opened PacketLength
  import opened Checker

  // A write message: its first PSN, and the address and length that determine its packets.
  datatype Message = Message(start: int, addr: nat, len: nat, msn: Msn) {
    ghost function Count(pmtu: Pmtu): pos {
      CalculatePacketCnt(pmtu, addr, len)
    }

    ghost predicate Contains(pmtu: Pmtu, x: int) {
      start <= x < start + Count(pmtu)
    }
  }

  // One packet of a message reaches the card.
  datatype Arrival = Arrival(msg: Message, offset: nat, autoAck: bool) {
    ghost function At(): int {
      msg.start + offset
    }

    ghost function Type(pmtu: Pmtu): WriteType {
      if msg.Count(pmtu) == 1 then Only
      else if offset == 0 then First
      else if offset == msg.Count(pmtu) - 1 then Last
      else Middle
    }
  }

  datatype Action = Arrive(arrival: Arrival) | Read(msn: Msn)

  // qp is the checker's state; e and recved are the card's. base is the first PSN of the run,
  // owner the last message that opened a context under an MSN, and mark the unbounded number
  // that the checker's largestPsnRecved stands for.
  datatype System = System(
    qp: Qp,
    e: int,
    recved: iset<int>,
    base: int,
    owner: map<Msn, Message>,
    mark: int)

  datatype SystemOutcome = Crash | Ran(sys: System, effects: seq<Effect>)

  ghost function EventOf(a: Arrival, e: int, pmtu: Pmtu): WriteEvent {
    WriteEvent(a.msg.msn, Wire(e), Wire(a.At()), a.Type(pmtu), a.msg.addr, a.msg.len, false, a.autoAck)
  }

  ghost predicate Reported(s: System, a: Arrival) {
    !a.Type(s.qp.pmtu).Middle? || a.At() != s.e
  }

  ghost predicate Enters(s: System, a: Arrival) {
    s.qp.status.Normal? && a.At() != s.e
  }

  // The multiple of 2^24 nearest to x, the lower one half way between.
  ghost function NearestZero(x: int): int {
    (x + PSN_MAX_WINDOW_SIZE) / BORDER * BORDER
  }

  // What largestPsnRecved stands for when packet p is handled: a context table that was created
  // in order holds PSN 0, whatever PSNs the queue pair has reached.
  ghost function MarkBefore(s: System, a: Arrival): int {
    if Enters(s, a) then
      if s.qp.perQp.Some? then NearestZero(a.At()) else a.At()
    else
      s.mark
  }

  ghost function MarkAfter(s: System, a: Arrival): int {
    var mark := MarkBefore(s, a);
    if Reported(s, a) && !LargerInPsn(Wire(mark), Wire(a.At())) then a.At() else mark
  }

  ghost function Step(s: System, act: Action): SystemOutcome {
    match act
    case Read(msn) =>
      var r := HandleEvent(s.qp, ReadReq(msn));
      Ran(s.(qp := r.qp), r.effects)
    case Arrive(a) =>
      var p := a.At();
      var r := if Reported(s, a) then HandleEvent(s.qp, Write(EventOf(a, s.e, s.qp.pmtu))) else Next(s.qp, []);
      if r.Panic? then
        Crash
      else
        Ran(System(r.qp,
                   if p >= s.e then p + 1 else s.e,
                   s.recved + iset{p},
                   s.base,
                   if a.offset == 0 then s.owner[a.msg.msn := a.msg] else s.owner,
                   MarkAfter(s, a)),
            r.effects)
  }

  // A queue pair that has received nothing and expects PSN base.
  ghost function Init(pmtu: Pmtu, base: int): System {
    System(Qp(Normal, pmtu, None), base, iset{}, base, map[], base)
  }

  // ---- what may be in flight ---------------------------------------------------------------

  ghost predicate Open(s: System, msn: Msn) {
    s.qp.perQp.Some? && msn in s.qp.perQp.value.contexts
  }

  ghost predicate AllBelowReceived(s: System) {
    forall x :: s.base <= x < s.e ==> x in s.recved
  }

  // The watermark comparison is meaningful for p: p is within half the circle of the mark, or
  // nothing is missing and p is old, so that no position of the mark can hide a gap.
  ghost predicate NearMark(s: System, p: int) {
    || s.mark - PSN_MAX_WINDOW_SIZE <= p < s.mark + PSN_MAX_WINDOW_SIZE
    || (p < s.e && AllBelowReceived(s))
  }

  // Fewer than 2^23 PSNs are in flight, and an MSN is not reused while its context is open.
  ghost predicate InFlight(s: System, a: Arrival) {
    var p, n := a.At(), a.msg.Count(s.qp.pmtu);
    && a.offset < n < PSN_MAX_WINDOW_SIZE
    && s.base <= a.msg.start
    && -PSN_MAX_WINDOW_SIZE < p - s.e < PSN_MAX_WINDOW_SIZE
    && s.e - a.msg.start < PSN_MAX_WINDOW_SIZE
    && (Open(s, a.msg.msn) && a.msg.msn in s.owner ==> s.owner[a.msg.msn] == a.msg)
    && (s.qp.status.Normal? ==>
          forall m :: Open(s, m) && m in s.owner ==>
            && s.e - s.owner[m].start < PSN_MAX_WINDOW_SIZE
            && -PSN_MAX_WINDOW_SIZE <= p - s.owner[m].start < PSN_MAX_WINDOW_SIZE)
    && (s.qp.status.OutOfOrder? ==> NearMark(s, p))
  }

  ghost predicate Admissible(s: System, act: Action) {
    act.Arrive? ==> InFlight(s, act.arrival)
  }

  // ---- invariant -----------------------------------------------------------------------------

  ghost predicate ContextMatches(c: RecvContext, m: Message) {
    !c.isReadResp && c.startAddr == m.addr && c.lenInBytes == m.len && c.startPsn == Wire(m.start)
  }

  // The window of message m covers its first packet and only packets that have arrived.
  ghost predicate WindowSound(w: WindowView, m: Message, pmtu: Pmtu, recved: iset<int>) {
    && w.startPsn == Wire(m.start)
    && w.numOfPackets == m.Count(pmtu)
    && Sane(w.intervals)
    && (forall x: int :: Covers(w.intervals, x) ==> m.start + x in recved)
  }

  ghost predicate ContextSound(s: System, msn: Msn)
    requires Open(s, msn)
  {
    var c := s.qp.perQp.value.contexts[msn];
    && msn in s.owner
    && ContextMatches(c, s.owner[msn])
    && s.base <= s.owner[msn].start
    && s.owner[msn].start in s.recved
    && (s.qp.status.OutOfOrder? ==>
          c.recvMap.Some? && WindowSound(c.recvMap.value, s.owner[msn], s.qp.pmtu, s.recved))
  }

  // Everything the card has passed above the mark has arrived.
  ghost predicate MarkSound(base: int, e: int, recved: iset<int>, mark: int) {
    && (forall x :: base <= x && mark < x < e ==> x in recved)
    && mark - e < PSN_MAX_WINDOW_SIZE
  }

  ghost predicate Inv(s: System) {
    && (forall x :: x in s.recved ==> x < s.e)
    && (forall m :: Open(s, m) ==> ContextSound(s, m))
    && (s.qp.status.Normal? ==>
          AllBelowReceived(s) && (s.qp.perQp.Some? ==> s.qp.perQp.value.largestPsnRecved == 0))
    && (s.qp.status.OutOfOrder? ==>
          && s.qp.perQp.Some?
          && s.qp.perQp.value.largestPsnRecved == Wire(s.mark)
          && MarkSound(s.base, s.e, s.recved, s.mark))
  }

  // Every acknowledgement in effects is for message m, names its last PSN, and all of m has arrived.
  ghost predicate AcksSound(m: Message, pmtu: Pmtu, recved: iset<int>, effects: seq<Effect>) {
    forall i :: 0 <= i < |effects| && effects[i].SendAck? ==>
      && effects[i].msn == m.msn
      && effects[i].psn == Wire(m.start + m.Count(pmtu) - 1)
      && forall x :: m.Contains(pmtu, x) ==> x in recved
  }

  // ---- windows stay sane ------------------------------------------------------------------------

  lemma RangeSane(w: WindowView, largest: Psn, expected: Psn)
    requires Sane(w.intervals)
    ensures var range := GetContinuousRange(largest, expected);
            range.Some? ==>
              var w' := w.Inserted(range.value.0, range.value.1);
              Sane(w'.intervals) && w'.startPsn == w.startPsn && w'.numOfPackets == w.numOfPackets
  {
    hide WindowView.Inserted, Sane;
    var range := GetContinuousRange(largest, expected);
    if range.Some? {
      InsertedSane(w, range.value.0, range.value.1);
    }
  }

  // Whatever the event says, it leaves a sane window sane.
  lemma RecordSane(w: WindowView, largest: Psn, e: WriteEvent)
    requires Sane(w.intervals)
    ensures var w' := RecordPacket(w, largest, e);
            Sane(w'.intervals) && w'.startPsn == w.startPsn && w'.numOfPackets == w.numOfPackets
  {
    hide WindowView.Inserted, Sane;
    RangeSane(w, largest, e.expectedPsn);
    var range := GetContinuousRange(largest, e.expectedPsn);
    InsertedSane(if range.Some? then w.Inserted(range.value.0, range.value.1) else w, e.psn, e.psn);
  }

  lemma SaneNeverPanics(w: WindowView)
    requires Sane(w.intervals)
    ensures !w.RecoverPanics() && !w.GapPanics()
  {
    if !w.IsOutOfOrder() {
      RecoverIsLeastMissing(w);
    }
    GapNeverPanics(w);
  }

  // ---- windows stay sound ----------------------------------------------------------------------

  // The run of PSNs between the mark and the expected PSN may be added to the window of any open
  // message whose start the card passed less than 2^23 PSNs ago.
  lemma RangeSound(w: WindowView, m: Message, s: System)
    requires WindowSound(w, m, s.qp.pmtu, s.recved)
    requires MarkSound(s.base, s.e, s.recved, s.mark) || AllBelowReceived(s)
    requires s.base <= m.start < s.e < m.start + PSN_MAX_WINDOW_SIZE
    ensures var range := GetContinuousRange(Wire(s.mark), Wire(s.e));
            range.Some? ==> WindowSound(w.Inserted(range.value.0, range.value.1), m, s.qp.pmtu, s.recved)
  {
    hide WindowView.Inserted, Covers, WellFormed, Bounded;
    var range := GetContinuousRange(Wire(s.mark), Wire(s.e));
    if range.Some? {
      var (from, to) := range.value;
      assert from == Wire(s.mark + 1) by { WireAdd(s.mark, 1); }
      assert to == Wire(s.e - 1) by { WireSub(s.e, 1); assert Wire(1) == 1; }
      if w.Accepts(from, to) {
        AcceptedIsOrdered(w, from, to);
        var left, right := WrappingSub(from, w.startPsn), WrappingSub(to, w.startPsn);
        assert right == s.e - 1 - m.start by { WireSub(s.e - 1, m.start); WireNear(s.e - 1, m.start); }
        assert right - left == Wire(s.e - 2 - s.mark) by { WireSub(s.e - 1, s.mark + 1); }
        forall x: int | m.start + left <= x <= m.start + right ensures x in s.recved {
          if !AllBelowReceived(s) {
            DistanceFromMark(s.e, s.mark, right - left, m.start);
          }
        }
      }
      InsertedKeeps(w, from, to);
      InsertedBounded(w, from, to);
    }
  }

  lemma DistanceFromMark(e: int, mark: int, d: int, start: int)
    requires 0 <= d <= e - 1 - start && d == Wire(e - 2 - mark)
    requires mark - e < PSN_MAX_WINDOW_SIZE && e < start + PSN_MAX_WINDOW_SIZE
    ensures e - 1 - d > mark
  {
    if e - 2 - mark < 0 {
      WireNear(e - 2, mark);
    }
  }

  // A single packet that is at most half the circle away from the start of the message.
  lemma PacketSound(w: WindowView, m: Message, pmtu: Pmtu, recved: iset<int>, p: int)
    requires WindowSound(w, m, pmtu, recved) && p in recved
    requires -PSN_MAX_WINDOW_SIZE <= p - m.start < PSN_MAX_WINDOW_SIZE
    ensures WindowSound(w.Inserted(Wire(p), Wire(p)), m, pmtu, recved)
  {
    hide WindowView.Inserted, Covers, WellFormed, Bounded;
    WireSub(p, m.start);
    WireNear(p, m.start);
    InsertedKeeps(w, Wire(p), Wire(p));
    InsertedBounded(w, Wire(p), Wire(p));
  }

  // A fresh window holds one run of packets from the start of the message.
  lemma FreshWindowSound(m: Message, pmtu: Pmtu, recved: iset<int>, last: int)
    requires m.start <= last < m.start + PSN_MAX_WINDOW_SIZE
    requires forall x :: m.start <= x <= last ==> x in recved
    ensures WindowSound(WindowView(map[], Wire(m.start), m.Count(pmtu)).Inserted(Wire(m.start), Wire(last)),
                        m, pmtu, recved)
  {
    WireSub(last, m.start);
    WireNear(last, m.start);
    WireSub(m.start, m.start);
    var w := WindowView(map[], Wire(m.start), m.Count(pmtu)).Inserted(Wire(m.start), Wire(last));
    assert w.intervals == map[0 := last - m.start];
    assert 0 in w.intervals;
  }

  lemma WindowSoundGrows(w: WindowView, m: Message, pmtu: Pmtu, recved: iset<int>, more: iset<int>)
    requires WindowSound(w, m, pmtu, recved) && recved <= more
    ensures WindowSound(w, m, pmtu, more)
  {
  }

  // ---- one out-of-order step ---------------------------------------------------------------------

  // The state in which packet a is handled out of order; a itself already counts as received.
  ghost predicate ReadyOutOfOrder(s: System, a: Arrival) {
    var n := a.msg.Count(s.qp.pmtu);
    && s.qp.status.OutOfOrder? && s.qp.perQp.Some?
    && s.qp.perQp.value.largestPsnRecved == Wire(s.mark)
    && (forall m :: Open(s, m) ==> ContextSound(s, m) && s.owner[m].start < s.e)
    && (MarkSound(s.base, s.e, s.recved, s.mark) || AllBelowReceived(s))
    && a.At() in s.recved
    && a.offset < n < PSN_MAX_WINDOW_SIZE && s.base <= a.msg.start
    && s.e - a.msg.start < PSN_MAX_WINDOW_SIZE
    && (Open(s, a.msg.msn) ==> s.owner[a.msg.msn] == a.msg)
  }

  ghost function AfterOutOfOrder(s: System, a: Arrival, qp: Qp): System {
    s.(qp := qp, owner := if a.offset == 0 then s.owner[a.msg.msn := a.msg] else s.owner)
  }

  ghost predicate SoundAfter(s: System, a: Arrival, r: Outcome) {
    && r.Next? && s.qp.perQp.Some?
    && r.qp.status.OutOfOrder? && r.qp.perQp.Some? && r.qp.pmtu == s.qp.pmtu
    && r.qp.perQp.value.largestPsnRecved == s.qp.perQp.value.UpdateLargest(Wire(a.At())).largestPsnRecved
    && (var s' := AfterOutOfOrder(s, a, r.qp); forall m :: Open(s', m) ==> ContextSound(s', m))
    && AcksSound(a.msg, s.qp.pmtu, s.recved, r.effects)
  }

  lemma FirstOrOnlySound(s: System, a: Arrival)
    requires ReadyOutOfOrder(s, a)
    requires a.Type(s.qp.pmtu).First? || a.Type(s.qp.pmtu).Only?
    ensures SoundAfter(s, a, HandleOutOfOrder(s.qp, EventOf(a, s.e, s.qp.pmtu)))
  {
    var e := EventOf(a, s.e, s.qp.pmtu);
    var r := HandleOutOfOrder(s.qp, e);
    var s' := AfterOutOfOrder(s, a, r.qp);
    assert a.offset == 0;
    if e.writeType.First? {
      FreshWindowSound(a.msg, s.qp.pmtu, s.recved, a.At());
    }
    forall m | Open(s', m) ensures ContextSound(s', m) {
      if Open(s, m) {
        assert ContextSound(s, m);
      }
    }
  }

  lemma MiddleOrLastSound(s: System, a: Arrival)
    requires ReadyOutOfOrder(s, a)
    requires a.Type(s.qp.pmtu).Middle? || a.Type(s.qp.pmtu).Last?
    ensures SoundAfter(s, a, HandleOutOfOrder(s.qp, EventOf(a, s.e, s.qp.pmtu)))
  {
    if Open(s, a.msg.msn) {
      OpenMessageSound(s, a);
    } else {
      var r := HandleOutOfOrder(s.qp, EventOf(a, s.e, s.qp.pmtu));
      var s' := AfterOutOfOrder(s, a, r.qp);
      forall m | Open(s', m) ensures ContextSound(s', m) {
        assert Open(s, m) && ContextSound(s, m);
      }
    }
  }

  // A Middle or Last packet of an open message, by the window w that it leaves.
  lemma HandlesOpen(q: Qp, e: WriteEvent, w: WindowView)
    requires q.perQp.Some? && e.msn in q.perQp.value.contexts && q.perQp.value.contexts[e.msn].recvMap.Some?
    requires !q.perQp.value.contexts[e.msn].isReadResp && (e.writeType.Middle? || e.writeType.Last?)
    requires w == RecordPacket(q.perQp.value.contexts[e.msn].recvMap.value, q.perQp.value.largestPsnRecved, e)
    requires !w.RecoverPanics() && !w.GapPanics()
    ensures var r, p := HandleOutOfOrder(q, e), q.perQp.value;
            && r.Next? && r.qp.status == q.status && r.qp.pmtu == q.pmtu && r.qp.perQp.Some?
            && r.qp.perQp.value.largestPsnRecved == p.UpdateLargest(e.psn).largestPsnRecved
            && (w.IsComplete() ==> r.qp.perQp.value.contexts == p.contexts - {e.msn})
            && (!w.IsComplete() ==>
                  r.qp.perQp.value.contexts == p.contexts[e.msn := p.contexts[e.msn].(recvMap := Some(w))])
            && (w.IsComplete() <==> SendAck(e.msn, w.LastPsn()) in r.effects)
            && (forall i :: 0 <= i < |r.effects| && r.effects[i].SendAck? ==>
                  w.IsComplete() && r.effects[i] == SendAck(e.msn, w.LastPsn()))
  {
    hide RecordPacket, WindowView.IsComplete, WindowView.RecoverPanics, WindowView.GapPanics,
         WindowView.TryGetRecoverPsn, WindowView.LastPsn, LargerInPsn, WindowView.RecentGap;
    var r, p := HandleOutOfOrder(q, e), q.perQp.value;
    if w.IsComplete() {
      var gap := GapEffects(w, e.msn);
      assert r.effects[|gap|] == SendAck(e.msn, w.LastPsn());
      assert p.contexts[e.msn := p.contexts[e.msn].(recvMap := Some(w))] - {e.msn} == p.contexts - {e.msn};
    }
  }

  lemma OpenMessageSound(s: System, a: Arrival)
    requires ReadyOutOfOrder(s, a) && Open(s, a.msg.msn)
    requires a.Type(s.qp.pmtu).Middle? || a.Type(s.qp.pmtu).Last?
    ensures SoundAfter(s, a, HandleOutOfOrder(s.qp, EventOf(a, s.e, s.qp.pmtu)))
  {
    hide RecordPacket, WindowSound, WindowView.IsComplete, WindowView.RecoverPanics, WindowView.GapPanics,
         WindowView.LastPsn, Wire, MarkSound, AllBelowReceived, Message.Count, HandleOutOfOrder, SoundAfter;
    var e := EventOf(a, s.e, s.qp.pmtu);
    var p := s.qp.perQp.value;
    assert ContextSound(s, e.msn);
    var w := RecordPacket(p.contexts[e.msn].recvMap.value, p.largestPsnRecved, e);
    RecordPacketSound(s, a, p.contexts[e.msn].recvMap.value);
    CompletionSound(s, a, w);
    HandlesOpen(s.qp, e, w);
    HandledOpenSound(s, a, w, HandleOutOfOrder(s.qp, e));
  }

  // The context of the message is gone or has the window w, and the others are as they were.
  lemma HandledOpenSound(s: System, a: Arrival, w: WindowView, r: Outcome)
    requires ReadyOutOfOrder(s, a) && Open(s, a.msg.msn) && a.offset != 0
    requires WindowSound(w, a.msg, s.qp.pmtu, s.recved)
    requires w.LastPsn() == Wire(a.msg.start + a.msg.Count(s.qp.pmtu) - 1)
    requires w.IsComplete() ==> forall x :: a.msg.Contains(s.qp.pmtu, x) ==> x in s.recved
    requires r.Next? && r.qp.status == s.qp.status && r.qp.pmtu == s.qp.pmtu && r.qp.perQp.Some?
    requires var p, msn := s.qp.perQp.value, a.msg.msn;
             && r.qp.perQp.value.largestPsnRecved == p.UpdateLargest(Wire(a.At())).largestPsnRecved
             && (w.IsComplete() ==> r.qp.perQp.value.contexts == p.contexts - {msn})
             && (!w.IsComplete() ==>
                   r.qp.perQp.value.contexts == p.contexts[msn := p.contexts[msn].(recvMap := Some(w))])
    requires forall i :: 0 <= i < |r.effects| && r.effects[i].SendAck? ==>
               w.IsComplete() && r.effects[i] == SendAck(a.msg.msn, w.LastPsn())
    ensures SoundAfter(s, a, r)
  {
    hide WindowSound, WindowView.IsComplete, WindowView.LastPsn, LargerInPsn, Wire, MarkSound, AllBelowReceived,
         Message.Count;
    assert ContextSound(s, a.msg.msn);
    var s' := AfterOutOfOrder(s, a, r.qp);
    forall m | Open(s', m) ensures ContextSound(s', m) {
      assert Open(s, m) && ContextSound(s, m);
    }
  }

  lemma RecordPacketSound(s: System, a: Arrival, w: WindowView)
    requires ReadyOutOfOrder(s, a) && Open(s, a.msg.msn)
    requires WindowSound(w, a.msg, s.qp.pmtu, s.recved)
    ensures WindowSound(RecordPacket(w, Wire(s.mark), EventOf(a, s.e, s.qp.pmtu)), a.msg, s.qp.pmtu, s.recved)
  {
    RangeSound(w, a.msg, s);
    var range := GetContinuousRange(Wire(s.mark), Wire(s.e));
    var w1 := if range.Some? then w.Inserted(range.value.0, range.value.1) else w;
    PacketSound(w1, a.msg, s.qp.pmtu, s.recved, a.At());
  }

  // A sound window never panics, and completes only when the whole message has arrived.
  lemma CompletionSound(s: System, a: Arrival, w: WindowView)
    requires WindowSound(w, a.msg, s.qp.pmtu, s.recved)
    ensures !w.RecoverPanics() && !w.GapPanics()
    ensures w.LastPsn() == Wire(a.msg.start + a.msg.Count(s.qp.pmtu) - 1)
    ensures w.IsComplete() ==> forall x :: a.msg.Contains(s.qp.pmtu, x) ==> x in s.recved
  {
    SaneNeverPanics(w);
    WireAdd(a.msg.start, w.numOfPackets - 1);
    if w.IsComplete() {
      CompleteIff(w);
      forall x | a.msg.Contains(s.qp.pmtu, x) ensures x in s.recved {
        assert Covers(w.intervals, x - a.msg.start);
      }
    }
  }

  // ---- entering the out-of-order state -------------------------------------------------------------

  lemma NearestZeroIsNear(x: int)
    ensures Wire(NearestZero(x)) == 0
    ensures -PSN_MAX_WINDOW_SIZE <= x - NearestZero(x) < PSN_MAX_WINDOW_SIZE
  {
    ModShift(0, (x + PSN_MAX_WINDOW_SIZE) / BORDER);
  }

  ghost function Entered(s: System, a: Arrival): System {
    s.(qp := EnterError(s.qp, Wire(s.e), Wire(a.At())), mark := MarkBefore(s, a), recved := s.recved + iset{a.At()})
  }

  lemma EnteredReady(s: System, a: Arrival)
    requires Inv(s) && InFlight(s, a) && Enters(s, a)
    ensures ReadyOutOfOrder(Entered(s, a), a)
  {
    hide WindowView.Inserted, Covers, WellFormed, Bounded, WrappingSub;
    var t := Entered(s, a);
    NearestZeroIsNear(a.At());
    forall m | Open(t, m) ensures ContextSound(t, m) && t.owner[m].start < t.e {
      assert Open(s, m) && ContextSound(s, m);
      EnteredWindowSound(s, a, m);
    }
    assert AllBelowReceived(t);
  }

  lemma EnteredWindowSound(s: System, a: Arrival, m: Msn)
    requires Inv(s) && InFlight(s, a) && Enters(s, a) && Open(s, m)
    ensures var c := CreateMapOnPsn(s.qp.perQp.value.contexts[m], WrappingSub(Wire(s.e), 1), Wire(a.At()), s.qp.pmtu);
            WindowSound(c.recvMap.value, s.owner[m], s.qp.pmtu, s.recved + iset{a.At()})
  {
    hide WindowView.Inserted, Covers, WellFormed, Bounded;
    assert ContextSound(s, m);
    var msg, pmtu, recved := s.owner[m], s.qp.pmtu, s.recved + iset{a.At()};
    assert WrappingSub(Wire(s.e), 1) == Wire(s.e - 1) by { WireSub(s.e, 1); assert Wire(1) == 1; }
    hide WrappingSub;
    FreshWindowSound(msg, pmtu, recved, s.e - 1);
    var w := WindowView(map[], Wire(msg.start), msg.Count(pmtu)).Inserted(Wire(msg.start), Wire(s.e - 1));
    PacketSound(w, msg, pmtu, recved, a.At());
  }

  // ---- the mark -------------------------------------------------------------------------------------

  // While packet and mark are within half the circle, the mark is the larger of the two.
  lemma MarkIsMaximum(s: System, a: Arrival)
    requires Reported(s, a) && -PSN_MAX_WINDOW_SIZE <= a.At() - MarkBefore(s, a) < PSN_MAX_WINDOW_SIZE
    ensures MarkAfter(s, a) == if a.At() > MarkBefore(s, a) then a.At() else MarkBefore(s, a)
  {
    LargerIsOrder(MarkBefore(s, a), a.At());
  }

  lemma MarkStaysSound(s: System, a: Arrival)
    requires Inv(s) && InFlight(s, a)
    requires s.qp.status.OutOfOrder? || Enters(s, a)
    ensures var p := a.At();
            MarkSound(s.base, if p >= s.e then p + 1 else s.e, s.recved + iset{p}, MarkAfter(s, a))
  {
    hide LargerInPsn;
    var p, mark := a.At(), MarkBefore(s, a);
    if Reported(s, a) && mark - PSN_MAX_WINDOW_SIZE <= p < mark + PSN_MAX_WINDOW_SIZE {
      MarkIsMaximum(s, a);
    }
    if Enters(s, a) {
      NearestZeroIsNear(p);
    }
  }

  // ---- every step -----------------------------------------------------------------------------------

  // The state, with a counted as received, that an out-of-order packet is handled in.
  ghost function Handled(s: System, a: Arrival): System {
    if Enters(s, a) then Entered(s, a) else s.(recved := s.recved + iset{a.At()})
  }

  lemma HandledReady(s: System, a: Arrival)
    requires Inv(s) && InFlight(s, a)
    requires Enters(s, a) || s.qp.status.OutOfOrder?
    ensures ReadyOutOfOrder(Handled(s, a), a)
  {
    hide Inv, InFlight, ReadyOutOfOrder, Entered;
    if Enters(s, a) {
      EnteredReady(s, a);
    } else {
      StillReady(s, a);
    }
  }

  lemma HandledSound(s: System, a: Arrival)
    requires ReadyOutOfOrder(s, a)
    ensures SoundAfter(s, a, HandleOutOfOrder(s.qp, EventOf(a, s.e, s.qp.pmtu)))
  {
    hide ReadyOutOfOrder, SoundAfter, HandleOutOfOrder;
    if a.Type(s.qp.pmtu).First? || a.Type(s.qp.pmtu).Only? {
      FirstOrOnlySound(s, a);
    } else {
      MiddleOrLastSound(s, a);
    }
  }

  lemma OutOfOrderStepSound(s: System, a: Arrival)
    requires Inv(s) && InFlight(s, a)
    requires Enters(s, a) || (s.qp.status.OutOfOrder? && Reported(s, a))
    ensures var r := Step(s, Arrive(a));
            r.Ran? && Inv(r.sys) && AcksSound(a.msg, s.qp.pmtu, r.sys.recved, r.effects)
  {
    var t := Handled(s, a);
    var r := HandleOutOfOrder(t.qp, EventOf(a, t.e, t.qp.pmtu));
    assert SoundAfter(t, a, r) by {
      HandledReady(s, a);
      HandledSound(t, a);
    }
    StepIsHandling(s, a);
    MarkStaysSound(s, a);
    MarkMatches(s, a);
    SoundAfterIsInv(s, a, t, r);
  }

  lemma StepIsHandling(s: System, a: Arrival)
    requires -PSN_MAX_WINDOW_SIZE < a.At() - s.e < PSN_MAX_WINDOW_SIZE
    requires Enters(s, a) || (s.qp.status.OutOfOrder? && Reported(s, a))
    ensures var t := Handled(s, a);
            var r := HandleOutOfOrder(t.qp, EventOf(a, t.e, t.qp.pmtu));
            && t.qp.pmtu == s.qp.pmtu
            && (r.Next? ==> Step(s, Arrive(a)) == Ran(AfterStep(s, a, t, r.qp), r.effects))
  {
    hide HandleOutOfOrder, MarkAfter;
    EventDiffers(s, a);
  }

  // The recorded mark is the one the checker holds.
  lemma MarkMatches(s: System, a: Arrival)
    requires Inv(s) && InFlight(s, a)
    requires Enters(s, a) || (s.qp.status.OutOfOrder? && Reported(s, a))
    ensures var p := Handled(s, a).qp.perQp;
            p.Some? && p.value.UpdateLargest(Wire(a.At())).largestPsnRecved == Wire(MarkAfter(s, a))
  {
    NearestZeroIsNear(a.At());
  }

  ghost function AfterStep(s: System, a: Arrival, t: System, qp: Qp): System {
    AfterOutOfOrder(t, a, qp).(e := if a.At() >= s.e then a.At() + 1 else s.e, mark := MarkAfter(s, a))
  }

  lemma SoundAfterIsInv(s: System, a: Arrival, t: System, r: Outcome)
    requires Inv(s) && SoundAfter(t, a, r)
    requires t.recved == s.recved + iset{a.At()} && t.base == s.base
    requires r.qp.perQp.value.largestPsnRecved == Wire(MarkAfter(s, a))
    requires MarkSound(s.base, if a.At() >= s.e then a.At() + 1 else s.e, t.recved, MarkAfter(s, a))
    ensures Inv(AfterStep(s, a, t, r.qp))
  {
    hide WindowSound, MarkAfter, AcksSound;
    var u := AfterOutOfOrder(t, a, r.qp);
    var s' := AfterStep(s, a, t, r.qp);
    forall m | Open(s', m) ensures ContextSound(s', m) {
      assert Open(u, m) && ContextSound(u, m);
    }
  }

  // The 24-bit comparison that detects a gap agrees with the unbounded one.
  lemma EventDiffers(s: System, a: Arrival)
    requires -PSN_MAX_WINDOW_SIZE < a.At() - s.e < PSN_MAX_WINDOW_SIZE
    ensures Wire(a.At()) == Wire(s.e) <==> a.At() == s.e
  {
    WireSub(a.At(), s.e);
    WireNear(a.At(), s.e);
  }

  lemma StillReady(s: System, a: Arrival)
    requires Inv(s) && InFlight(s, a) && s.qp.status.OutOfOrder?
    ensures ReadyOutOfOrder(s.(recved := s.recved + iset{a.At()}), a)
  {
    hide WindowView.Inserted, WellFormed, Covers;
    var t := s.(recved := s.recved + iset{a.At()});
    forall m | Open(t, m) ensures ContextSound(t, m) && t.owner[m].start < t.e {
      assert Open(s, m) && ContextSound(s, m);
      WindowSoundGrows(s.qp.perQp.value.contexts[m].recvMap.value, s.owner[m], s.qp.pmtu, s.recved, t.recved);
    }
  }

  lemma NormalStepSound(s: System, a: Arrival)
    requires Inv(s) && InFlight(s, a)
    requires s.qp.status.Normal? && a.At() == s.e
    ensures var r := Step(s, Arrive(a));
            r.Ran? && Inv(r.sys) && AcksSound(a.msg, s.qp.pmtu, r.sys.recved, r.effects)
  {
    hide WindowSound;
    var r := Step(s, Arrive(a));
    var s' := r.sys;
    forall m | Open(s', m) ensures ContextSound(s', m) {
      if Open(s, m) {
        assert ContextSound(s, m);
      }
    }
  }

  lemma QuietStepSound(s: System, a: Arrival)
    requires Inv(s) && InFlight(s, a)
    requires s.qp.status.OutOfOrder? && !Reported(s, a)
    ensures var r := Step(s, Arrive(a)); r.Ran? && Inv(r.sys) && r.effects == []
  {
    hide WindowView.Inserted, WellFormed, Covers;
    StillReady(s, a);
    MarkStaysSound(s, a);
    var s' := Step(s, Arrive(a)).sys;
    forall m | Open(s', m) ensures ContextSound(s', m) {
      assert ContextSound(s.(recved := s.recved + iset{a.At()}), m);
    }
  }

  // Every admissible step runs without a panic, keeps the invariant, and acknowledges a message
  // only when all of its packets have arrived.
  lemma StepSound(s: System, act: Action)
    requires Inv(s) && Admissible(s, act)
    ensures var r := Step(s, act);
            && r.Ran? && Inv(r.sys)
            && (act.Arrive? ==> AcksSound(act.arrival.msg, s.qp.pmtu, r.sys.recved, r.effects))
            && (act.Read? ==> r.effects == [SendReadResp(act.msn)])
  {
    match act
    case Read(msn) =>
      hide WindowSound;
      var s' := Step(s, act).sys;
      forall m | Open(s', m) ensures ContextSound(s', m) {
        assert ContextSound(s, m);
      }
    case Arrive(a) =>
      hide Inv, InFlight, Step, AcksSound, Reported;
      if s.qp.status.Normal? && a.At() == s.e {
        NormalStepSound(s, a);
      } else if Enters(s, a) || Reported(s, a) {
        OutOfOrderStepSound(s, a);
      } else {
        QuietStepSound(s, a);
      }
  }

  // ---- whole runs -------------------------------------------------------------------------------------

  ghost predicate AdmissibleRun(s: System, acts: seq<Action>)
    decreases |acts|
  {
    acts != [] ==>
      && Admissible(s, acts[0])
      && (var r := Step(s, acts[0]); r.Ran? ==> AdmissibleRun(r.sys, acts[1..]))
  }

  ghost predicate StepIsSound(s: System, act: Action) {
    var r := Step(s, act);
    && r.Ran?
    && (act.Arrive? ==> AcksSound(act.arrival.msg, s.qp.pmtu, r.sys.recved, r.effects))
    && (act.Read? ==> r.effects == [SendReadResp(act.msn)])
  }

  // No step of the run panics, and each acknowledges only what has completely arrived by then.
  ghost predicate RunsSoundly(s: System, acts: seq<Action>)
    decreases |acts|
  {
    acts != [] ==> StepIsSound(s, acts[0]) && RunsSoundly(Step(s, acts[0]).sys, acts[1..])
  }

  // The state that a run leads to.
  ghost function RunTo(s: System, acts: seq<Action>): System
    decreases |acts|
  {
    if acts == [] then s
    else
      var r := Step(s, acts[0]);
      if r.Ran? then RunTo(r.sys, acts[1..]) else s
  }

  lemma {:induction false} InvRunsSoundly(s: System, acts: seq<Action>)
    requires Inv(s) && AdmissibleRun(s, acts)
    ensures RunsSoundly(s, acts)
    decreases |acts|
  {
    hide Inv, Step, Admissible, AcksSound;
    if acts != [] {
      StepSound(s, acts[0]);
      InvRunsSoundly(Step(s, acts[0]).sys, acts[1..]);
    }
  }

  // Acknowledgement soundness: over any loss, duplication and reordering of the packets in
  // flight, from any first PSN.
  lemma AckSoundness(pmtu: Pmtu, base: int, acts: seq<Action>)
    requires AdmissibleRun(Init(pmtu, base), acts)
    ensures RunsSoundly(Init(pmtu, base), acts)
  {
    InvRunsSoundly(Init(pmtu, base), acts);
  }
}
