// What a single packet answers: exactly when it is acknowledged, wakes the user or ends a retry.

module CheckerAcks {
  import opened Psn
  import opened Wrappers
  import opened RecvWindow
  import opened PacketLength
  import opened Checker
  import opened CheckerRuns

  // ---- counting ------------------------------------------------------------------------------------------

  // The number of acknowledgements of a message.
  ghost function Acks(effects: seq<Effect>, msn: Msn): nat {
    if effects == [] then 0
    else (if effects[0].SendAck? && effects[0].msn == msn then 1 else 0) + Acks(effects[1..], msn)
  }

  lemma {:induction false} AcksConcat(a: seq<Effect>, b: seq<Effect>, msn: Msn)
    ensures Acks(a + b, msn) == Acks(a, msn) + Acks(b, msn)
    decreases |a|
  {
    if a == [] {
      assert a + b == b;
    } else {
      assert (a + b)[1..] == a[1..] + b;
      AcksConcat(a[1..], b, msn);
    }
  }

  lemma {:induction false} NoAcks(effects: seq<Effect>, msn: Msn)
    requires forall x :: x in effects && x.SendAck? ==> x.msn != msn
    ensures Acks(effects, msn) == 0
    decreases |effects|
  {
    if effects != [] {
      NoAcks(effects[1..], msn);
    }
  }

  lemma AcksOne(x: Effect, msn: Msn)
    ensures Acks([x], msn) == if x.SendAck? && x.msn == msn then 1 else 0
  {
    assert Acks([x][1..], msn) == 0;
  }

  lemma AcksTwo(x: Effect, y: Effect, msn: Msn)
    ensures Acks([x, y], msn) == Acks([x], msn) + Acks([y], msn)
  {
    assert [x, y] == [x] + [y];
    AcksConcat([x], [y], msn);
  }

  // ---- in order ------------------------------------------------------------------------------------------

  predicate Ends(e: WriteEvent) {
    e.writeType.Last? || e.writeType.Only?
  }

  // The packet that ends a message is acknowledged once, unless the card did it or it answers a read; the end
  // of a read wakes the user; the end of a write of several packets ends its retries. There is nothing else.
  ghost predicate AnswersExactly(e: WriteEvent, effects: seq<Effect>) {
    && Acks(effects, e.msn) == (if Ends(e) && !e.isReadResp && !e.canAutoAck then 1 else 0)
    && (WakeUser(e.msn) in effects <==> Ends(e) && e.isReadResp)
    && (CancelRetry(e.msn) in effects <==> e.writeType.Last? && !e.isReadResp)
    && (forall x :: x in effects ==> x in {SendAck(e.msn, e.psn), WakeUser(e.msn), CancelRetry(e.msn)})
  }

  lemma InOrderAnswers(q: Qp, e: WriteEvent)
    requires q.status.Normal? && e.expectedPsn == e.psn
    ensures var r := HandleEvent(q, Write(e)); r.Next? && AnswersExactly(e, r.effects)
  {
    AcksOne(SendAck(e.msn, e.psn), e.msn);
    AcksOne(CancelRetry(e.msn), e.msn);
    AcksOne(WakeUser(e.msn), e.msn);
    AcksTwo(SendAck(e.msn, e.psn), CancelRetry(e.msn), e.msn);
    var r := HandleEvent(q, Write(e));
    if e.writeType.Last? && !e.isReadResp {
      assert r.effects == if e.canAutoAck then [CancelRetry(e.msn)] else [SendAck(e.msn, e.psn), CancelRetry(e.msn)];
    }
  }

  // A message of one packet is answered in the same way when the queue pair is out of order.
  lemma OnlyAnswers(q: Qp, e: WriteEvent)
    requires q.perQp.Some? && q.status.OutOfOrder? && e.writeType.Only?
    ensures var r := HandleEvent(q, Write(e)); r.Next? && AnswersExactly(e, r.effects)
  {
    AcksOne(SendAck(e.msn, e.psn), e.msn);
    AcksOne(WakeUser(e.msn), e.msn);
  }

  // ---- out of order -----------------------------------------------------------------------------------------

  // The range that comes before the packet takes in offset x.
  ghost predicate InRange(w: WindowView, largest: Psn, expected: Psn, x: int) {
    var range := GetContinuousRange(largest, expected);
    && range.Some? && w.Accepts(range.value.0, range.value.1)
    && WrappingSub(range.value.0, w.startPsn) <= x <= WrappingSub(range.value.1, w.startPsn)
  }

  // The offset is covered, or in the range, or that of the packet.
  ghost predicate Filled(w: WindowView, largest: Psn, e: WriteEvent, x: int) {
    Covers(w.intervals, x) || InRange(w, largest, e.expectedPsn, x) || x == WrappingSub(e.psn, w.startPsn)
  }

  // The packet belongs to the message, and the range loses nothing by running past an interval.
  ghost predicate Regular(w: WindowView, largest: Psn, e: WriteEvent) {
    && Sane(w.intervals) && !w.IsComplete() && WrappingSub(e.psn, w.startPsn) < w.numOfPackets <= PSN_MAX_WINDOW_SIZE
    && var range := GetContinuousRange(largest, e.expectedPsn);
       range.Some? && w.Accepts(range.value.0, range.value.1) ==>
         !RunsPastNext(w.intervals, WrappingSub(range.value.0, w.startPsn), WrappingSub(range.value.1, w.startPsn))
  }

  // One accepted insertion that does not run past the next interval is a union.
  lemma InsertedIsUnion(w: WindowView, from: Psn, to: Psn)
    requires Sane(w.intervals) && !w.IsComplete() && w.Accepts(from, to) && WrappingSub(to, from) <= PSN_MAX_WINDOW_SIZE
    requires !RunsPastNext(w.intervals, WrappingSub(from, w.startPsn), WrappingSub(to, w.startPsn))
    ensures forall x: int :: Covers(w.Inserted(from, to).intervals, x) <==>
              Covers(w.intervals, x) || WrappingSub(from, w.startPsn) <= x <= WrappingSub(to, w.startPsn)
  {
    hide Covers, WellFormed, RunsPastNext, InsertedRange;
    AcceptedIsOrdered(w, from, to);
    InsertedRangeIsUnionIff(w.intervals, WrappingSub(from, w.startPsn), WrappingSub(to, w.startPsn));
  }

  // A single offset never runs past an interval.
  lemma PointFits(m: Intervals, x: nat)
    requires WellFormed(m)
    ensures !RunsPastNext(m, x, x)
  {
  }

  // What the window covers afterwards; once it is complete it is not added to any more.
  lemma RecordedCover(w: WindowView, largest: Psn, e: WriteEvent)
    requires Regular(w, largest, e)
    ensures var w' := RecordPacket(w, largest, e);
            && w'.startPsn == w.startPsn && w'.numOfPackets == w.numOfPackets && Sane(w'.intervals)
            && (forall x: int :: Covers(w'.intervals, x) ==> Filled(w, largest, e, x))
            && (forall x: int :: Filled(w, largest, e, x) ==> Covers(w'.intervals, x))
  {
    hide Covers, WellFormed, RunsPastNext, WindowView.Inserted, Bounded;
    RecordSane(w, largest, e);
    var range := GetContinuousRange(largest, e.expectedPsn);
    var w1 := if range.Some? then w.Inserted(range.value.0, range.value.1) else w;
    RangeSane(w, largest, e.expectedPsn);
    if range.Some? && w.Accepts(range.value.0, range.value.1) {
      InsertedIsUnion(w, range.value.0, range.value.1);
    } else if range.Some? {
      NotInserted(w, range.value.0, range.value.1);
    }
    assert forall x: int ::
        Covers(w1.intervals, x) <==> Covers(w.intervals, x) || InRange(w, largest, e.expectedPsn, x);
    var off := WrappingSub(e.psn, w.startPsn);
    if w1.IsComplete() {
      CompleteIff(w1);
      NotInserted(w1, e.psn, e.psn);
    } else {
      PointFits(w1.intervals, off);
      InsertedIsUnion(w1, e.psn, e.psn);
    }
  }

  lemma NotInserted(w: WindowView, from: Psn, to: Psn)
    requires w.IsComplete() || !w.Accepts(from, to)
    ensures w.Inserted(from, to) == w
  {
  }

  // The message is complete after the packet exactly when its offsets are then filled and the one after them
  // is not.
  lemma CompletesIff(w: WindowView, largest: Psn, e: WriteEvent)
    requires Regular(w, largest, e)
    ensures RecordPacket(w, largest, e).IsComplete() <==>
            && (forall x: int :: 0 <= x < w.numOfPackets ==> Filled(w, largest, e, x))
            && !Filled(w, largest, e, w.numOfPackets)
  {
    hide Covers, WellFormed, Filled, RecordPacket;
    RecordedCover(w, largest, e);
    CompleteIff(RecordPacket(w, largest, e));
  }

  // A Middle or Last packet of an open message is answered by exactly one acknowledgement, with the PSN that
  // ends the message, if it fills the message, and otherwise by none; a read then wakes the user instead.
  lemma OutOfOrderAnswersIff(q: Qp, e: WriteEvent)
    requires q.status.OutOfOrder? && q.perQp.Some? && e.msn in q.perQp.value.contexts
    requires e.writeType.Middle? || e.writeType.Last?
    requires var c := q.perQp.value.contexts[e.msn];
             c.recvMap.Some? && Regular(c.recvMap.value, q.perQp.value.largestPsnRecved, e)
    ensures var r, c := HandleEvent(q, Write(e)), q.perQp.value.contexts[e.msn];
            var w, largest := c.recvMap.value, q.perQp.value.largestPsnRecved;
            var fills := && (forall x: int :: 0 <= x < w.numOfPackets ==> Filled(w, largest, e, x))
                         && !Filled(w, largest, e, w.numOfPackets);
            && r.Next?
            && Acks(r.effects, e.msn) == (if fills && !c.isReadResp then 1 else 0)
            && (fills && !c.isReadResp ==>
                  SendAck(e.msn, WrappingAdd(w.startPsn, w.numOfPackets - 1)) in r.effects)
            && (CancelRetry(e.msn) in r.effects <==> fills && !c.isReadResp)
            && (WakeUser(e.msn) in r.effects <==> fills && c.isReadResp)
  {
    hide Filled, RecordPacket, WindowView.IsComplete, WindowView.RecoverPanics, WindowView.GapPanics,
         WindowView.TryGetRecoverPsn, WindowView.RecentGap, LargerInPsn, Regular, Sane, HandleEvent, Done, GapEffects;
    var c, largest := q.perQp.value.contexts[e.msn], q.perQp.value.largestPsnRecved;
    var w := RecordPacket(c.recvMap.value, largest, e);
    CompletesIff(c.recvMap.value, largest, e);
    RecordedCover(c.recvMap.value, largest, e);
    SaneNeverPanics(w);
    var recover := EffectsShape(q, e, w);
    ShapeAnswers(GapEffects(w, e.msn), w.IsComplete(), c.isReadResp, e.msn, w.LastPsn(), recover);
  }

  // The end of a message: nothing, the user is woken, or an acknowledgement and the end of the retries.
  ghost function Done(complete: bool, isReadResp: bool, msn: Msn, psn: Psn): seq<Effect> {
    if !complete then [] else if isReadResp then [WakeUser(msn)] else [SendAck(msn, psn), CancelRetry(msn)]
  }

  ghost predicate GapReport(effects: seq<Effect>) {
    |effects| <= 1 && forall x :: x in effects ==> x.SendNack?
  }

  ghost predicate RecoverRequest(effects: seq<Effect>) {
    |effects| <= 1 && forall x :: x in effects ==> x.TryRecover?
  }

  lemma EffectsShape(q: Qp, e: WriteEvent, w: WindowView) returns (recover: seq<Effect>)
    requires q.status.OutOfOrder? && q.perQp.Some? && e.msn in q.perQp.value.contexts
    requires (e.writeType.Middle? || e.writeType.Last?) && q.perQp.value.contexts[e.msn].recvMap.Some?
    requires w == RecordPacket(q.perQp.value.contexts[e.msn].recvMap.value, q.perQp.value.largestPsnRecved, e)
    requires !w.RecoverPanics() && !w.GapPanics()
    ensures var r, c := HandleEvent(q, Write(e)), q.perQp.value.contexts[e.msn];
            && r.Next? && RecoverRequest(recover) && GapReport(GapEffects(w, e.msn))
            && r.effects == GapEffects(w, e.msn) + (Done(w.IsComplete(), c.isReadResp, e.msn, w.LastPsn()) + recover)
            && r.qp.perQp.Some? && recover == RecoverEffects(r.qp.perQp.value, w.TryGetRecoverPsn())
  {
    hide RecordPacket, WindowView.IsComplete, WindowView.RecoverPanics, WindowView.GapPanics,
         WindowView.TryGetRecoverPsn, WindowView.RecentGap, LargerInPsn, WindowView.LastPsn;
    var p, c := q.perQp.value, q.perQp.value.contexts[e.msn];
    var p' := p.(contexts := p.contexts[e.msn := c.(recvMap := Some(w))]).UpdateLargest(e.psn);
    var q' := if w.IsComplete() then WithoutCtx(q.(perQp := Some(p')), e.msn) else q.(perQp := Some(p'));
    recover := RecoverEffects(q'.perQp.value, w.TryGetRecoverPsn());
  }

  lemma ShapeAnswers(gap: seq<Effect>, complete: bool, isReadResp: bool, msn: Msn, psn: Psn, recover: seq<Effect>)
    requires GapReport(gap) && RecoverRequest(recover)
    ensures var effects := gap + (Done(complete, isReadResp, msn, psn) + recover);
            && Acks(effects, msn) == (if complete && !isReadResp then 1 else 0)
            && (complete && !isReadResp ==> SendAck(msn, psn) in effects)
            && (CancelRetry(msn) in effects <==> complete && !isReadResp)
            && (WakeUser(msn) in effects <==> complete && isReadResp)
  {
    var done := Done(complete, isReadResp, msn, psn);
    var effects := gap + (done + recover);
    NoAcks(gap, msn);
    NoAcks(recover, msn);
    AcksConcat(gap, done + recover, msn);
    AcksConcat(done, recover, msn);
    AcksOne(WakeUser(msn), msn);
    AcksOne(CancelRetry(msn), msn);
    AcksOne(SendAck(msn, psn), msn);
    AcksTwo(SendAck(msn, psn), CancelRetry(msn), msn);
    if complete {
      assert effects[|gap|] == done[0] && effects[|gap| + |done| - 1] == done[|done| - 1];
    }
  }

  // ---- reports of gaps and requests to recover ------------------------------------------------------------------

  // Something is missing before something that is covered.
  ghost predicate HasHole(m: Intervals) {
    exists x: int, y: int :: 0 <= x < y && !Covers(m, x) && Covers(m, y)
  }

  // lo..hi is the last hole: what is covered beyond it leaves none.
  ghost predicate LastHole(m: Intervals, lo: int, hi: int) {
    && 0 < lo <= hi && Covers(m, lo - 1) && Covers(m, hi + 1)
    && (forall x: int :: lo <= x <= hi ==> !Covers(m, x))
    && (forall x: int, y: int :: hi < x <= y && Covers(m, y) ==> Covers(m, x))
  }

  lemma HoleIff(m: Intervals)
    requires Sane(m)
    ensures |m| > 1 <==> HasHole(m)
  {
    assert 0 in m && m.Keys != {};
    if |m| > 1 {
      var l, k := LastKey(m), SecondLastKey(m);
      assert Covers(m, l) && !Covers(m, l - 1);
    } else {
      var last := LastKey(m);
      assert |m.Keys - {last}| == 0;
      assert forall k :: k in m ==> k in (m.Keys - {last}) || k == last;
      assert forall k :: k in m ==> k == 0;
    }
  }

  // The pair that is reported lies beyond both ends of the last hole.
  lemma GapIsBeside(w: WindowView) returns (lo: int, hi: int)
    requires Sane(w.intervals) && |w.intervals| > 1
    ensures LastHole(w.intervals, lo, hi)
    ensures w.RecentGap() == Some(((hi + 2) % BORDER, (lo - 2) % BORDER))
  {
    var m := w.intervals;
    var last, second := LastKey(m), SecondLastKey(m);
    lo, hi := m[second] + 1, last - 1;
    assert Covers(m, lo - 1) && Covers(m, hi + 1);
    forall x: int, y: int | hi < x <= y && Covers(m, y) ensures Covers(m, x) {
      assert last <= x <= m[last];
    }
  }

  // A packet of an open message leads to the report of a gap exactly when its window then has a hole.
  lemma GapReportedIff(q: Qp, e: WriteEvent, start: Psn, end: Psn)
    requires q.status.OutOfOrder? && q.perQp.Some? && e.msn in q.perQp.value.contexts
    requires e.writeType.Middle? || e.writeType.Last?
    requires var c := q.perQp.value.contexts[e.msn]; c.recvMap.Some? && Sane(c.recvMap.value.intervals)
    ensures var r, c := HandleEvent(q, Write(e)), q.perQp.value.contexts[e.msn];
            var m := RecordPacket(c.recvMap.value, q.perQp.value.largestPsnRecved, e).intervals;
            && r.Next?
            && (SendNack(e.msn, start, end) in r.effects <==>
                  exists lo: int, hi: int ::
                    LastHole(m, lo, hi) && start == (hi + 2) % BORDER && end == (lo - 2) % BORDER)
  {
    hide RecordPacket, WindowView.IsComplete, WindowView.RecoverPanics, WindowView.GapPanics,
         WindowView.TryGetRecoverPsn, WindowView.RecentGap, LargerInPsn, HandleEvent, Done, WindowView.LastPsn, Sane,
         LastHole, RecoverEffects;
    var c, largest := q.perQp.value.contexts[e.msn], q.perQp.value.largestPsnRecved;
    var w := RecordPacket(c.recvMap.value, largest, e);
    RecordSane(c.recvMap.value, largest, e);
    SaneNeverPanics(w);
    var recover := EffectsShape(q, e, w);
    DoneIsNoReport(w.IsComplete(), c.isReadResp, e.msn, w.LastPsn());
    HoleIff(w.intervals);
    GapNone(w);
    if |w.intervals| > 1 {
      var lo, hi := GapIsBeside(w);
      assert GapEffects(w, e.msn)[0] == SendNack(e.msn, (hi + 2) % BORDER, (lo - 2) % BORDER);
      forall lo': int, hi': int | LastHole(w.intervals, lo', hi') ensures lo' == lo && hi' == hi {
        OneLastHole(w.intervals, lo, hi, lo', hi');
      }
    } else {
      forall lo: int, hi: int ensures !LastHole(w.intervals, lo, hi) {
        LastHoleIsHole(w.intervals, lo, hi);
      }
    }
  }

  lemma GapNone(w: WindowView)
    ensures |w.intervals| <= 1 ==> w.RecentGap().None?
  {
  }

  lemma DoneIsNoReport(complete: bool, isReadResp: bool, msn: Msn, psn: Psn)
    ensures forall x :: x in Done(complete, isReadResp, msn, psn) ==> !x.SendNack? && !x.TryRecover?
  {
  }

  lemma LastHoleIsHole(m: Intervals, lo: int, hi: int)
    ensures LastHole(m, lo, hi) ==> HasHole(m)
  {
    hide Covers;
    if LastHole(m, lo, hi) {
      assert !Covers(m, hi) && Covers(m, hi + 1);
    }
  }

  lemma OneLastHole(m: Intervals, lo: int, hi: int, lo': int, hi': int)
    requires LastHole(m, lo, hi) && LastHole(m, lo', hi')
    ensures lo == lo' && hi == hi'
  {
    hide Covers;
    assert Covers(m, hi + 1) && !Covers(m, hi) && Covers(m, hi' + 1) && !Covers(m, hi');
    assert Covers(m, lo - 1) && Covers(m, lo' - 1);
  }

  // k is the first offset that is missing.
  ghost predicate FirstMissing(m: Intervals, k: nat) {
    !Covers(m, k) && forall j :: 0 <= j < k ==> Covers(m, j)
  }

  // A packet of an open message leads to a request to recover exactly when at most one message is left open, the
  // window is complete or has no hole, and what it misses first is the PSN after the watermark.
  lemma RecoverRequestedIff(q: Qp, e: WriteEvent, psn: Psn)
    requires q.status.OutOfOrder? && q.perQp.Some? && e.msn in q.perQp.value.contexts
    requires e.writeType.Middle? || e.writeType.Last?
    requires var c := q.perQp.value.contexts[e.msn]; c.recvMap.Some? && Sane(c.recvMap.value.intervals)
    ensures var r, c := HandleEvent(q, Write(e)), q.perQp.value.contexts[e.msn];
            var w := RecordPacket(c.recvMap.value, q.perQp.value.largestPsnRecved, e);
            && r.Next? && r.qp.perQp.Some?
            && (TryRecover(psn) in r.effects <==>
                  && |r.qp.perQp.value.contexts| <= 1 && (w.IsComplete() || !HasHole(w.intervals))
                  && psn == WrappingAdd(r.qp.perQp.value.largestPsnRecved, 1)
                  && exists k: nat :: FirstMissing(w.intervals, k) && psn == WrappingAdd(w.startPsn, k))
  {
    hide RecordPacket, WindowView.IsComplete, WindowView.RecoverPanics, WindowView.GapPanics, Done, WindowView.LastPsn,
         WindowView.TryGetRecoverPsn, WindowView.RecentGap, LargerInPsn, HandleEvent, Sane, HasHole, WrappingAdd;
    var c, largest := q.perQp.value.contexts[e.msn], q.perQp.value.largestPsnRecved;
    var w := RecordPacket(c.recvMap.value, largest, e);
    RecordSane(c.recvMap.value, largest, e);
    SaneNeverPanics(w);
    HoleIff(w.intervals);
    RecoverPoint(w, psn);
    var recover := EffectsShape(q, e, w);
    DoneIsNoReport(w.IsComplete(), c.isReadResp, e.msn, w.LastPsn());
    var r := HandleEvent(q, Write(e));
    var gap, done := GapEffects(w, e.msn), Done(w.IsComplete(), c.isReadResp, e.msn, w.LastPsn());
    var x := TryRecover(psn);
    assert x in r.effects <==> x in gap || x in done || x in recover;
    assert TryRecover(psn) in recover <==>
           |r.qp.perQp.value.contexts| <= 1 && w.TryGetRecoverPsn() == Some(psn)
           && psn == WrappingAdd(r.qp.perQp.value.largestPsnRecved, 1);
  }

  lemma RecoverPoint(w: WindowView, psn: Psn)
    requires Sane(w.intervals)
    ensures !w.RecoverPanics()
    ensures w.TryGetRecoverPsn().Some? <==> w.IsComplete() || |w.intervals| <= 1
    ensures w.TryGetRecoverPsn().Some? ==>
              (psn == w.TryGetRecoverPsn().value <==>
                 exists k: nat :: FirstMissing(w.intervals, k) && psn == WrappingAdd(w.startPsn, k))
  {
    if !w.IsOutOfOrder() {
      RecoverIsLeastMissing(w);
      var k: nat :| !Covers(w.intervals, k) && (forall j :: 0 <= j < k ==> Covers(w.intervals, j))
                 && w.TryGetRecoverPsn() == Some(WrappingAdd(w.startPsn, k));
      assert FirstMissing(w.intervals, k);
      forall k': nat | FirstMissing(w.intervals, k') ensures k' == k {
      }
    }
  }

  // ---- opening a message ----------------------------------------------------------------------------------------

  // The first packet of a message that is not known opens it, in order and out of order, and what it says is
  // remembered: whether it answers a read, where the message begins and how long it is.
  lemma FirstOpensAsSent(q: Qp, e: WriteEvent)
    requires e.writeType.First? && StatusOf(q, e.msn) == NoExist
    requires q.status.Normal? || q.perQp.Some?
    ensures var r := HandleEvent(q, Write(e));
            && r.Next? && r.effects == [] && r.qp.perQp.Some? && e.msn in r.qp.perQp.value.contexts
            && var c := r.qp.perQp.value.contexts[e.msn];
               && c.isReadResp == e.isReadResp && c.startPsn == e.psn && c.startAddr == e.addr && c.lenInBytes == e.len
               && (r.qp.status.OutOfOrder? ==>
                     && c.recvMap.Some? && c.recvMap.value.startPsn == e.psn
                     && c.recvMap.value.numOfPackets == CalculatePacketCnt(q.pmtu, e.addr, e.len)
                     && forall x: int :: Covers(c.recvMap.value.intervals, x) <==> x == 0)
  {
    hide CalculatePacketCnt, CreateMapOnPsn, LargerInPsn;
    var w := WindowView(map[], e.psn, CalculatePacketCnt(q.pmtu, e.addr, e.len)).Inserted(e.psn, e.psn);
    assert w.intervals == map[0 := 0];
    forall x: int ensures Covers(w.intervals, x) <==> x == 0 {
      assert 0 in w.intervals;
    }
  }

  // A message that is known is not opened again.
  lemma KnownIsNotOpened(q: Qp, e: WriteEvent)
    requires e.writeType.First? && q.perQp.Some? && StatusOf(q, e.msn) != NoExist
    requires q.status.OutOfOrder? || e.expectedPsn == e.psn
    ensures var r := HandleEvent(q, Write(e));
            && r.Next? && r.effects == [] && r.qp.perQp.Some?
            && r.qp.perQp.value.contexts == q.perQp.value.contexts
            && r.qp.perQp.value.recentMsn == q.perQp.value.recentMsn
  {
    hide LargerInPsn;
  }

  // ---- other events ---------------------------------------------------------------------------------------------

  // A positive acknowledgement wakes the user, a negative one has the part between the two PSNs sent again, and
  // neither touches the queue pair; a read request is answered by a response and its MSN counts as finished.
  lemma ControlAnswers(q: Qp, e: Event)
    requires !e.Write?
    ensures var r := HandleEvent(q, e);
            && r.Next? && r.qp.status == q.status && r.qp.pmtu == q.pmtu
            && (WakeUser(e.msn) in r.effects <==> e.Acked? && e.code == Ack)
            && (forall from, to :: ResendPart(e.msn, from, to) in r.effects <==>
                  e.Acked? && e.code == Nak && from == e.psn && to == e.expectedPsn)
            && (SendReadResp(e.msn) in r.effects <==> e.ReadReq?)
            && (e.Acked? ==> r.qp == q)
            && (e.ReadReq? && q.perQp.Some? ==> r.qp.perQp.Some? && StatusOf(r.qp, e.msn) == Finished)
  {
  }
}
