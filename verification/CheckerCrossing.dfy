// Streams that run across 2^23 in 24-bit PSNs.
//
// A context table that is created in order starts with a largest received PSN of 0. When the first gap
// is seen at or beyond 2^23, that 0 is taken for a PSN ahead, and the next packet below 2^23 replaces it
// by a PSN that may be far behind a missing one. From then on the range between the mark and the expected
// PSN no longer consists of received packets. It does reach beyond every message that ends below 2^23,
// so a window of such a message that takes it in covers one offset too many and never completes.

module CheckerCrossing {
  import opened Psn
  import opened RecvWindow
  import opened PacketLength
  import opened Checker
  import opened CheckerRuns
  import opened CheckerStreams

  // The first PSN of a crossing stream that is 2^23 or more modulo 2^24.
  ghost function Boundary(base: int): int {
    base - Wire(base) + PSN_MAX_WINDOW_SIZE
  }

  // What the 0 in a new context table is taken for at or beyond the boundary.
  ghost function Far(base: int): int {
    base - Wire(base) + BORDER
  }

  // Messages of three packets or more end below the boundary.
  ghost predicate LongEndBelow(t: Stream) {
    forall m :: m in t.msgs && m.Count(t.pmtu) >= 3 ==> m.start + m.Count(t.pmtu) <= Boundary(t.base)
  }

  // Where the PSNs of a crossing stream lie.
  lemma CrossingPsn(t: Stream, p: int)
    requires t.Valid() && CrossesHalf(t.base, t.end) && t.base <= p < t.end
    ensures 2 <= Wire(t.base) < PSN_MAX_WINDOW_SIZE
    ensures Wire(p) == p - Boundary(t.base) + PSN_MAX_WINDOW_SIZE
    ensures 2 <= Wire(p) < BORDER && Wire(Far(t.base)) == 0
    ensures LargerInPsn(0, Wire(p)) <==> p >= Boundary(t.base)
    ensures NearestZero(p) == if p >= Boundary(t.base) then Far(t.base) else Far(t.base) - BORDER
  {
    var w := Wire(t.base);
    var q := (t.base - w) / BORDER;
    assert t.base == w + q * BORDER;
    ModShift(w + (p - t.base), q);
    ModShift(0, q);
    ModShift(0, q + 1);
    hide NearestZero;
    NearestZeroIsUnique(p, if p >= Boundary(t.base) then Far(t.base) else Far(t.base) - BORDER);
  }

  // ---- windows ---------------------------------------------------------------------------------------------

  ghost predicate WindowFits(w: WindowView, m: Message, pmtu: Pmtu) {
    w.startPsn == Wire(m.start) && w.numOfPackets == m.Count(pmtu) && Sane(w.intervals)
  }

  // Either the offset after the message is covered, or what is covered of the message has arrived and no
  // interval inside the message starts after low.
  ghost predicate Tame(i: Intervals, m: Message, pmtu: Pmtu, recved: iset<int>, low: int) {
    var n := m.Count(pmtu);
    || Covers(i, n)
    || ((forall x: int :: 0 <= x < n && Covers(i, x) ==> m.start + x in recved)
        && (forall k :: k in i && 0 < k < n ==> m.start + k <= low))
  }

  lemma FitsAfterPacket(w: WindowView, m: Message, pmtu: Pmtu, largest: Psn, e: WriteEvent)
    requires WindowFits(w, m, pmtu)
    ensures WindowFits(RecordPacket(w, largest, e), m, pmtu)
  {
    hide RecordPacket, Sane;
    RecordSane(w, largest, e);
  }

  lemma TameGrows(i: Intervals, m: Message, pmtu: Pmtu, recved: iset<int>, low: int, more: iset<int>, higher: int)
    requires Tame(i, m, pmtu, recved, low) && recved <= more && low <= higher
    ensures Tame(i, m, pmtu, more, higher)
  {
  }

  // Any insertion keeps a window tame if the offsets it adds inside the message have arrived and its
  // left end is not an interval start after low inside the message.
  lemma TameAfter(i: Intervals, m: Message, pmtu: Pmtu, recved: iset<int>, low: int, left: nat, right: nat)
    requires WellFormed(i) && Tame(i, m, pmtu, recved, low) && left <= right
    requires forall p :: m.start + left <= p <= m.start + right && p < m.start + m.Count(pmtu) ==> p in recved
    requires 0 < left < m.Count(pmtu) ==> m.start + left <= low
    ensures Tame(InsertedRange(i, left, right), m, pmtu, recved, low)
  {
    hide InsertedRange, FloorKey, HigherKey, Message.Count, Covers, WellFormed;
    var n: nat := m.Count(pmtu);
    var r := InsertedRange(i, left, right);
    InsertedRangeBounds(i, left, right, n);
    if !Covers(i, n) {
      forall x: int | 0 <= x < n && Covers(r, x) ensures m.start + x in recved {
        InsertedRangeBounds(i, left, right, x);
      }
      forall k | k in r && 0 < k < n ensures m.start + k <= low {
        InsertedRangeKeys(i, left, right, k);
      }
    }
  }

  // A packet of the message itself.
  lemma TameAfterPacket(w: WindowView, m: Message, pmtu: Pmtu, recved: iset<int>, low: int, p: int)
    requires WindowFits(w, m, pmtu) && Tame(w.intervals, m, pmtu, recved, low)
    requires m.start <= p < m.start + PSN_MAX_WINDOW_SIZE && p in recved && p <= low
    ensures Tame(w.Inserted(Wire(p), Wire(p)).intervals, m, pmtu, recved, low)
  {
    hide Tame, InsertedRange, WindowView.IsComplete, WellFormed, Covers, WrappingSub, Wire;
    WireSub(p, m.start);
    WireNear(p, m.start);
    var o: nat := p - m.start;
    TameAfter(w.intervals, m, pmtu, recved, low, o, o);
  }

  // The range from the mark to the expected PSN, when the latter lies beyond the message.
  lemma TameAfterRange(w: WindowView, m: Message, pmtu: Pmtu, recved: iset<int>, mark: int, e: int)
    requires WindowFits(w, m, pmtu) && Tame(w.intervals, m, pmtu, recved, mark)
    requires m.start + m.Count(pmtu) < e < m.start + PSN_MAX_WINDOW_SIZE
    requires -PSN_MAX_WINDOW_SIZE <= mark + 1 - m.start < PSN_MAX_WINDOW_SIZE
    ensures var range := GetContinuousRange(Wire(mark), Wire(e));
            range.Some? ==> Tame(w.Inserted(range.value.0, range.value.1).intervals, m, pmtu, recved, mark)
  {
    hide Tame, InsertedRange, WindowView.IsComplete, WellFormed, Covers, Message.Count;
    var range := GetContinuousRange(Wire(mark), Wire(e));
    if range.Some? {
      var (from, to) := range.value;
      RangeEnds(mark, e);
      if w.Accepts(from, to) {
        AcceptedIsOrdered(w, from, to);
        Offset(mark + 1, m.start);
        Offset(e - 1, m.start);
        hide Wire, WrappingSub;
        TameAfterLongRange(w.intervals, m, pmtu, recved, mark, e - 1 - m.start);
      }
    }
  }

  lemma RangeEnds(mark: int, e: int)
    ensures WrappingAdd(Wire(mark), 1) == Wire(mark + 1) && WrappingSub(Wire(e), 1) == Wire(e - 1)
  {
    WireAdd(mark, 1);
    WireSub(e, 1);
    assert Wire(1) == 1;
  }

  // The offset of a PSN that is within half the circle of the start.
  lemma Offset(p: int, start: int)
    requires -PSN_MAX_WINDOW_SIZE <= p - start < PSN_MAX_WINDOW_SIZE
    ensures WrappingSub(Wire(p), Wire(start)) < PSN_MAX_WINDOW_SIZE <==> p >= start
    ensures p >= start ==> WrappingSub(Wire(p), Wire(start)) == p - start
  {
    WireSub(p, start);
    WireNear(p, start);
  }

  lemma TameAfterLongRange(i: Intervals, m: Message, pmtu: Pmtu, recved: iset<int>, mark: int, right: nat)
    requires WellFormed(i) && Tame(i, m, pmtu, recved, mark)
    requires 0 <= mark + 1 - m.start <= right && m.Count(pmtu) <= right
    ensures Tame(InsertedRange(i, mark + 1 - m.start, right), m, pmtu, recved, mark)
  {
    hide InsertedRange, Message.Count;
    var n: nat, left: nat := m.Count(pmtu), mark + 1 - m.start;
    if Covers(i, n) {
      InsertedRangeBounds(i, left, right, n);
    } else if left <= n {
      LongRangeCovers(i, left, right, n);
    } else {
      TameAfter(i, m, pmtu, recved, mark, left, right);
    }
  }

  // A range across n covers n, if no interval starts between its left end and n.
  lemma LongRangeCovers(i: Intervals, left: nat, right: nat, n: nat)
    requires WellFormed(i) && left <= n <= right
    requires forall k :: k in i && left < k ==> n <= k
    ensures Covers(InsertedRange(i, left, right), n)
  {
    var r := InsertedRange(i, left, right);
    if AlreadyInside(i, left, right) {
      assert FloorKey(i, left).value in r;
    } else {
      InsertedRangeAbsorbs(i, left, right);
      assert NewStart(i, left) in r;
    }
  }

  // While the mark is far, the range is not accepted by a window that starts below the boundary.
  lemma FarRangeRejected(t: Stream, w: WindowView, e: int)
    requires t.Valid() && CrossesHalf(t.base, t.end)
    requires t.base < e <= t.end && 2 <= w.startPsn < PSN_MAX_WINDOW_SIZE
    ensures var range := GetContinuousRange(0, Wire(e));
            range.Some? ==> w.Inserted(range.value.0, range.value.1) == w
  {
    CrossingPsn(t, e - 1);
    WireSub(e, 1);
    assert Wire(1) == 1;
  }

  // ---- states in which the mark may be stale -------------------------------------------------------------------

  // No interval starts inside a long message after this PSN.
  ghost function Low(s: System, t: Stream): int {
    if s.mark == Far(t.base) then t.base - 1 else s.mark
  }

  ghost predicate StaleContext(s: System, t: Stream, k: Msn, low: int)
    requires Open(s, k)
  {
    var c := s.qp.perQp.value.contexts[k];
    && k in s.owner && s.owner[k] in t.msgs && s.owner[k].msn == k
    && ContextMatches(c, s.owner[k])
    && s.owner[k].start in s.recved
    && c.recvMap.Some? && WindowFits(c.recvMap.value, s.owner[k], t.pmtu)
    && (s.owner[k].Count(t.pmtu) >= 3 ==> Tame(c.recvMap.value.intervals, s.owner[k], t.pmtu, s.recved, low))
  }

  ghost predicate Stale(s: System, t: Stream) {
    && s.qp.status.OutOfOrder? && s.qp.pmtu == t.pmtu && s.qp.perQp.Some?
    && s.qp.perQp.value.largestPsnRecved == Wire(s.mark)
    && (s.mark == Far(t.base) || t.base <= s.mark < t.end)
    && Boundary(t.base) < s.e <= t.end
    && (forall k :: Open(s, k) ==> StaleContext(s, t, k, Low(s, t)))
  }

  // A crossing stream whose long messages end below the boundary, and one of its packets.
  ghost predicate Crossing(t: Stream, a: Arrival) {
    t.Valid() && CrossesHalf(t.base, t.end) && LongEndBelow(t) && t.Sends(Arrive(a))
  }

  // A far mark is replaced by the first packet below the boundary; after that the mark is a maximum.
  lemma StaleMark(s: System, t: Stream, a: Arrival)
    requires Crossing(t, a) && s.qp.status.OutOfOrder?
    requires s.mark == Far(t.base) || t.base <= s.mark < t.end
    requires Reported(s, a)
    ensures MarkAfter(s, a) == if s.mark == Far(t.base) then (if a.At() < Boundary(t.base) then a.At() else s.mark)
                               else if a.At() > s.mark then a.At() else s.mark
  {
    CrossingPsn(t, a.At());
    if s.mark != Far(t.base) {
      MarkIsMaximum(s, a);
    }
  }

  // The window of a long message after one of its packets.
  lemma RecordTame(s: System, t: Stream, a: Arrival, w: WindowView, recved: iset<int>, low: int)
    requires Crossing(t, a) && Stale(s, t) && a.msg.Count(t.pmtu) >= 3
    requires WindowFits(w, a.msg, t.pmtu) && Tame(w.intervals, a.msg, t.pmtu, s.recved, Low(s, t))
    requires recved == s.recved + iset{a.At()} && Low(s, t) <= low && a.At() <= low
    ensures Tame(RecordPacket(w, Wire(s.mark), EventOf(a, s.e, t.pmtu)).intervals, a.msg, t.pmtu, recved, low)
  {
    hide Tame, WindowFits, WindowView.Inserted, GetContinuousRange, Wire, Stream.Valid;
    var m := a.msg;
    var range := GetContinuousRange(Wire(s.mark), Wire(s.e));
    var w1 := if range.Some? then w.Inserted(range.value.0, range.value.1) else w;
    StreamBounds(t, m);
    if s.mark == Far(t.base) {
      CrossingPsn(t, m.start);
      FitsStart(w, m, t.pmtu);
      FarRangeRejected(t, w, s.e);
    } else {
      TameAfterRange(w, m, t.pmtu, s.recved, s.mark, s.e);
    }
    FitsAfterRange(w, m, t.pmtu, Wire(s.mark), Wire(s.e));
    TameGrows(w1.intervals, m, t.pmtu, s.recved, Low(s, t), recved, low);
    TameAfterPacket(w1, m, t.pmtu, recved, low, a.At());
  }

  lemma StreamBounds(t: Stream, m: Message)
    requires t.Valid() && m in t.msgs
    ensures t.base <= m.start && m.start + m.Count(t.pmtu) <= t.end < t.base + PSN_MAX_WINDOW_SIZE
  {
  }

  lemma FitsStart(w: WindowView, m: Message, pmtu: Pmtu)
    requires WindowFits(w, m, pmtu)
    ensures w.startPsn == Wire(m.start)
  {
  }

  lemma FitsAfterRange(w: WindowView, m: Message, pmtu: Pmtu, largest: Psn, expected: Psn)
    requires WindowFits(w, m, pmtu)
    ensures var range := GetContinuousRange(largest, expected);
            range.Some? ==> WindowFits(w.Inserted(range.value.0, range.value.1), m, pmtu)
  {
    hide Sane;
    RangeSane(w, largest, expected);
  }

  // A message of two packets is complete when its last packet is there; a long one only completes when
  // its window does not reach beyond it.
  lemma StaleCompletion(t: Stream, a: Arrival, w: WindowView, recved: iset<int>, low: int)
    requires a.offset < a.msg.Count(t.pmtu) && a.offset > 0
    requires WindowFits(w, a.msg, t.pmtu) && a.msg.start in recved && a.At() in recved
    requires a.msg.Count(t.pmtu) >= 3 ==> Tame(w.intervals, a.msg, t.pmtu, recved, low)
    ensures !w.RecoverPanics() && !w.GapPanics()
    ensures w.LastPsn() == Wire(a.msg.start + a.msg.Count(t.pmtu) - 1)
    ensures w.IsComplete() ==> forall x :: a.msg.Contains(t.pmtu, x) ==> x in recved
  {
    SaneNeverPanics(w);
    WireAdd(a.msg.start, w.numOfPackets - 1);
    if w.IsComplete() {
      CompleteIff(w);
      forall x | a.msg.Contains(t.pmtu, x) ensures x in recved {
        assert Covers(w.intervals, x - a.msg.start);
      }
    }
  }

  // ---- one step in such a state -------------------------------------------------------------------------------

  // The contexts after a step that leaves all but that of packet a as they were.
  lemma StaleContextKept(s: System, t: Stream, s': System, k: Msn)
    requires Stale(s, t) && Open(s, k) && Open(s', k)
    requires s'.qp.perQp.value.contexts[k] == s.qp.perQp.value.contexts[k]
    requires k in s'.owner && (k in s.owner ==> s'.owner[k] == s.owner[k])
    requires s.recved <= s'.recved && Low(s, t) <= Low(s', t)
    ensures StaleContext(s', t, k, Low(s', t))
  {
    hide Tame, WindowFits, Low, Stream.Valid;
    assert StaleContext(s, t, k, Low(s, t));
    var c := s.qp.perQp.value.contexts[k];
    if s.owner[k].Count(t.pmtu) >= 3 {
      TameGrows(c.recvMap.value.intervals, s.owner[k], t.pmtu, s.recved, Low(s, t), s'.recved, Low(s', t));
    }
  }

  lemma FreshFits(m: Message, pmtu: Pmtu, recved: iset<int>, low: int)
    requires m.start in recved
    ensures var w := WindowView(map[], Wire(m.start), m.Count(pmtu)).Inserted(Wire(m.start), Wire(m.start));
            WindowFits(w, m, pmtu) && Tame(w.intervals, m, pmtu, recved, low)
  {
    WireSub(m.start, m.start);
    var w := WindowView(map[], Wire(m.start), m.Count(pmtu)).Inserted(Wire(m.start), Wire(m.start));
    assert w.intervals == map[0 := 0];
    assert 0 in w.intervals;
  }

  // The card expects a PSN beyond every long message, so no packet goes unreported.
  lemma StaleReported(s: System, t: Stream, a: Arrival)
    requires Crossing(t, a) && Stale(s, t)
    ensures Reported(s, a)
  {
  }

  // What every kind of packet does to mark and expected PSN.
  lemma StaleShape(s: System, t: Stream, a: Arrival)
    requires Crossing(t, a) && Stale(s, t) && Step(s, Arrive(a)).Ran?
    ensures var s' := Step(s, Arrive(a)).sys;
            && s'.qp.status.OutOfOrder? && s'.qp.pmtu == t.pmtu
            && (s'.mark == Far(t.base) || t.base <= s'.mark < t.end)
            && Low(s, t) <= Low(s', t) && (a.At() < Boundary(t.base) ==> a.At() <= Low(s', t))
            && Boundary(t.base) < s'.e <= t.end && s.recved <= s'.recved && a.At() in s'.recved
  {
    hide Step, StaleContext, MarkAfter, Wire;
    StepFields(s, a);
    StaleReported(s, t, a);
    StaleMark(s, t, a);
  }

  lemma OwnerKnown(s: System, t: Stream, k: Msn)
    requires Open(s, k) && StaleContext(s, t, k, Low(s, t))
    ensures k in s.owner && s.owner[k] in t.msgs && s.owner[k].msn == k
  {
  }

  lemma StaleFirstOrOnly(s: System, t: Stream, a: Arrival)
    requires Crossing(t, a) && Stale(s, t) && a.offset == 0
    ensures StepIsSound(s, Arrive(a)) && Stale(Step(s, Arrive(a)).sys, t)
  {
    hide StaleContext, WindowFits, Tame, WindowView.Inserted, LargerInPsn, Low, Wire;
    StaleReported(s, t, a);
    var s' := Step(s, Arrive(a)).sys;
    StaleShape(s, t, a);
    FreshFits(a.msg, t.pmtu, s'.recved, Low(s', t));
    forall k | Open(s', k) ensures StaleContext(s', t, k, Low(s', t)) {
      StaleAfterFirst(s, t, a, k);
    }
  }

  lemma StaleAfterFirst(s: System, t: Stream, a: Arrival, k: Msn)
    requires Crossing(t, a) && Stale(s, t) && a.offset == 0
    requires Open(Step(s, Arrive(a)).sys, k)
    ensures var s' := Step(s, Arrive(a)).sys; StaleContext(s', t, k, Low(s', t))
  {
    hide WindowFits, Tame, WindowView.Inserted, LargerInPsn, Low, Wire;
    StaleReported(s, t, a);
    var s' := Step(s, Arrive(a)).sys;
    StaleShape(s, t, a);
    FreshFits(a.msg, t.pmtu, s'.recved, Low(s', t));
    if Open(s, k) {
      assert StaleContext(s, t, k, Low(s, t));
      if k != a.msg.msn || s'.qp.perQp.value.contexts[k] == s.qp.perQp.value.contexts[k] {
        StaleContextKept(s, t, s', k);
      }
    }
  }

  lemma StaleMiddleOrLast(s: System, t: Stream, a: Arrival)
    requires Crossing(t, a) && Stale(s, t) && a.offset > 0
    ensures StepIsSound(s, Arrive(a)) && Stale(Step(s, Arrive(a)).sys, t)
  {
    if Open(s, a.msg.msn) {
      StaleOpen(s, t, a);
    } else {
      hide StaleContext, LargerInPsn, Low, Wire;
      StaleReported(s, t, a);
      var s' := Step(s, Arrive(a)).sys;
      StaleShape(s, t, a);
      forall k | Open(s', k) ensures StaleContext(s', t, k, Low(s', t)) {
        assert StaleContext(s, t, k, Low(s, t));
        OwnerKnown(s, t, k);
        StaleContextKept(s, t, s', k);
      }
    }
  }

  // The window that a Middle or Last packet of an open message leaves.
  lemma StaleRecord(s: System, t: Stream, a: Arrival, w': WindowView, s': System)
    requires Crossing(t, a) && Stale(s, t) && a.offset > 0 && Open(s, a.msg.msn)
    requires s'.recved == s.recved + iset{a.At()} && Low(s, t) <= Low(s', t)
    requires a.At() < Boundary(t.base) ==> a.At() <= Low(s', t)
    requires var c := s.qp.perQp.value.contexts[a.msg.msn];
             c.recvMap.Some? && w' == RecordPacket(c.recvMap.value, Wire(s.mark), EventOf(a, s.e, t.pmtu))
    ensures a.msg.msn in s.owner && s.owner[a.msg.msn] == a.msg
    ensures WindowFits(w', a.msg, t.pmtu)
    ensures a.msg.Count(t.pmtu) >= 3 ==> Tame(w'.intervals, a.msg, t.pmtu, s'.recved, Low(s', t))
    ensures !w'.RecoverPanics() && !w'.GapPanics()
    ensures w'.LastPsn() == Wire(a.msg.start + a.msg.Count(t.pmtu) - 1)
    ensures w'.IsComplete() ==> forall x :: a.msg.Contains(t.pmtu, x) ==> x in s'.recved
  {
    hide WindowFits, Tame, RecordPacket, WindowView.IsComplete, WindowView.RecoverPanics, WindowView.GapPanics,
         WindowView.LastPsn, Wire, Low;
    assert StaleContext(s, t, a.msg.msn, Low(s, t));
    var w := s.qp.perQp.value.contexts[a.msg.msn].recvMap.value;
    FitsAfterPacket(w, a.msg, t.pmtu, Wire(s.mark), EventOf(a, s.e, t.pmtu));
    if a.msg.Count(t.pmtu) >= 3 {
      RecordTame(s, t, a, w, s'.recved, Low(s', t));
    }
    StaleCompletion(t, a, w', s'.recved, Low(s', t));
  }

  lemma StaleOpen(s: System, t: Stream, a: Arrival)
    requires Crossing(t, a) && Stale(s, t) && a.offset > 0 && Open(s, a.msg.msn)
    ensures StepIsSound(s, Arrive(a)) && Stale(Step(s, Arrive(a)).sys, t)
  {
    hide WindowFits, Tame, RecordPacket, WindowView.RecentGap, WindowView.IsComplete, WindowView.RecoverPanics,
         WindowView.GapPanics, WindowView.TryGetRecoverPsn, WindowView.LastPsn, LargerInPsn, Wire, Low, Message.Count,
         HandleOutOfOrder;
    StaleReported(s, t, a);
    assert StaleContext(s, t, a.msg.msn, Low(s, t));
    var mark' := MarkAfter(s, a);
    StaleMark(s, t, a);
    var u := s.(recved := s.recved + iset{a.At()}, mark := mark');
    assert Low(s, t) <= Low(u, t) && (a.At() < Boundary(t.base) ==> a.At() <= Low(u, t)) by { LowGrows(s, t, a, u); }
    var w' := RecordPacket(s.qp.perQp.value.contexts[a.msg.msn].recvMap.value, Wire(s.mark), EventOf(a, s.e, t.pmtu));
    StaleRecord(s, t, a, w', u);
    HandlesOpen(s.qp, EventOf(a, s.e, t.pmtu), w');
    var s' := Step(s, Arrive(a)).sys;
    assert Step(s, Arrive(a)).Ran?;
    StaleShape(s, t, a);
    assert Low(s', t) == Low(u, t) by { LowSame(s', u, t); }
    forall k | Open(s', k) ensures StaleContext(s', t, k, Low(s', t)) {
      assert StaleContext(s, t, k, Low(s, t));
      if k != a.msg.msn {
        StaleContextKept(s, t, s', k);
      }
    }
  }

  lemma LowGrows(s: System, t: Stream, a: Arrival, u: System)
    requires Crossing(t, a) && (s.mark == Far(t.base) || t.base <= s.mark < t.end)
    requires u.mark == if s.mark == Far(t.base) then (if a.At() < Boundary(t.base) then a.At() else s.mark)
                       else if a.At() > s.mark then a.At() else s.mark
    ensures Low(s, t) <= Low(u, t) && (a.At() < Boundary(t.base) ==> a.At() <= Low(u, t))
  {
    CrossingPsn(t, a.At());
  }

  lemma LowSame(s: System, u: System, t: Stream)
    requires s.mark == u.mark
    ensures Low(s, t) == Low(u, t)
  {
  }

  lemma StaleStep(s: System, t: Stream, a: Arrival)
    requires Crossing(t, a) && Stale(s, t)
    ensures StepIsSound(s, Arrive(a)) && Stale(Step(s, Arrive(a)).sys, t)
  {
    hide Stale, StepIsSound, Step;
    if a.offset == 0 {
      StaleFirstOrOnly(s, t, a);
    } else {
      StaleMiddleOrLast(s, t, a);
    }
  }

  lemma StaleRead(s: System, t: Stream, msn: Msn)
    requires t.Valid() && Stale(s, t)
    ensures StepIsSound(s, Read(msn)) && Stale(Step(s, Read(msn)).sys, t)
  {
    hide StaleContext, Low, Wire;
    var s' := Step(s, Read(msn)).sys;
    LowSame(s, s', t);
    forall k | Open(s', k) ensures StaleContext(s', t, k, Low(s', t)) {
      assert StaleContext(s, t, k, Low(s, t));
      OwnerKnown(s, t, k);
      StaleContextKept(s, t, s', k);
    }
  }

  // ---- states in which the mark is sound --------------------------------------------------------------------------

  // In order, or out of order with a mark that is a PSN of the stream.
  ghost predicate Fresh(s: System, t: Stream) {
    && Inv(s) && OneCurrent(s, t) && s.base == t.base && t.base <= s.e <= t.end
    && (s.qp.status.OutOfOrder? ==> t.base <= s.mark < t.end)
  }

  lemma FreshInFlight(s: System, t: Stream, a: Arrival)
    requires t.Valid() && Fresh(s, t) && t.Sends(Arrive(a))
    ensures InFlight(s, a)
  {
    hide WindowSound;
    forall k | Open(s, k) ensures k in s.owner && s.owner[k] in t.msgs {
      assert ContextSound(s, k);
    }
  }

  // The step with which the queue pair goes out of order at or beyond the boundary, with a table that was
  // created in order.
  ghost predicate GoesStale(s: System, t: Stream, a: Arrival) {
    Enters(s, a) && s.qp.perQp.Some? && a.At() >= Boundary(t.base)
  }

  lemma FreshMark(s: System, t: Stream, a: Arrival)
    requires Crossing(t, a) && (s.qp.status.OutOfOrder? ==> t.base <= s.mark < t.end)
    requires Enters(s, a) || s.qp.status.OutOfOrder?
    ensures if GoesStale(s, t, a) then MarkAfter(s, a) == Far(t.base) else t.base <= MarkAfter(s, a) < t.end
  {
    CrossingPsn(t, a.At());
    WireSub(a.At(), a.At());
  }

  lemma FreshStays(s: System, t: Stream, a: Arrival)
    requires Crossing(t, a) && Fresh(s, t) && !GoesStale(s, t, a) && InFlight(s, a)
    requires Step(s, Arrive(a)).Ran? && Inv(Step(s, Arrive(a)).sys)
    ensures Fresh(Step(s, Arrive(a)).sys, t)
  {
    hide Step, MarkAfter, CrossesHalf, NearestZero, InFlight, Wire, Inv, LongEndBelow, GoesStale;
    StepFields(s, a);
    EventDiffers(s, a);
    if s.qp.status.Normal? && a.At() == s.e {
      CurrentInStream(s, t, a);
    } else {
      FreshMark(s, t, a);
    }
  }

  // A packet touches no context but that of its own message.
  lemma OthersKept(q: Qp, e: WriteEvent, k: Msn)
    requires var r := HandleOutOfOrder(q, e); r.Next? && r.qp.perQp.Some? && k in r.qp.perQp.value.contexts
    requires k != e.msn
    ensures q.perQp.Some? && k in q.perQp.value.contexts
    ensures HandleOutOfOrder(q, e).qp.perQp.value.contexts[k] == q.perQp.value.contexts[k]
  {
    hide RecordPacket, GapEffects, RecoverEffects, WindowView.IsComplete, WindowView.RecoverPanics,
         WindowView.GapPanics, ContextWithWindow, LargerInPsn;
  }

  // The window made for a message in the middle of which the gap is seen.
  lemma EntryKeys(c: RecvContext, m: Message, pmtu: Pmtu, e: int, p: int, k: nat)
    requires ContextMatches(c, m) && m.start < e < m.start + PSN_MAX_WINDOW_SIZE
             && m.start <= p < m.start + PSN_MAX_WINDOW_SIZE
    requires k in CreateMapOnPsn(c, WrappingSub(Wire(e), 1), Wire(p), pmtu).recvMap.value.intervals
    ensures k == 0 || k == p - m.start
  {
    hide InsertedRange, WindowView.IsComplete, FloorKey, HigherKey;
    RangeEnds(e, e);
    Offset(m.start, m.start);
    Offset(e - 1, m.start);
    Offset(p, m.start);
    hide Wire, WrappingSub;
    var n := CalculatePacketCnt(pmtu, c.startAddr, c.lenInBytes);
    var w := WindowView(map[], c.startPsn, n).Inserted(Wire(m.start), Wire(e - 1));
    EmptyKeys(0, e - 1 - m.start);
    if k !in w.intervals {
      InsertedRangeKeys(w.intervals, p - m.start, p - m.start, k);
    } else if w.intervals != map[] {
      InsertedRangeKeys(map[], 0, e - 1 - m.start, k);
    }
  }

  lemma EmptyKeys(left: nat, right: nat)
    ensures InsertedRange(map[], left, right) == map[left := right]
  {
  }

  // The context of a long message in the state that the queue pair enters.
  lemma EntryTame(s: System, t: Stream, a: Arrival, k: Msn)
    requires Crossing(t, a) && Fresh(s, t) && GoesStale(s, t, a) && InFlight(s, a)
    requires Step(s, Arrive(a)).Ran? && Inv(Step(s, Arrive(a)).sys) && Open(Step(s, Arrive(a)).sys, k)
    requires var owner := Step(s, Arrive(a)).sys.owner;
             k in owner && owner[k] in t.msgs && owner[k].msn == k && owner[k].Count(t.pmtu) >= 3
    ensures var s' := Step(s, Arrive(a)).sys;
            var c := s'.qp.perQp.value.contexts[k];
            c.recvMap.Some? && Tame(c.recvMap.value.intervals, s'.owner[k], t.pmtu, s'.recved, t.base - 1)
  {
    hide HandleOutOfOrder, CreateMapOnPsn, InFlight, MarkAfter, CrossesHalf, Wire, EventOf;
    var s' := Step(s, Arrive(a)).sys;
    var m := s'.owner[k];
    StepFields(s, a);
    EventDiffers(s, a);
    var q := EnterError(s.qp, Wire(s.e), Wire(a.At()));
    EventFields(s, a);
    EntryHandled(s, a);
    assert k != a.msg.msn;
    OthersKept(q, EventOf(a, s.e, s.qp.pmtu), k);
    assert Open(s, k) && s.owner[k] == m;
    assert ContextSound(s, k) && ContextSound(s', k);
    var i := s'.qp.perQp.value.contexts[k].recvMap.value.intervals;
    forall l | l in i ensures l == 0 || m.Count(t.pmtu) <= l {
      EntryKeys(s.qp.perQp.value.contexts[k], m, t.pmtu, s.e, a.At(), l);
    }
  }

  lemma EventFields(s: System, a: Arrival)
    ensures EventOf(a, s.e, s.qp.pmtu).msn == a.msg.msn
  {
  }

  lemma EntryHandled(s: System, a: Arrival)
    requires Enters(s, a) && -PSN_MAX_WINDOW_SIZE < a.At() - s.e < PSN_MAX_WINDOW_SIZE && Step(s, Arrive(a)).Ran?
    ensures var r := HandleOutOfOrder(EnterError(s.qp, Wire(s.e), Wire(a.At())), EventOf(a, s.e, s.qp.pmtu));
            r.Next? && Step(s, Arrive(a)).sys.qp == r.qp
  {
    hide HandleOutOfOrder, EnterError, MarkAfter;
    EventDiffers(s, a);
  }

  lemma BecomesStale(s: System, t: Stream, a: Arrival)
    requires Crossing(t, a) && Fresh(s, t) && GoesStale(s, t, a) && InFlight(s, a)
    requires Step(s, Arrive(a)).Ran? && Inv(Step(s, Arrive(a)).sys)
    ensures Stale(Step(s, Arrive(a)).sys, t)
  {
    hide Step, MarkAfter, CrossesHalf, NearestZero, InFlight, Wire, Tame, WindowSound;
    var s' := Step(s, Arrive(a)).sys;
    StepFields(s, a);
    EventDiffers(s, a);
    FreshMark(s, t, a);
    assert Low(s', t) == t.base - 1;
    forall k | Open(s', k) ensures StaleContext(s', t, k, Low(s', t)) {
      assert ContextSound(s', k);
      SoundFits(s'.qp.perQp.value.contexts[k].recvMap.value, s'.owner[k], t.pmtu, s'.recved);
      if s'.owner[k].Count(t.pmtu) >= 3 {
        EntryTame(s, t, a, k);
      }
    }
  }

  lemma SoundFits(w: WindowView, m: Message, pmtu: Pmtu, recved: iset<int>)
    requires WindowSound(w, m, pmtu, recved)
    ensures WindowFits(w, m, pmtu)
  {
  }

  // ---- every run ---------------------------------------------------------------------------------------------------

  ghost predicate CrossingInv(s: System, t: Stream) {
    Fresh(s, t) || Stale(s, t)
  }

  lemma CrossingStep(s: System, t: Stream, act: Action)
    requires t.Valid() && CrossesHalf(t.base, t.end) && LongEndBelow(t) && t.Sends(act) && CrossingInv(s, t)
    ensures StepIsSound(s, act) && CrossingInv(Step(s, act).sys, t)
  {
    hide CrossesHalf, LongEndBelow, Stale, StepIsSound;
    match act
    case Read(msn) =>
      if Stale(s, t) {
        StaleRead(s, t, msn);
      } else {
        FreshRead(s, t, msn);
      }
    case Arrive(a) =>
      hide Step, Fresh, GoesStale, InFlight;
      if Stale(s, t) {
        StaleStep(s, t, a);
      } else {
        FreshInFlight(s, t, a);
        StepSound(s, act);
        assert StepIsSound(s, act) by { SoundStep(s, act); }
        if GoesStale(s, t, a) {
          BecomesStale(s, t, a);
        } else {
          FreshStays(s, t, a);
        }
      }
  }

  lemma SoundStep(s: System, act: Action)
    requires Inv(s) && Admissible(s, act)
    ensures StepIsSound(s, act)
  {
    hide Inv, Step, Admissible, AcksSound;
    StepSound(s, act);
  }

  lemma FreshRead(s: System, t: Stream, msn: Msn)
    requires Fresh(s, t)
    ensures StepIsSound(s, Read(msn)) && Fresh(Step(s, Read(msn)).sys, t)
  {
    hide Inv, AcksSound;
    StepSound(s, Read(msn));
  }

  lemma {:induction false} CrossingRun(s: System, t: Stream, acts: seq<Action>)
    requires t.Valid() && CrossesHalf(t.base, t.end) && LongEndBelow(t) && CrossingInv(s, t)
    requires forall i :: 0 <= i < |acts| ==> t.Sends(acts[i])
    ensures RunsSoundly(s, acts)
    decreases |acts|
  {
    hide CrossingInv, Step, AcksSound, Stream.Valid, Stream.Sends, CrossesHalf, LongEndBelow;
    if acts != [] {
      CrossingStep(s, t, acts[0]);
      CrossingRun(Step(s, acts[0]).sys, t, acts[1..]);
    }
  }

  // Every run over a stream that stays on one side of 2^23, or whose long messages end below it, is sound.
  lemma HarmlessStream(t: Stream, acts: seq<Action>)
    requires t.Valid() && (CrossesHalf(t.base, t.end) ==> LongEndBelow(t))
    requires forall i :: 0 <= i < |acts| ==> t.Sends(acts[i])
    ensures RunsSoundly(Init(t.pmtu, t.base), acts)
  {
    hide RunsSoundly;
    if CrossesHalf(t.base, t.end) {
      CrossingRun(Init(t.pmtu, t.base), t, acts);
    } else {
      StreamAckSoundness(t, acts);
    }
  }
}
