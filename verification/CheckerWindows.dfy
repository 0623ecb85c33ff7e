// Runs of any length whose packets stay within a window around the expected PSN.

module CheckerWindows {
  import opened Psn
  import opened CheckerRuns
  import opened CheckerStreams

  // How far a packet may be from the expected PSN, and how long a message may be.
  datatype Pace = Pace(width: int, longest: int) {
    ghost predicate Fits() {
      width >= 1 && longest >= 1 && 2 * width + longest <= PSN_MAX_WINDOW_SIZE
    }
  }

  // Packet a is one of the traffic and near the expected PSN, no MSN is reused while its context is open,
  // and if a is the first packet out of order and there is a context table, it is not one of the width - 1
  // PSNs from 2^23 on.
  ghost predicate Paced(s: System, t: Stream, w: Pace, a: Arrival) {
    && t.Sends(Arrive(a)) && a.msg.Count(t.pmtu) <= w.longest && s.base <= a.msg.start
    && -w.width < a.At() - s.e < w.width
    && (Open(s, a.msg.msn) && a.msg.msn in s.owner ==> s.owner[a.msg.msn] == a.msg)
    && (Enters(s, a) && s.qp.perQp.Some? ==>
          !(PSN_MAX_WINDOW_SIZE <= Wire(a.At()) < PSN_MAX_WINDOW_SIZE + w.width - 1))
  }

  ghost predicate PacedAction(s: System, t: Stream, w: Pace, act: Action) {
    act.Arrive? ==> Paced(s, t, w, act.arrival)
  }

  ghost predicate PacedRun(s: System, t: Stream, w: Pace, acts: seq<Action>)
    decreases |acts|
  {
    acts != [] ==>
      && PacedAction(s, t, w, acts[0])
      && (var r := Step(s, acts[0]); r.Ran? ==> PacedRun(r.sys, t, w, acts[1..]))
  }

  // ---- the mark stays near ---------------------------------------------------------------------------------

  // The mark lags behind the expected PSN by the width, or by what has arrived in order of one message since:
  // middle packets that are expected are not reported.
  ghost predicate Lags(s: System, t: Stream, w: Pace) {
    || s.e - w.width <= s.mark
    || exists m :: m in t.msgs && m.Count(t.pmtu) <= w.longest
                && m.start - w.width <= s.mark && m.start < s.e < m.start + m.Count(t.pmtu)
  }

  ghost predicate Tracked(s: System, t: Stream, w: Pace) {
    && Inv(s) && OneCurrent(s, t)
    && (forall k :: k in s.owner ==> s.owner[k].Count(t.pmtu) <= w.longest)
    && (s.qp.status.OutOfOrder? ==> Lags(s, t, w) && s.mark - PSN_MAX_WINDOW_SIZE + w.width <= s.e)
  }

  lemma PacedInFlight(s: System, t: Stream, w: Pace, a: Arrival)
    requires w.Fits() && Tracked(s, t, w) && Paced(s, t, w, a)
    ensures InFlight(s, a)
  {
    hide WindowSound;
  }

  // What the mark becomes with the first packet out of order.
  lemma EntryMark(s: System, a: Arrival)
    requires Enters(s, a)
    ensures var p, h := a.At(), a.At() - Wire(a.At()) + PSN_MAX_WINDOW_SIZE;
            MarkAfter(s, a) == if s.qp.perQp.Some? && p >= h then h + PSN_MAX_WINDOW_SIZE else p
  {
    var p, w := a.At(), Wire(a.At());
    var q := (p - w) / BORDER;
    assert p == w + q * BORDER;
    ModShift(0, q);
    ModShift(0, q + 1);
    NearestZeroIsUnique(p, if w < PSN_MAX_WINDOW_SIZE then p - w else p - w + BORDER);
    WireSub(p, p);
  }

  lemma EntryTracked(s: System, t: Stream, w: Pace, a: Arrival)
    requires w.Fits() && Paced(s, t, w, a) && Enters(s, a)
    ensures var mark, e := MarkAfter(s, a), if a.At() >= s.e then a.At() + 1 else s.e;
            e - w.width <= mark && mark - PSN_MAX_WINDOW_SIZE + w.width <= e
  {
    hide MarkAfter;
    EntryMark(s, a);
  }

  lemma ReportedTracked(s: System, t: Stream, w: Pace, a: Arrival)
    requires w.Fits() && Tracked(s, t, w) && Paced(s, t, w, a) && s.qp.status.OutOfOrder? && Reported(s, a)
    ensures var s' := s.(mark := MarkAfter(s, a), e := if a.At() >= s.e then a.At() + 1 else s.e);
            Lags(s', t, w) && s'.mark - PSN_MAX_WINDOW_SIZE + w.width <= s'.e
  {
    hide Inv, MarkAfter, Wire;
    MarkIsMaximum(s, a);
  }

  // A middle packet that is expected: the message it belongs to accounts for the lag.
  lemma QuietTracked(s: System, t: Stream, w: Pace, a: Arrival)
    requires w.Fits() && t.Apart() && Tracked(s, t, w) && Paced(s, t, w, a)
    requires s.qp.status.OutOfOrder? && !Reported(s, a)
    ensures MarkAfter(s, a) == s.mark && a.At() == s.e
    ensures var s' := s.(e := s.e + 1); Lags(s', t, w) && s'.mark - PSN_MAX_WINDOW_SIZE + w.width <= s'.e
  {
    hide Inv, Wire;
    var m := a.msg;
    assert m.Contains(t.pmtu, s.e);
    if s.e - w.width > s.mark {
      var o :| o in t.msgs && o.Count(t.pmtu) <= w.longest
            && o.start - w.width <= s.mark && o.start < s.e < o.start + o.Count(t.pmtu);
      assert o.Contains(t.pmtu, s.e);
    }
    assert m.start - w.width <= s.mark && m.start < s.e + 1 < m.start + m.Count(t.pmtu);
  }

  // ---- every run ----------------------------------------------------------------------------------------------

  lemma TrackedStays(s: System, t: Stream, w: Pace, a: Arrival)
    requires w.Fits() && t.Apart() && Tracked(s, t, w) && Paced(s, t, w, a)
    requires Step(s, Arrive(a)).Ran? && Inv(Step(s, Arrive(a)).sys)
    ensures Tracked(Step(s, Arrive(a)).sys, t, w)
  {
    hide Step, Inv, MarkAfter, Wire, Lags;
    StepFields(s, a);
    EventDiffers(s, a);
    var s' := Step(s, Arrive(a)).sys;
    if s.qp.status.Normal? {
      if a.At() == s.e {
        CurrentInStream(s, t, a);
      } else {
        EntryTracked(s, t, w, a);
        LagsByWidth(s', t, w);
      }
    } else if Reported(s, a) {
      ReportedTracked(s, t, w, a);
      LagsSame(s', s.(mark := s'.mark, e := s'.e), t, w);
    } else {
      QuietTracked(s, t, w, a);
      LagsSame(s', s.(e := s'.e), t, w);
    }
  }

  lemma LagsByWidth(s: System, t: Stream, w: Pace)
    requires s.e - w.width <= s.mark
    ensures Lags(s, t, w)
  {
  }

  lemma LagsSame(s: System, u: System, t: Stream, w: Pace)
    requires s.e == u.e && s.mark == u.mark
    ensures Lags(s, t, w) == Lags(u, t, w)
  {
  }

  lemma TrackedStep(s: System, t: Stream, w: Pace, act: Action)
    requires w.Fits() && t.Apart() && Tracked(s, t, w) && PacedAction(s, t, w, act)
    ensures StepIsSound(s, act) && Tracked(Step(s, act).sys, t, w)
  {
    match act
    case Read(msn) =>
      hide Inv, Lags;
      StepSound(s, act);
      LagsSame(s, Step(s, act).sys, t, w);
    case Arrive(a) =>
      hide Inv, Step, AcksSound, InFlight, Tracked, Paced;
      PacedInFlight(s, t, w, a);
      assert Inv(s) by { TrackedInv(s, t, w); }
      StepSound(s, act);
      TrackedStays(s, t, w, a);
  }

  lemma TrackedInv(s: System, t: Stream, w: Pace)
    requires Tracked(s, t, w)
    ensures Inv(s)
  {
  }

  lemma {:induction false} TrackedRun(s: System, t: Stream, w: Pace, acts: seq<Action>)
    requires w.Fits() && t.Apart() && Tracked(s, t, w) && PacedRun(s, t, w, acts)
    ensures RunsSoundly(s, acts)
    decreases |acts|
  {
    hide Tracked, Step, AcksSound, PacedAction, Stream.Apart, Pace.Fits;
    if acts != [] {
      TrackedStep(s, t, w, acts[0]);
      TrackedRun(Step(s, acts[0]).sys, t, w, acts[1..]);
    }
  }

  // Acknowledgements are sound over runs of any length, across any number of wraps, if packets stay within
  // the width and the first gap is not seen, with a table, right after 2^23 modulo 2^24.
  lemma WindowedAckSoundness(t: Stream, w: Pace, base: int, acts: seq<Action>)
    requires w.Fits() && t.Apart() && PacedRun(Init(t.pmtu, base), t, w, acts)
    ensures RunsSoundly(Init(t.pmtu, base), acts)
  {
    TrackedRun(Init(t.pmtu, base), t, w, acts);
  }
}
