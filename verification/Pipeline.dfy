// From the user's write to the packets on the wire: PSN allocation, the channel to the scheduler
// thread, splitting, round robin and sending.

module Pipeline {
  import opened Psn
  import opened Arith
  import opened Wrappers
  import opened PacketLength
  import opened SgList
  import opened Transmit
  import opened Split
  import opened SplitMeaning
  import RR = RoundRobin

  datatype QpContext = QpContext(pmtu: Pmtu, sendingPsn: Psn, nextMsn: nat)

  datatype Action =
    | Submit(qpn: RR.Qpn, raddr: nat, rkey: nat, sge: Sge)
    | Schedule
    | Transmit

  // wire holds every packet sent, submitted every descriptor accepted, in order.
  datatype Pipe = Pipe(
    size: nat,
    qps: map<RR.Qpn, QpContext>,
    channel: seq<Desc>,
    queue: RR.Queue<Desc>,
    wire: seq<(RR.Qpn, Carried)>,
    submitted: seq<Desc>)

  // ---- allocation of PSNs -------------------------------------------------------------------------------

  function DescOf(qp: QpContext, qpn: RR.Qpn, raddr: nat, rkey: nat, sge: Sge): Desc {
    Desc(Write, sge.len, raddr, rkey, qpn, qp.pmtu, qp.sendingPsn, qp.nextMsn, true, true, sge, None, None, None)
  }

  function AfterSubmit(qp: QpContext, raddr: nat, len: nat): QpContext {
    qp.(sendingPsn := WrappingAdd(qp.sendingPsn, CalculatePacketCnt(qp.pmtu, raddr, len)),
        nextMsn := (qp.nextMsn + 1) % 0x1_0000)
  }

  function AfterRead(qp: QpContext): QpContext {
    qp.(sendingPsn := WrappingAdd(qp.sendingPsn, 1), nextMsn := (qp.nextMsn + 1) % 0x1_0000)
  }

  // A work descriptor as it leaves the user's call; the kind inside a read is not looked at.
  datatype Work = WriteWork(desc: Desc) | ReadWork(desc: Desc)

  // The table of queue pairs of a device.
  class Device {
    var qpTable: map<RR.Qpn, QpContext>

    constructor (qps: map<RR.Qpn, QpContext>)
      ensures qpTable == qps
    {
      qpTable := qps;
    }

    // A write is the Submit step of the pipeline. A read takes one PSN.
    method WriteOrRead(qpn: RR.Qpn, raddr: nat, rkey: nat, sge: Sge, isRead: bool) returns (work: Option<Work>)
      modifies this
      ensures work.None? <==> qpn !in old(qpTable)
      ensures work.None? ==> qpTable == old(qpTable)
      ensures work.Some? ==>
                var qp := old(qpTable)[qpn];
                && work.value.desc == DescOf(qp, qpn, raddr, rkey, sge) && work.value.ReadWork? == isRead
                && qpTable == old(qpTable)[qpn := if isRead then AfterRead(qp) else AfterSubmit(qp, raddr, sge.len)]
      ensures !isRead ==>
                forall s: Pipe :: s.size > 0 && RR.Valid(s.queue) && s.qps == old(qpTable) ==>
                  var s' := Step(s, Submit(qpn, raddr, rkey, sge));
                  && s'.qps == qpTable
                  && s'.channel == s.channel + (if work.Some? then [work.value.desc] else [])
                  && s'.submitted == s.submitted + (if work.Some? then [work.value.desc] else [])
    {
      if qpn !in qpTable {
        return None;
      }
      var qp := qpTable[qpn];
      var msn := qp.nextMsn;
      qp := qp.(nextMsn := (msn + 1) % 0x1_0000);
      var packetCnt := if !isRead then CalculatePacketCnt(qp.pmtu, raddr, sge.len) else 1;
      var firstPktPsn := qp.sendingPsn;
      qp := qp.(sendingPsn := WrappingAdd(firstPktPsn, packetCnt));
      qpTable := qpTable[qpn := qp];
      var desc := Desc(Write, sge.len, raddr, rkey, qpn, qp.pmtu, firstPktPsn, msn, true, true, sge, None, None, None);
      work := Some(if isRead then ReadWork(desc) else WriteWork(desc));
    }
  }

  // ---- the pipeline as a step system ----------------------------------------------------------------------

  ghost function Tagged(qpn: RR.Qpn, cs: seq<Carried>): seq<(RR.Qpn, Carried)> {
    seq(|cs|, i requires 0 <= i < |cs| => (qpn, cs[i]))
  }

  ghost function Step(s: Pipe, act: Action): Pipe
    requires s.size > 0 && RR.Valid(s.queue)
  {
    match act
    case Submit(qpn, raddr, rkey, sge) =>
      if qpn !in s.qps then s
      else
        var d := DescOf(s.qps[qpn], qpn, raddr, rkey, sge);
        s.(qps := s.qps[qpn := AfterSubmit(s.qps[qpn], raddr, sge.len)],
           channel := s.channel + [d], submitted := s.submitted + [d])
    case Schedule =>
      if s.channel == [] then s
      else
        var d := s.channel[0];
        s.(channel := s.channel[1..], queue := RR.Pushed(s.queue, d.dqpn, Splitted(d, s.size)))
    case Transmit =>
      if s.queue == [] then s
      else
        var (qpn, descs) := s.queue[0];
        s.(queue := RR.Rotated(s.queue), wire := s.wire + Tagged(qpn, Emitted(descs[0])))
  }

  // The write does not wrap around an address space, and the scheduler size suits the MTU.
  ghost predicate Admissible(s: Pipe, act: Action) {
    act.Submit? && act.qpn in s.qps ==>
      && WholeMessage(DescOf(s.qps[act.qpn], act.qpn, act.raddr, act.rkey, act.sge))
      && GoodSize(s.qps[act.qpn].pmtu, s.size)
  }

  // ---- what each queue pair sees ------------------------------------------------------------------------

  ghost function ForQp(ds: seq<Desc>, k: RR.Qpn): seq<Desc> {
    if ds == [] then [] else (if ds[0].dqpn == k then [ds[0]] else []) + ForQp(ds[1..], k)
  }

  ghost function OnWire(wire: seq<(RR.Qpn, Carried)>, k: RR.Qpn): seq<Carried> {
    if wire == [] then [] else (if wire[0].0 == k then [wire[0].1] else []) + OnWire(wire[1..], k)
  }

  // Sent, waiting in the scheduler, waiting in the channel.
  ghost function Stream(s: Pipe, k: RR.Qpn): seq<Carried> {
    OnWire(s.wire, k) + (EmittedAll(RR.Waiting(s.queue, k)) + EmittedAll(ForQp(s.channel, k)))
  }

  ghost predicate Good(s: Pipe, d: Desc) {
    WholeMessage(d) && GoodSize(d.pmtu, s.size)
  }

  ghost predicate Inv(s: Pipe) {
    && s.size > 0 && RR.Valid(s.queue)
    && (forall i :: 0 <= i < |s.channel| ==> Good(s, s.channel[i]))
    && (forall k :: Stream(s, k) == EmittedAll(ForQp(s.submitted, k)))
  }

  lemma {:induction false} ForQpConcat(a: seq<Desc>, b: seq<Desc>, k: RR.Qpn)
    ensures ForQp(a + b, k) == ForQp(a, k) + ForQp(b, k)
    decreases |a|
  {
    if a == [] {
      assert a + b == b;
    } else {
      ForQpConcat(a[1..], b, k);
      var head := if a[0].dqpn == k then [a[0]] else [];
      assert (a + b)[0] == a[0] && (a + b)[1..] == a[1..] + b;
      assert ForQp(a + b, k) == head + ForQp(a[1..] + b, k);
      Regroup(head, ForQp(a[1..], k), ForQp(b, k));
    }
  }

  lemma {:induction false} EmittedAllConcat(a: seq<Desc>, b: seq<Desc>)
    ensures EmittedAll(a + b) == EmittedAll(a) + EmittedAll(b)
    decreases |a|
  {
    hide Emitted;
    if a == [] {
      assert a + b == b;
    } else {
      assert (a + b)[1..] == a[1..] + b;
      EmittedAllConcat(a[1..], b);
      Regroup(Emitted(a[0]), EmittedAll(a[1..]), EmittedAll(b));
    }
  }

  lemma {:induction false} OnWireConcat(a: seq<(RR.Qpn, Carried)>, b: seq<(RR.Qpn, Carried)>, k: RR.Qpn)
    ensures OnWire(a + b, k) == OnWire(a, k) + OnWire(b, k)
    decreases |a|
  {
    if a == [] {
      assert a + b == b;
    } else {
      OnWireConcat(a[1..], b, k);
      var head := if a[0].0 == k then [a[0].1] else [];
      assert (a + b)[0] == a[0] && (a + b)[1..] == a[1..] + b;
      assert OnWire(a + b, k) == head + OnWire(a[1..] + b, k);
      Regroup(head, OnWire(a[1..], k), OnWire(b, k));
    }
  }

  lemma {:induction false} OnWireTagged(qpn: RR.Qpn, cs: seq<Carried>, k: RR.Qpn)
    ensures OnWire(Tagged(qpn, cs), k) == if k == qpn then cs else []
    decreases |cs|
  {
    if cs != [] {
      OnWireTagged(qpn, cs[1..], k);
      assert Tagged(qpn, cs)[1..] == Tagged(qpn, cs[1..]);
    }
  }

  lemma EmittedOne(d: Desc)
    ensures EmittedAll([d]) == Emitted(d)
  {
    assert EmittedAll([d][1..]) == [];
  }

  lemma OneForQp(d: Desc, k: RR.Qpn)
    ensures ForQp([d], k) == if d.dqpn == k then [d] else []
  {
    assert ForQp([d][1..], k) == [];
  }

  // Appending a descriptor appends its packets to the stream of its queue pair.
  lemma AppendDesc(ds: seq<Desc>, d: Desc, k: RR.Qpn)
    ensures EmittedAll(ForQp(ds + [d], k)) == EmittedAll(ForQp(ds, k)) + if d.dqpn == k then Emitted(d) else []
  {
    hide Emitted;
    ForQpConcat(ds, [d], k);
    OneForQp(d, k);
    if d.dqpn == k {
      EmittedAllConcat(ForQp(ds, k), [d]);
      EmittedOne(d);
    } else {
      assert ForQp(ds, k) + [] == ForQp(ds, k);
    }
  }

  lemma SubmitStream(s: Pipe, act: Action, k: RR.Qpn)
    requires Inv(s) && act.Submit? && Admissible(s, act)
    ensures var s' := Step(s, act); Stream(s', k) == EmittedAll(ForQp(s'.submitted, k))
  {
    hide Emitted, EmittedAll, WholeMessage;
    assert Stream(s, k) == EmittedAll(ForQp(s.submitted, k));
    if act.qpn in s.qps {
      var d := DescOf(s.qps[act.qpn], act.qpn, act.raddr, act.rkey, act.sge);
      AppendDesc(s.channel, d, k);
      AppendDesc(s.submitted, d, k);
      var more := if d.dqpn == k then Emitted(d) else [];
      var wire, waiting := OnWire(s.wire, k), EmittedAll(RR.Waiting(s.queue, k));
      var channel := EmittedAll(ForQp(s.channel, k));
      assert wire + (waiting + (channel + more)) == (wire + (waiting + channel)) + more;
    }
  }

  lemma ScheduleStream(s: Pipe, k: RR.Qpn)
    requires Inv(s) && s.channel != []
    ensures Stream(Step(s, Schedule), k) == Stream(s, k)
  {
    hide Emitted, EmittedAll, WholeMessage, Splitted;
    var d := s.channel[0];
    var chunks := Splitted(d, s.size);
    assert Good(s, d);
    RR.WaitingPushed(s.queue, d.dqpn, chunks, k);
    assert s.channel == [d] + s.channel[1..];
    ForQpConcat([d], s.channel[1..], k);
    OneForQp(d, k);
    if d.dqpn == k {
      EmittedAllConcat(RR.Waiting(s.queue, k), chunks);
      SplitPreserves(d, s.size);
      EmittedAllConcat([d], ForQp(s.channel[1..], k));
      EmittedOne(d);
    } else {
      assert RR.Waiting(s.queue, k) + [] == RR.Waiting(s.queue, k);
      assert [] + ForQp(s.channel[1..], k) == ForQp(s.channel[1..], k);
    }
  }

  lemma TransmitStream(s: Pipe, k: RR.Qpn)
    requires Inv(s) && s.queue != []
    ensures Stream(Step(s, Transmit), k) == Stream(s, k)
  {
    hide Emitted, EmittedAll, WholeMessage, RR.Rotated;
    var (qpn, descs) := s.queue[0];
    RR.WaitingRotated(s.queue, k);
    OnWireConcat(s.wire, Tagged(qpn, Emitted(descs[0])), k);
    OnWireTagged(qpn, Emitted(descs[0]), k);
    var rest := RR.Waiting(RR.Rotated(s.queue), k);
    if k == qpn {
      EmittedAllConcat([descs[0]], rest);
      EmittedOne(descs[0]);
    } else {
      assert [] + rest == rest;
      assert OnWire(s.wire, k) + [] == OnWire(s.wire, k);
    }
  }

  lemma SplittedNonEmpty(d: Desc, size: nat)
    requires size > 0
    ensures Splitted(d, size) != []
  {
  }

  lemma StepKeepsInv(s: Pipe, act: Action)
    requires Inv(s) && Admissible(s, act)
    ensures Inv(Step(s, act))
  {
    hide Emitted, EmittedAll, WholeMessage, Splitted, RR.Rotated, Stream;
    var s' := Step(s, act);
    forall k ensures Stream(s', k) == EmittedAll(ForQp(s'.submitted, k)) {
      assert Stream(s, k) == EmittedAll(ForQp(s.submitted, k));
      match act
      case Submit(_, _, _, _) => SubmitStream(s, act, k);
      case Schedule => if s.channel != [] { ScheduleStream(s, k); }
      case Transmit => if s.queue != [] { TransmitStream(s, k); }
    }
    match act
    case Submit(_, _, _, _) =>
    case Schedule =>
      if s.channel != [] {
        SplittedNonEmpty(s.channel[0], s.size);
        RR.PushedValid(s.queue, s.channel[0].dqpn, Splitted(s.channel[0], s.size));
      }
    case Transmit =>
      if s.queue != [] {
        RR.RotatedValid(s.queue);
      }
  }

  // ---- consecutive PSNs ---------------------------------------------------------------------------------

  ghost predicate Consecutive(cs: seq<Carried>, start: Psn) {
    forall i :: 0 <= i < |cs| ==> cs[i].psn == WrappingAdd(start, i)
  }

  // The packets of everything submitted for k have consecutive PSNs, and the next one to be
  // allocated follows them.
  ghost predicate PsnInv(s: Pipe, start: map<RR.Qpn, Psn>) {
    && s.qps.Keys == start.Keys
    && forall k :: k in start ==>
         var cs := EmittedAll(ForQp(s.submitted, k));
         Consecutive(cs, start[k]) && s.qps[k].sendingPsn == WrappingAdd(start[k], |cs|)
  }

  // A whole message takes exactly the PSNs that were allocated for it.
  lemma EmittedPsns(d: Desc)
    requires d.isFirst && d.isLast && d.sge1.None? && d.sge2.None? && d.sge3.None?
    ensures |Emitted(d)| == CalculatePacketCnt(d.pmtu, d.raddr, d.sge0.len) && Consecutive(Emitted(d), d.psn)
  {
    hide Segments, CalculatePacketCnt;
    EmittedCount(d);
    forall i | 0 <= i < |Emitted(d)| ensures Emitted(d)[i].psn == WrappingAdd(d.psn, i) {
      SegmentsPsn(d.kind, d.pmtu.Bytes(), true, true, d.raddr, d.psn, d.Source(), i);
    }
  }

  lemma ConsecutiveConcat(a: seq<Carried>, b: seq<Carried>, start: Psn)
    requires Consecutive(a, start) && Consecutive(b, WrappingAdd(start, |a|))
    ensures Consecutive(a + b, start)
  {
    forall i | 0 <= i < |a + b| ensures (a + b)[i].psn == WrappingAdd(start, i) {
      if i >= |a| {
        assert (a + b)[i] == b[i - |a|];
        AddTwo(start, |a|, i - |a|);
      }
    }
  }

  lemma AddTwo(start: Psn, m: nat, n: nat)
    ensures WrappingAdd(WrappingAdd(start, m), n) == WrappingAdd(start, m + n)
  {
  }

  lemma StepKeepsPsn(s: Pipe, act: Action, start: map<RR.Qpn, Psn>)
    requires Inv(s) && PsnInv(s, start)
    ensures PsnInv(Step(s, act), start)
  {
    hide Emitted, EmittedAll, Splitted, WrappingAdd, CalculatePacketCnt, Consecutive, Inv;
    assert s.size > 0 && RR.Valid(s.queue) by { SizeAndQueue(s); }
    var s' := Step(s, act);
    if act.Submit? && act.qpn in s.qps {
      var d := DescOf(s.qps[act.qpn], act.qpn, act.raddr, act.rkey, act.sge);
      forall k | k in start
        ensures var cs := EmittedAll(ForQp(s'.submitted, k));
                Consecutive(cs, start[k]) && s'.qps[k].sendingPsn == WrappingAdd(start[k], |cs|)
      {
        AppendDesc(s.submitted, d, k);
        var cs := EmittedAll(ForQp(s.submitted, k));
        if k == act.qpn {
          EmittedPsns(d);
          ConsecutiveConcat(cs, Emitted(d), start[k]);
          AddTwo(start[k], |cs|, |Emitted(d)|);
        } else {
          assert cs + [] == cs;
        }
      }
    }
  }

  lemma SizeAndQueue(s: Pipe)
    requires Inv(s)
    ensures s.size > 0 && RR.Valid(s.queue)
  {
  }

  // ---- whole runs -------------------------------------------------------------------------------------------

  ghost predicate AdmissibleRun(s: Pipe, acts: seq<Action>)
    requires Inv(s)
    decreases |acts|
  {
    acts != [] ==> Admissible(s, acts[0]) && (StepKeepsInv(s, acts[0]); AdmissibleRun(Step(s, acts[0]), acts[1..]))
  }

  ghost function Run(s: Pipe, acts: seq<Action>): Pipe
    requires Inv(s) && AdmissibleRun(s, acts)
    decreases |acts|
  {
    if acts == [] then s else StepKeepsInv(s, acts[0]); Run(Step(s, acts[0]), acts[1..])
  }

  lemma {:induction false} RunKeeps(s: Pipe, acts: seq<Action>, start: map<RR.Qpn, Psn>)
    requires Inv(s) && PsnInv(s, start) && AdmissibleRun(s, acts)
    ensures Inv(Run(s, acts)) && PsnInv(Run(s, acts), start)
    decreases |acts|
  {
    hide Inv, PsnInv;
    if acts != [] {
      assert s.size > 0 && RR.Valid(s.queue) by { SizeAndQueue(s); }
      hide Step;
      StepKeepsInv(s, acts[0]);
      StepKeepsPsn(s, acts[0], start);
      RunKeeps(Step(s, acts[0]), acts[1..], start);
    }
  }

  ghost function Idle(size: nat, qps: map<RR.Qpn, QpContext>): (s: Pipe)
    requires size > 0
    ensures Inv(s)
  {
    Pipe(size, qps, [], [], [], [])
  }

  // Whatever the queue pairs do, the packets sent for each of them are, in order, the first
  // packets of what was submitted for it, and their PSNs are consecutive modulo 2^24.
  lemma ContiguousPsns(size: nat, qps: map<RR.Qpn, QpContext>, acts: seq<Action>, k: RR.Qpn)
    requires size > 0 && k in qps
    requires AdmissibleRun(Idle(size, qps), acts)
    ensures var s := Run(Idle(size, qps), acts);
            && OnWire(s.wire, k) <= EmittedAll(ForQp(s.submitted, k))
            && Consecutive(OnWire(s.wire, k), qps[k].sendingPsn)
  {
    hide Run, AdmissibleRun, EmittedAll;
    var start := map q | q in qps :: qps[q].sendingPsn;
    IdlePsn(size, qps, start);
    RunKeeps(Idle(size, qps), acts, start);
    var s := Run(Idle(size, qps), acts);
    assert Stream(s, k) == EmittedAll(ForQp(s.submitted, k));
    var sent := OnWire(s.wire, k);
    assert forall i :: 0 <= i < |sent| ==> sent[i] == Stream(s, k)[i];
  }

  lemma IdlePsn(size: nat, qps: map<RR.Qpn, QpContext>, start: map<RR.Qpn, Psn>)
    requires size > 0 && start.Keys == qps.Keys && forall q :: q in qps ==> start[q] == qps[q].sendingPsn
    ensures PsnInv(Idle(size, qps), start)
  {
  }

  // ---- message sequence numbers ---------------------------------------------------------------------------------

  const MSN_BORDER: nat := 0x1_0000

  // The i-th descriptor of a queue pair carries the i-th MSN after the first, and the next one follows.
  ghost predicate Numbered(ds: seq<Desc>, start: nat) {
    forall i :: 0 <= i < |ds| ==> ds[i].msn == (start + i) % MSN_BORDER
  }

  ghost predicate MsnInv(s: Pipe, start: map<RR.Qpn, nat>) {
    && s.qps.Keys == start.Keys
    && (forall k :: k in start ==>
          var ds := ForQp(s.submitted, k);
          Numbered(ds, start[k]) && s.qps[k].nextMsn == (start[k] + |ds|) % MSN_BORDER)
    && (forall i :: 0 <= i < |s.submitted| ==> s.submitted[i].dqpn in start)
  }

  lemma NextMsn(start: nat, n: nat)
    ensures ((start + n) % MSN_BORDER + 1) % MSN_BORDER == (start + (n + 1)) % MSN_BORDER
  {
  }

  lemma StepKeepsMsn(s: Pipe, act: Action, start: map<RR.Qpn, nat>)
    requires s.size > 0 && RR.Valid(s.queue) && MsnInv(s, start)
    ensures MsnInv(Step(s, act), start)
  {
    hide ForQp, Splitted, Emitted, CalculatePacketCnt, RR.Rotated;
    var s' := Step(s, act);
    if act.Submit? && act.qpn in s.qps {
      var d := DescOf(s.qps[act.qpn], act.qpn, act.raddr, act.rkey, act.sge);
      forall k | k in start
        ensures var ds := ForQp(s'.submitted, k);
                Numbered(ds, start[k]) && s'.qps[k].nextMsn == (start[k] + |ds|) % MSN_BORDER
      {
        ForQpConcat(s.submitted, [d], k);
        OneForQp(d, k);
        if k == act.qpn {
          NextMsn(start[k], |ForQp(s.submitted, k)|);
        } else {
          assert ForQp(s.submitted, k) + [] == ForQp(s.submitted, k);
        }
      }
    }
  }

  lemma {:induction false} RunKeepsMsn(s: Pipe, acts: seq<Action>, start: map<RR.Qpn, nat>)
    requires Inv(s) && AdmissibleRun(s, acts) && MsnInv(s, start)
    ensures MsnInv(Run(s, acts), start)
    decreases |acts|
  {
    hide Inv, MsnInv;
    if acts != [] {
      assert s.size > 0 && RR.Valid(s.queue) by { SizeAndQueue(s); }
      hide Step;
      StepKeepsInv(s, acts[0]);
      StepKeepsMsn(s, acts[0], start);
      RunKeepsMsn(Step(s, acts[0]), acts[1..], start);
    }
  }

  // Over every run the submissions of a queue pair are numbered consecutively modulo 2^16.
  lemma ConsecutiveMsns(size: nat, qps: map<RR.Qpn, QpContext>, acts: seq<Action>)
    requires size > 0 && AdmissibleRun(Idle(size, qps), acts)
    requires forall k :: k in qps ==> qps[k].nextMsn < MSN_BORDER
    ensures var s := Run(Idle(size, qps), acts);
            && (forall k :: k in qps ==> Numbered(ForQp(s.submitted, k), qps[k].nextMsn))
            && (forall i :: 0 <= i < |s.submitted| ==> s.submitted[i].dqpn in qps)
  {
    hide Run, AdmissibleRun;
    var start := map k | k in qps :: qps[k].nextMsn;
    assert MsnInv(Idle(size, qps), start);
    RunKeepsMsn(Idle(size, qps), acts, start);
    forall k | k in qps ensures Numbered(ForQp(Run(Idle(size, qps), acts).submitted, k), qps[k].nextMsn) {
      assert k in start;
    }
  }

  // ---- keys of operations ------------------------------------------------------------------------------------------

  ghost function KeyOf(d: Desc): (nat, nat) {
    (d.dqpn, d.msn)
  }

  // Where the i-th descriptor stands among those of its queue pair.
  lemma PlaceOf(ds: seq<Desc>, i: nat)
    requires i < |ds|
    ensures var k := ds[i].dqpn; var n := |ForQp(ds[..i], k)|; n < |ForQp(ds, k)| && ForQp(ds, k)[n] == ds[i]
  {
    var k := ds[i].dqpn;
    assert ds == ds[..i] + ([ds[i]] + ds[i + 1..]);
    ForQpConcat(ds[..i], [ds[i]] + ds[i + 1..], k);
    ForQpConcat([ds[i]], ds[i + 1..], k);
    OneForQp(ds[i], k);
  }

  lemma PlacesGrow(ds: seq<Desc>, i: nat, j: nat)
    requires i < j < |ds| && ds[i].dqpn == ds[j].dqpn
    ensures |ForQp(ds[..i], ds[i].dqpn)| < |ForQp(ds[..j], ds[i].dqpn)|
  {
    var k := ds[i].dqpn;
    assert ds[..j] == ds[..i] + ([ds[i]] + ds[i + 1..j]);
    ForQpConcat(ds[..i], [ds[i]] + ds[i + 1..j], k);
    ForQpConcat([ds[i]], ds[i + 1..j], k);
    OneForQp(ds[i], k);
  }

  // As long as no queue pair has submitted more than 2^16 operations, no two operations have the same key.
  lemma KeysDistinct(ds: seq<Desc>, start: map<RR.Qpn, nat>)
    requires forall i :: 0 <= i < |ds| ==> ds[i].dqpn in start
    requires forall k :: k in start ==> Numbered(ForQp(ds, k), start[k]) && |ForQp(ds, k)| <= MSN_BORDER
    ensures forall i, j :: 0 <= i < j < |ds| ==> KeyOf(ds[i]) != KeyOf(ds[j])
  {
    hide ForQp;
    forall i, j | 0 <= i < j < |ds| ensures KeyOf(ds[i]) != KeyOf(ds[j]) {
      if ds[i].dqpn == ds[j].dqpn {
        var k := ds[i].dqpn;
        PlaceOf(ds, i);
        PlaceOf(ds, j);
        PlacesGrow(ds, i, j);
        MsnsDiffer(start[k], |ForQp(ds[..i], k)|, |ForQp(ds[..j], k)|);
      }
    }
  }

  lemma MsnsDiffer(start: nat, i: nat, j: nat)
    requires i < j < i + MSN_BORDER
    ensures (start + i) % MSN_BORDER != (start + j) % MSN_BORDER
  {
  }

  // ---- reads and writes together --------------------------------------------------------------------------------

  datatype Request = WriteRequest(raddr: nat, len: nat) | ReadRequest

  ghost function AfterRequest(qp: QpContext, r: Request): QpContext {
    match r
    case WriteRequest(raddr, len) => AfterSubmit(qp, raddr, len)
    case ReadRequest => AfterRead(qp)
  }

  ghost function AfterRequests(qp: QpContext, rs: seq<Request>): QpContext
    decreases |rs|
  {
    if rs == [] then qp else AfterRequests(AfterRequest(qp, rs[0]), rs[1..])
  }

  // The packets that leave for a request: those of the message, or the one that asks for the data.
  ghost function Leaving(pmtu: Pmtu, r: Request): nat {
    match r
    case WriteRequest(raddr, len) => |Segments(Write, pmtu.Bytes(), true, true, raddr, 0, Range(0, len))|
    case ReadRequest => 1
  }

  ghost function LeavingAll(pmtu: Pmtu, rs: seq<Request>): nat {
    if rs == [] then 0 else Leaving(pmtu, rs[0]) + LeavingAll(pmtu, rs[1..])
  }

  lemma RequestTakes(qp: QpContext, r: Request)
    ensures var q := AfterRequest(qp, r);
            && q.pmtu == qp.pmtu && q.nextMsn == (qp.nextMsn + 1) % MSN_BORDER
            && q.sendingPsn == WrappingAdd(qp.sendingPsn, Leaving(qp.pmtu, r))
  {
    hide CalculatePacketCnt, Segments;
    if r.WriteRequest? {
      SegmentsCount(Write, qp.pmtu, true, true, r.raddr, 0, Range(0, r.len));
    }
  }

  // Whatever a user asks for on a queue pair, each request gets one MSN and as many PSNs as it has packets, without
  // a gap and without an overlap.
  lemma {:induction false} RequestsTake(qp: QpContext, rs: seq<Request>)
    requires qp.nextMsn < MSN_BORDER
    ensures var q := AfterRequests(qp, rs);
            && q.nextMsn == (qp.nextMsn + |rs|) % MSN_BORDER
            && q.sendingPsn == WrappingAdd(qp.sendingPsn, LeavingAll(qp.pmtu, rs))
    decreases |rs|
  {
    hide WrappingAdd, AfterRequest, Leaving;
    if rs == [] {
      AddNothing(qp.sendingPsn);
    } else {
      var q := AfterRequest(qp, rs[0]);
      RequestTakes(qp, rs[0]);
      RequestsTake(q, rs[1..]);
      AddTwo(qp.sendingPsn, Leaving(qp.pmtu, rs[0]), LeavingAll(qp.pmtu, rs[1..]));
      NextMsnTwice(qp.nextMsn, |rs| - 1);
    }
  }

  lemma AddNothing(p: Psn)
    ensures WrappingAdd(p, 0) == p
  {
  }

  lemma NextMsnTwice(msn: nat, n: nat)
    ensures ((msn + 1) % MSN_BORDER + n) % MSN_BORDER == (msn + (n + 1)) % MSN_BORDER
  {
  }
}
