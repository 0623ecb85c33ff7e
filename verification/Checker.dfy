// The receive-side packet checker of one queue pair, as a function from state and event to
// state and effects. PacketChecker.dfy holds the object that performs these steps in place.

module Checker {
  import opened Psn
  import opened Wrappers
  import opened RecvWindow
  import opened PacketLength

  const MAX_MSN_WINDOW_PER_QP: nat := 16

  type Msn = n: nat | n < 0x1_0000

  type Qpn = Psn

  datatype QpStatus = Normal | OutOfOrder

  datatype WriteType = First | Middle | Last | Only

  datatype WriteEvent = WriteEvent(
    msn: Msn,
    expectedPsn: Psn,
    psn: Psn,
    writeType: WriteType,
    addr: nat,
    len: nat,
    isReadResp: bool,
    canAutoAck: bool)

  // The code of an acknowledge packet; the other codes are reserved.
  datatype AckCode = Ack | Nak | Reserved

  datatype Event =
    | Write(write: WriteEvent)
    | ReadReq(msn: Msn)
    | Acked(msn: Msn, code: AckCode, psn: Psn, expectedPsn: Psn)

  // What a step asks of the rest of the driver.
  datatype Effect =
    | SendAck(msn: Msn, psn: Psn)
    | SendNack(msn: Msn, start: Psn, end: Psn)
    | SendReadResp(msn: Msn)
    | WakeUser(msn: Msn)
    | CancelRetry(msn: Msn)
    | TryRecover(recoverPsn: Psn)
    | ResendPart(msn: Msn, from: Psn, to: Psn)

  datatype MsnStatus = NoExist | Processing | Finished | Unknown

  datatype RecvContext = RecvContext(
    isReadResp: bool,
    startAddr: nat,
    lenInBytes: nat,
    startPsn: Psn,
    recvMap: Option<WindowView>)

  datatype PerQpContext = PerQpContext(
    contexts: map<Msn, RecvContext>,
    largestPsnRecved: Psn,
    recentMsn: seq<(Msn, MsnStatus)>)
  {
    predicate ValidRing() {
      |recentMsn| == MAX_MSN_WINDOW_PER_QP
    }

    function UpdateLargest(psn: Psn): PerQpContext {
      if !LargerInPsn(largestPsnRecved, psn) then this.(largestPsnRecved := psn) else this
    }

    // A slot that is being processed answers for every MSN that maps to it.
    function QueryStatus(msn: Msn): MsnStatus
      requires ValidRing()
    {
      match recentMsn[msn % MAX_MSN_WINDOW_PER_QP]
      case (previous, Finished) => if previous == msn then Finished else NoExist
      case (_, status) => status
    }

    function SetStatus(msn: Msn, status: MsnStatus): (p: PerQpContext)
      requires ValidRing()
      ensures p.ValidRing()
    {
      this.(recentMsn := recentMsn[msn % MAX_MSN_WINDOW_PER_QP := (msn, status)])
    }

    function InsertCtx(msn: Msn, ctx: RecvContext): (p: PerQpContext)
      requires ValidRing()
      ensures p.ValidRing()
    {
      var p := this.(contexts := contexts[msn := ctx]);
      if msn in contexts then p else p.SetStatus(msn, Processing)
    }

    function RemoveCtx(msn: Msn): (p: PerQpContext)
      requires ValidRing()
      ensures p.ValidRing()
    {
      this.(contexts := contexts - {msn}).SetStatus(msn, Finished)
    }
  }

  function EmptyPerQp(largest: Psn): (p: PerQpContext)
    ensures p.ValidRing()
  {
    PerQpContext(map[], largest, seq(MAX_MSN_WINDOW_PER_QP, i => (0, NoExist)))
  }

  type PerQp = p: PerQpContext | p.ValidRing() witness EmptyPerQp(0)

  // One queue pair: its status, its MTU and its receive contexts, if it has any yet.
  datatype Qp = Qp(status: QpStatus, pmtu: Pmtu, perQp: Option<PerQp>)

  // A step either panics or yields the next state and the effects in order.
  datatype Outcome = Panic | Next(qp: Qp, effects: seq<Effect>)

  // ---- contexts ------------------------------------------------------------------------

  function ContextOf(e: WriteEvent): RecvContext {
    RecvContext(e.isReadResp, e.addr, e.len, e.psn, None)
  }

  function ContextWithWindow(e: WriteEvent, pmtu: Pmtu): RecvContext {
    var w := WindowView(map[], e.psn, CalculatePacketCnt(pmtu, e.addr, e.len));
    RecvContext(e.isReadResp, e.addr, e.len, e.psn, Some(w.Inserted(e.psn, e.psn)))
  }

  // Every packet of the message up to lastContinuous arrived in order, and then recved did.
  function CreateMapOnPsn(c: RecvContext, lastContinuous: Psn, recved: Psn, pmtu: Pmtu): RecvContext {
    var w := WindowView(map[], c.startPsn, CalculatePacketCnt(pmtu, c.startAddr, c.lenInBytes));
    c.(recvMap := Some(w.Inserted(c.startPsn, lastContinuous).Inserted(recved, recved)))
  }

  function GetContinuousRange(largest: Psn, expected: Psn): Option<(Psn, Psn)> {
    var left := WrappingAdd(largest, 1);
    var right := WrappingSub(expected, 1);
    if WrappingSub(right, left) <= PSN_MAX_WINDOW_SIZE then Some((left, right)) else None
  }

  function PerQpOrNew(q: Qp, largest: Psn): PerQp {
    if q.perQp.Some? then q.perQp.value else EmptyPerQp(largest)
  }

  function StatusOf(q: Qp, msn: Msn): MsnStatus {
    if q.perQp.Some? then q.perQp.value.QueryStatus(msn) else NoExist
  }

  function WithStatus(q: Qp, msn: Msn, status: MsnStatus): Qp {
    if q.perQp.Some? then q.(perQp := Some(q.perQp.value.SetStatus(msn, status))) else q
  }

  function WithoutCtx(q: Qp, msn: Msn): Qp {
    if q.perQp.Some? then q.(perQp := Some(q.perQp.value.RemoveCtx(msn))) else q
  }

  // ---- in-order handling -----------------------------------------------------------------

  function HandleNormal(q: Qp, e: WriteEvent): Outcome {
    match e.writeType
    case First =>
      if StatusOf(q, e.msn) == NoExist then
        Next(q.(perQp := Some(PerQpOrNew(q, 0).InsertCtx(e.msn, ContextOf(e)))), [])
      else
        Next(q, [])
    case Last =>
      var q' := WithoutCtx(q, e.msn);
      if e.isReadResp then
        Next(q', [WakeUser(e.msn)])
      else
        Next(q', (if e.canAutoAck then [] else [SendAck(e.msn, e.psn)]) + [CancelRetry(e.msn)])
    case Only =>
      Next(WithStatus(q, e.msn, Finished), OnlyEffects(e))
    case Middle =>
      Next(q, [])
  }

  function OnlyEffects(e: WriteEvent): seq<Effect> {
    if e.isReadResp then [WakeUser(e.msn)]
    else if !e.canAutoAck then [SendAck(e.msn, e.psn)]
    else []
  }

  // ---- out-of-order handling ---------------------------------------------------------------

  function EnterError(q: Qp, expected: Psn, recved: Psn): Qp {
    var p := PerQpOrNew(q, recved);
    var start := WrappingSub(expected, 1);
    var ctxs := map m | m in p.contexts :: CreateMapOnPsn(p.contexts[m], start, recved, q.pmtu);
    q.(status := OutOfOrder, perQp := Some(p.(contexts := ctxs)))
  }

  // The window of an open message after a Middle or Last packet of it.
  function RecordPacket(w: WindowView, largest: Psn, e: WriteEvent): WindowView {
    var range := GetContinuousRange(largest, e.expectedPsn);
    var w1 := if range.Some? then w.Inserted(range.value.0, range.value.1) else w;
    w1.Inserted(e.psn, e.psn)
  }

  function GapEffects(w: WindowView, msn: Msn): seq<Effect> {
    var gap := w.RecentGap();
    if gap.Some? then [SendNack(msn, gap.value.0, gap.value.1)] else []
  }

  function HandleOutOfOrder(q: Qp, e: WriteEvent): Outcome {
    if q.perQp.None? then
      Panic
    else
      var p := q.perQp.value;
      match e.writeType
      case First =>
        var p' := if p.QueryStatus(e.msn) == NoExist
                  then p.InsertCtx(e.msn, ContextWithWindow(e, q.pmtu))
                  else p;
        Next(q.(perQp := Some(p'.UpdateLargest(e.psn))), [])
      case Only =>
        Next(q.(perQp := Some(p.SetStatus(e.msn, Finished).UpdateLargest(e.psn))), OnlyEffects(e))
      case _ =>
        if e.msn !in p.contexts then
          Next(q.(perQp := Some(p.UpdateLargest(e.psn))), [])
        else
          var c := p.contexts[e.msn];
          if c.recvMap.None? then
            Panic
          else
            var w := RecordPacket(c.recvMap.value, p.largestPsnRecved, e);
            var p' := p.(contexts := p.contexts[e.msn := c.(recvMap := Some(w))]).UpdateLargest(e.psn);
            var r := CheckCompleted(q.(perQp := Some(p')), e.msn);
            if w.GapPanics() || r.Panic? then Panic else Next(r.qp, GapEffects(w, e.msn) + r.effects)
  }

  function CheckCompleted(q: Qp, msn: Msn): Outcome {
    if q.perQp.None? then
      Panic
    else if msn !in q.perQp.value.contexts then
      Next(q, [])
    else if q.perQp.value.contexts[msn].recvMap.None? || q.perQp.value.contexts[msn].recvMap.value.RecoverPanics() then
      Panic
    else
      var c := q.perQp.value.contexts[msn];
      var w := c.recvMap.value;
      var q' := if w.IsComplete() then WithoutCtx(q, msn) else q;
      var done := if !w.IsComplete() then []
                  else if c.isReadResp then [WakeUser(msn)]
                  else [SendAck(msn, w.LastPsn()), CancelRetry(msn)];
      Next(q', done + RecoverEffects(q'.perQp.value, w.TryGetRecoverPsn()))
  }

  function RecoverEffects(p: PerQp, recover: Option<Psn>): seq<Effect> {
    if |p.contexts| <= 1 && recover == Some(WrappingAdd(p.largestPsnRecved, 1))
    then [TryRecover(recover.value)]
    else []
  }

  // ---- one event -----------------------------------------------------------------------------

  function HandleWrite(q: Qp, e: WriteEvent): Outcome {
    if q.status.Normal? && e.expectedPsn != e.psn then
      HandleOutOfOrder(EnterError(q, e.expectedPsn, e.psn), e)
    else if q.status.Normal? then
      HandleNormal(q, e)
    else
      HandleOutOfOrder(q, e)
  }

  function HandleEvent(q: Qp, e: Event): Outcome {
    match e
    case Write(w) => HandleWrite(q, w)
    case ReadReq(msn) => Next(WithStatus(q, msn, Finished), [SendReadResp(msn)])
    case Acked(_, _, _, _) => Next(q, AckEffects(e))
  }

  // An acknowledgement wakes the user, and a negative one asks for a part of the message again.
  function AckEffects(e: Event): seq<Effect>
    requires e.Acked?
  {
    match e.code
    case Ack => [WakeUser(e.msn)]
    case Nak => [ResendPart(e.msn, e.psn, e.expectedPsn)]
    case Reserved => []
  }
}
