// The packet checker object: the receive contexts of all queue pairs, updated in place.

module PacketChecker {
  import opened Psn
  import opened Wrappers
  import opened RecvWindow
  import opened PacketLength
  import opened Checker

  datatype QpEntry = QpEntry(status: QpStatus, pmtu: Pmtu)

  ghost function Tag(q: Qpn, effects: seq<Effect>): seq<(Qpn, Effect)> {
    seq(|effects|, i requires 0 <= i < |effects| => (q, effects[i]))
  }

  class PacketCheckerContext {
    var qpTable: map<Qpn, QpEntry>
    var recvCtxMap: map<Qpn, PerQp>
    // what was handed to the descriptor senders, the retry map and the waiting users
    var sent: seq<(Qpn, Effect)>

    function View(q: Qpn): Qp
      requires q in qpTable
      reads this
    {
      Qp(qpTable[q].status, qpTable[q].pmtu, if q in recvCtxMap then Some(recvCtxMap[q]) else None)
    }

    // The step of queue pair q from before to after, with nothing else changed.
    twostate predicate Steps(q: Qpn, after: Qp, effects: seq<Effect>)
      reads this
    {
      && q in qpTable && View(q) == after
      && qpTable.Keys == old(qpTable.Keys)
      && (forall q' :: q' in qpTable && q' != q ==> View(q') == old(View(q')))
      && sent == old(sent) + Tag(q, effects)
    }

    constructor (qps: map<Qpn, QpEntry>)
      ensures qpTable == qps && recvCtxMap == map[] && sent == []
    {
      qpTable := qps;
      recvCtxMap := map[];
      sent := [];
    }

    method Emit(qpn: Qpn, effect: Effect)
      modifies this`sent
      ensures sent == old(sent) + Tag(qpn, [effect])
    {
      sent := sent + [(qpn, effect)];
    }

    // ---- the tables -------------------------------------------------------------------------------

    method SetRecentMsnStatus(qpn: Qpn, msn: Msn, status: MsnStatus)
      modifies this`recvCtxMap
      ensures recvCtxMap ==
              if qpn in old(recvCtxMap) then old(recvCtxMap)[qpn := old(recvCtxMap)[qpn].SetStatus(msn, status)]
              else old(recvCtxMap)
    {
      if qpn in recvCtxMap {
        recvCtxMap := recvCtxMap[qpn := recvCtxMap[qpn].SetStatus(msn, status)];
      }
    }

    method QueryRecentMsnStatus(qpn: Qpn, msn: Msn) returns (status: MsnStatus)
      ensures status == if qpn in recvCtxMap then recvCtxMap[qpn].QueryStatus(msn) else NoExist
    {
      if qpn in recvCtxMap {
        status := recvCtxMap[qpn].QueryStatus(msn);
      } else {
        status := NoExist;
      }
    }

    method InsertCtx(qpn: Qpn, msn: Msn, ctx: RecvContext)
      modifies this`recvCtxMap
      ensures var p := if qpn in old(recvCtxMap) then old(recvCtxMap)[qpn] else EmptyPerQp(0);
              recvCtxMap == old(recvCtxMap)[qpn := p.InsertCtx(msn, ctx)]
    {
      if qpn !in recvCtxMap {
        recvCtxMap := recvCtxMap[qpn := EmptyPerQp(0)];
      }
      recvCtxMap := recvCtxMap[qpn := recvCtxMap[qpn].InsertCtx(msn, ctx)];
    }

    method RemoveCtx(qpn: Qpn, msn: Msn)
      modifies this`recvCtxMap
      ensures recvCtxMap ==
              if qpn in old(recvCtxMap) then old(recvCtxMap)[qpn := old(recvCtxMap)[qpn].RemoveCtx(msn)]
              else old(recvCtxMap)
    {
      if qpn in recvCtxMap {
        recvCtxMap := recvCtxMap[qpn := recvCtxMap[qpn].RemoveCtx(msn)];
      }
    }

    method UpdateLargestPsnRecved(qpn: Qpn, psn: Psn)
      requires qpn in recvCtxMap
      modifies this`recvCtxMap
      ensures recvCtxMap == old(recvCtxMap)[qpn := old(recvCtxMap)[qpn].UpdateLargest(psn)]
    {
      recvCtxMap := recvCtxMap[qpn := recvCtxMap[qpn].UpdateLargest(psn)];
    }

    // ---- in-order packets ---------------------------------------------------------------------------

    method HandleQpNormal(qpn: Qpn, e: WriteEvent)
      requires qpn in qpTable
      modifies this`recvCtxMap, this`sent
      ensures var r := HandleNormal(old(View(qpn)), e); Steps(qpn, r.qp, r.effects)
    {
      match e.writeType
      case First =>
        var status := QueryRecentMsnStatus(qpn, e.msn);
        if status == NoExist {
          InsertCtx(qpn, e.msn, ContextOf(e));
        }
      case Last =>
        RemoveCtx(qpn, e.msn);
        if !e.isReadResp {
          if !e.canAutoAck {
            Emit(qpn, SendAck(e.msn, e.psn));
          }
          Emit(qpn, CancelRetry(e.msn));
        } else {
          Emit(qpn, WakeUser(e.msn));
        }
      case Only =>
        SetRecentMsnStatus(qpn, e.msn, Finished);
        FinishOnly(qpn, e);
      case Middle =>
    }

    method FinishOnly(qpn: Qpn, e: WriteEvent)
      modifies this`sent
      ensures sent == old(sent) + Tag(qpn, OnlyEffects(e))
    {
      if e.isReadResp {
        Emit(qpn, WakeUser(e.msn));
      } else if !e.canAutoAck {
        Emit(qpn, SendAck(e.msn, e.psn));
      }
    }

    // ---- out-of-order packets -----------------------------------------------------------------------

    method CreateMap(c: RecvContext, start: Psn, recved: Psn, pmtu: Pmtu) returns (r: RecvContext)
      ensures r == CreateMapOnPsn(c, start, recved, pmtu)
    {
      hide WindowView.Inserted, CalculatePacketCnt;
      var w := new SlidingWindow(c.startPsn, CalculatePacketCnt(pmtu, c.startAddr, c.lenInBytes));
      w.Insert(c.startPsn, start);
      w.Insert(recved, recved);
      r := c.(recvMap := Some(w.View()));
    }

    method EnterQpErrorStatus(qpn: Qpn, pmtu: Pmtu, expected: Psn, recved: Psn)
      requires qpn in qpTable && pmtu == qpTable[qpn].pmtu
      modifies this`recvCtxMap, this`qpTable
      ensures Steps(qpn, EnterError(old(View(qpn)), expected, recved), [])
    {
      hide WindowView.Inserted, CreateMapOnPsn, CalculatePacketCnt, WrappingSub, EmptyPerQp;
      ghost var entered := EnterError(View(qpn), expected, recved);
      qpTable := qpTable[qpn := qpTable[qpn].(status := OutOfOrder)];
      var p: PerQp := if qpn in recvCtxMap then recvCtxMap[qpn] else EmptyPerQp(recved);
      var start := WrappingSub(expected, 1);
      var todo, ctxs := p.contexts.Keys, p.contexts;
      while todo != {}
        invariant recvCtxMap == old(recvCtxMap) && sent == old(sent)
        invariant qpTable == old(qpTable)[qpn := old(qpTable)[qpn].(status := OutOfOrder)]
        invariant todo <= p.contexts.Keys == ctxs.Keys
        invariant forall m :: m in p.contexts ==>
                    ctxs[m] == if m in todo then p.contexts[m] else CreateMapOnPsn(p.contexts[m], start, recved, pmtu)
        decreases todo
      {
        var m :| m in todo;
        var c := CreateMap(ctxs[m], start, recved, pmtu);
        ctxs := ctxs[m := c];
        todo := todo - {m};
      }
      recvCtxMap := recvCtxMap[qpn := p.(contexts := ctxs)];
      assert ctxs == entered.perQp.value.contexts;
    }

    // Records a packet in the window of its message.
    method RecordInWindow(qpn: Qpn, e: WriteEvent) returns (gap: Option<(Psn, Psn)>)
      requires qpn in recvCtxMap && e.msn in recvCtxMap[qpn].contexts
      requires recvCtxMap[qpn].contexts[e.msn].recvMap.Some?
      modifies this`recvCtxMap
      ensures var p := old(recvCtxMap)[qpn];
              var c := p.contexts[e.msn];
              var w := RecordPacket(c.recvMap.value, p.largestPsnRecved, e);
              && recvCtxMap == old(recvCtxMap)[qpn := p.(contexts := p.contexts[e.msn := c.(recvMap := Some(w))])]
              && gap == w.RecentGap()
    {
      var p := recvCtxMap[qpn];
      var c := p.contexts[e.msn];
      var w := new SlidingWindow.Take(c.recvMap.value);
      var range := GetContinuousRange(p.largestPsnRecved, e.expectedPsn);
      if range.Some? {
        w.Insert(range.value.0, range.value.1);
      }
      w.Insert(e.psn, e.psn);
      gap := w.View().RecentGap();
      recvCtxMap := recvCtxMap[qpn := p.(contexts := p.contexts[e.msn := c.(recvMap := Some(w.View()))])];
    }

    method CheckCompletedAndTryRecover(qpn: Qpn, msn: Msn)
      requires qpn in qpTable && CheckCompleted(View(qpn), msn).Next?
      modifies this`recvCtxMap, this`sent
      ensures var r := CheckCompleted(old(View(qpn)), msn); Steps(qpn, r.qp, r.effects)
    {
      var isReadResp, isCompleted, lastPsn: Psn, recoverPsn := false, false, 0, None;
      if msn in recvCtxMap[qpn].contexts {
        var ctx := recvCtxMap[qpn].contexts[msn];
        var w := ctx.recvMap.value;
        isReadResp, isCompleted := ctx.isReadResp, w.IsComplete();
        lastPsn, recoverPsn := w.LastPsn(), w.TryGetRecoverPsn();
      }
      if isCompleted {
        RemoveCtx(qpn, msn);
        if isReadResp {
          Emit(qpn, WakeUser(msn));
        } else {
          Emit(qpn, SendAck(msn, lastPsn));
          Emit(qpn, CancelRetry(msn));
        }
      }
      if |recvCtxMap[qpn].contexts| <= 1 {
        if recoverPsn.Some? && recoverPsn.value == WrappingAdd(recvCtxMap[qpn].largestPsnRecved, 1) {
          Emit(qpn, TryRecover(recoverPsn.value));
        }
      }
    }

    method HandleQpOoo(qpn: Qpn, e: WriteEvent, pmtu: Pmtu)
      requires qpn in qpTable && pmtu == qpTable[qpn].pmtu
      requires HandleOutOfOrder(View(qpn), e).Next?
      modifies this`recvCtxMap, this`sent
      ensures var r := HandleOutOfOrder(old(View(qpn)), e); Steps(qpn, r.qp, r.effects)
    {
      hide PerQpContext.InsertCtx, PerQpContext.SetStatus, PerQpContext.QueryStatus, PerQpContext.UpdateLargest,
           ContextWithWindow;
      match e.writeType
      case First =>
        var status := QueryRecentMsnStatus(qpn, e.msn);
        if status == NoExist {
          InsertCtx(qpn, e.msn, ContextWithWindow(e, pmtu));
        }
        UpdateLargestPsnRecved(qpn, e.psn);
      case Only =>
        SetRecentMsnStatus(qpn, e.msn, Finished);
        FinishOnly(qpn, e);
        UpdateLargestPsnRecved(qpn, e.psn);
      case _ =>
        HandleMiddleOrLast(qpn, e);
    }

    method HandleMiddleOrLast(qpn: Qpn, e: WriteEvent)
      requires qpn in qpTable && (e.writeType.Middle? || e.writeType.Last?)
      requires HandleOutOfOrder(View(qpn), e).Next?
      modifies this`recvCtxMap, this`sent
      ensures var r := HandleOutOfOrder(old(View(qpn)), e); Steps(qpn, r.qp, r.effects)
    {
      hide LargerInPsn, RecordPacket, WindowView.RecentGap, WindowView.GapPanics, CheckCompleted;
      if e.msn in recvCtxMap[qpn].contexts {
        var gap := RecordInWindow(qpn, e);
        if gap.Some? {
          Emit(qpn, SendNack(e.msn, gap.value.0, gap.value.1));
        }
        UpdateLargestPsnRecved(qpn, e.psn);
        CheckCompletedAndTryRecover(qpn, e.msn);
      } else {
        UpdateLargestPsnRecved(qpn, e.psn);
      }
    }

    // One event of a known queue pair is the step of that queue pair; events of unknown queue
    // pairs change nothing, and of these only acknowledgements have effects.
    method HandleCheckEvent(qpn: Qpn, event: Event)
      requires qpn in qpTable ==> HandleEvent(View(qpn), event).Next?
      modifies this
      ensures qpn in old(qpTable) ==> var r := HandleEvent(old(View(qpn)), event); Steps(qpn, r.qp, r.effects)
      ensures qpn !in old(qpTable) ==>
                && sent == old(sent) + Tag(qpn, if event.Acked? then AckEffects(event) else [])
                && qpTable == old(qpTable) && forall q :: q in qpTable ==> View(q) == old(View(q))
    {
      hide HandleOutOfOrder, HandleNormal, CreateMapOnPsn, PerQpContext.SetStatus;
      match event
      case Write(e) =>
        if qpn !in qpTable {
          return;
        }
        var isNormal, pmtu := qpTable[qpn].status.Normal?, qpTable[qpn].pmtu;
        if isNormal && e.expectedPsn != e.psn {
          EnterQpErrorStatus(qpn, pmtu, e.expectedPsn, e.psn);
          isNormal := false;
        }
        if isNormal {
          HandleQpNormal(qpn, e);
        } else {
          HandleQpOoo(qpn, e, pmtu);
        }
      case ReadReq(msn) =>
        SetRecentMsnStatus(qpn, msn, Finished);
        if qpn in qpTable {
          Emit(qpn, SendReadResp(msn));
        }
      case Acked(msn, code, psn, expectedPsn) =>
        match code {
          case Ack => Emit(qpn, WakeUser(msn));
          case Nak => Emit(qpn, ResendPart(msn, psn, expectedPsn));
          case Reserved =>
        }
    }
  }
}
