// Operations from submission to failure: the keys under which the retry monitor keeps them.

module Operations {
  import opened Pipeline
  import opened Transmit
  import Retry

  // Every submitted operation is added to the retry monitor under its key, in order.
  ghost predicate Records(submitted: seq<Desc>, events: seq<Retry.Event>) {
    var keys := Retry.AddedKeys(events);
    |keys| == |submitted| && forall i :: 0 <= i < |keys| ==> keys[i] == KeyOf(submitted[i])
  }

  // Over every run of the pipeline in which no queue pair submits more than 2^16 operations, and every run of
  // the monitor that has these operations added: an operation is failed only after it was sent again the maximum
  // number of times and waited for one more timeout.
  lemma FailureOfSubmitted(size: nat, qps: map<RR.Qpn, QpContext>, acts: seq<Action>, cfg: Retry.Config,
                           events: seq<Retry.Event>, m: Retry.Monitor, i: nat, id: nat)
    requires size > 0 && AdmissibleRun(Idle(size, qps), acts)
    requires forall k :: k in qps ==> qps[k].nextMsn < MSN_BORDER
    requires forall k :: k in qps ==> |ForQp(Run(Idle(size, qps), acts).submitted, k)| <= MSN_BORDER
    requires Records(Run(Idle(size, qps), acts).submitted, events)
    requires Retry.Run(cfg, Retry.START, events, m) && i < |m.failed|
    requires id < |Run(Idle(size, qps), acts).submitted|
    requires KeyOf(Run(Idle(size, qps), acts).submitted[id]) == m.failed[i].key
    ensures id < |m.contexts| == |m.added| && |Retry.Times(m.resent, id)| == cfg.maxRetry
    ensures m.failed[i].time >= Retry.Latest(Retry.Times(m.resent, id), m.added[id]) + cfg.retryTimeout
  {
    hide Run, AdmissibleRun, Retry.Run, Retry.Times, Retry.Latest, Retry.AddedKeys;
    var ds := Run(Idle(size, qps), acts).submitted;
    var start := map k | k in qps :: qps[k].nextMsn;
    ConsecutiveMsns(size, qps, acts);
    KeysDistinct(ds, start);
    assert Retry.Distinct(Retry.AddedKeys(events));
    Retry.FailedOperationIsExhausted(cfg, events, m, i, id);
  }
}
