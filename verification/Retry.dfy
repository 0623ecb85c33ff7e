// Retransmission of operations that are not acknowledged in time. The map of pending operations is
// shared: operations are added and cancelled by other threads while the monitor goes through a
// snapshot of it. A context lives on in the snapshot after its key has been cancelled, or reused.

module Retry {
  type Key = (nat, nat)

  datatype Config = Config(maxRetry: nat, retryTimeout: nat)

  datatype Context = Context(descriptor: nat, retryCounter: nat, nextTimeout: nat, isInitiative: bool)
  {
    predicate Due(now: nat) {
      isInitiative && nextTimeout <= now
    }
  }

  datatype Resend = Resend(ctx: nat, descriptor: nat, time: nat)

  datatype Failure = Failure(key: Key, ctx: nat, time: nat)

  // A check in progress, with the contexts it has still to visit; known is how many contexts there were
  // when it began.
  datatype Check = Idle | Checking(now: nat, pending: seq<(Key, nat)>, hasRemoved: bool, known: nat)

  // Contexts are numbered in the order in which they were added; keys and added hold the key and the time
  // of each.
  datatype Monitor = Monitor(
    entries: map<Key, nat>,
    contexts: seq<Context>,
    keys: seq<Key>,
    added: seq<nat>,
    check: Check,
    resent: seq<Resend>,
    failed: seq<Failure>)

  datatype Event =
    | Add(key: Key, descriptor: nat, isInitiative: bool, time: nat)
    | Cancel(key: Key)
    | Begin(now: nat, order: seq<(Key, nat)>)
    | Visit
    | End

  // ---- steps --------------------------------------------------------------------------------------------

  const START: Monitor := Monitor(map[], [], [], [], Idle, [], [])

  // Every entry of the map once, in any order.
  predicate Lists(entries: map<Key, nat>, order: seq<(Key, nat)>) {
    (forall i :: 0 <= i < |order| ==> order[i].0 in entries && entries[order[i].0] == order[i].1) &&
    (forall i, j :: 0 <= i < j < |order| ==> order[i].0 != order[j].0) &&
    (forall k :: k in entries ==> (k, entries[k]) in order)
  }

  predicate Enabled(m: Monitor, e: Event) {
    match e
    case Add(_, _, _, _) => true
    case Cancel(_) => true
    case Begin(_, order) => m.check.Idle? && Lists(m.entries, order)
    case Visit => m.check.Checking? && m.check.pending != [] && m.check.pending[0].1 < |m.contexts|
    case End => m.check.Checking? && m.check.pending == []
                && forall k :: k in m.entries ==> m.entries[k] < |m.contexts|
  }

  function NewContext(cfg: Config, descriptor: nat, isInitiative: bool, time: nat): Context {
    Context(descriptor, cfg.maxRetry, time + cfg.retryTimeout, isInitiative)
  }

  function Retried(cfg: Config, c: Context, now: nat): Context
    requires c.retryCounter > 0
  {
    c.(retryCounter := c.retryCounter - 1, nextTimeout := now + cfg.retryTimeout)
  }

  function Cleaned(entries: map<Key, nat>, contexts: seq<Context>): map<Key, nat>
    requires forall k :: k in entries ==> entries[k] < |contexts|
  {
    map k | k in entries && contexts[entries[k]].retryCounter > 0 :: entries[k]
  }

  function Visited(cfg: Config, m: Monitor): Monitor
    requires Enabled(m, Visit)
  {
    var (key, id) := m.check.pending[0];
    var c, now := m.contexts[id], m.check.now;
    var rest := m.check.(pending := m.check.pending[1..]);
    if !c.Due(now) then m.(check := rest)
    else if c.retryCounter > 0 then
      m.(contexts := m.contexts[id := Retried(cfg, c, now)], check := rest,
         resent := m.resent + [Resend(id, c.descriptor, now)])
    else
      m.(check := rest.(hasRemoved := true), failed := m.failed + [Failure(key, id, now)])
  }

  function Step(cfg: Config, m: Monitor, e: Event): Monitor
    requires Enabled(m, e)
  {
    match e
    case Add(key, descriptor, isInitiative, time) =>
      if key in m.entries then m
      else m.(entries := m.entries[key := |m.contexts|],
              contexts := m.contexts + [NewContext(cfg, descriptor, isInitiative, time)],
              keys := m.keys + [key], added := m.added + [time])
    case Cancel(key) => m.(entries := m.entries - {key})
    case Begin(now, order) => m.(check := Checking(now, order, false, |m.contexts|))
    case Visit => Visited(cfg, m)
    case End =>
      m.(entries := if m.check.hasRemoved then Cleaned(m.entries, m.contexts) else m.entries, check := Idle)
  }

  ghost predicate Run(cfg: Config, m: Monitor, events: seq<Event>, m': Monitor)
    decreases |events|
  {
    if |events| == 0 then m' == m
    else Enabled(m, events[0]) && Run(cfg, Step(cfg, m, events[0]), events[1..], m')
  }

  // ---- what holds in every reachable state -----------------------------------------------------------------

  // The times at which a context was sent again.
  ghost function Times(resent: seq<Resend>, id: nat): seq<nat> {
    if |resent| == 0 then []
    else
      var r := resent[|resent| - 1];
      Times(resent[..|resent| - 1], id) + (if r.ctx == id then [r.time] else [])
  }

  // Each time is at least the timeout after the one before it, the first after the start.
  ghost predicate Spaced(times: seq<nat>, start: nat, timeout: nat) {
    forall i :: 0 <= i < |times| ==> times[i] >= (if i == 0 then start else times[i - 1]) + timeout
  }

  ghost function Latest(times: seq<nat>, start: nat): nat {
    if |times| == 0 then start else times[|times| - 1]
  }

  // The budget and the pace of one context.
  ghost predicate Fair(cfg: Config, c: Context, times: seq<nat>, start: nat) {
    |times| + c.retryCounter == cfg.maxRetry &&
    Spaced(times, start, cfg.retryTimeout) &&
    c.nextTimeout == Latest(times, start) + cfg.retryTimeout &&
    (!c.isInitiative ==> times == [])
  }

  ghost predicate Budgets(cfg: Config, m: Monitor) {
    |m.added| == |m.contexts| &&
    (forall r :: r in m.resent ==> r.ctx < |m.contexts| && r.descriptor == m.contexts[r.ctx].descriptor) &&
    forall id :: 0 <= id < |m.contexts| ==> Fair(cfg, m.contexts[id], Times(m.resent, id), m.added[id])
  }

  // An entry leads to a context that was added under its key.
  ghost predicate Linked(m: Monitor) {
    |m.keys| == |m.contexts| &&
    forall k :: k in m.entries ==> m.entries[k] < |m.contexts| && m.keys[m.entries[k]] == k
  }

  // The contexts still to be visited are distinct and were there when the check began. An entry that was
  // there then, too, still leads to the context of the snapshot.
  ghost predicate Snapshot(m: Monitor) {
    m.check.Checking? ==>
      var p := m.check.pending;
      m.check.known <= |m.contexts| == |m.keys| &&
      (forall i :: 0 <= i < |p| ==> p[i].1 < m.check.known && m.keys[p[i].1] == p[i].0) &&
      (forall i, j :: 0 <= i < j < |p| ==> p[i].1 != p[j].1) &&
      (forall i :: 0 <= i < |p| && p[i].0 in m.entries && m.entries[p[i].0] < m.check.known ==>
        m.entries[p[i].0] == p[i].1)
  }

  // A failed context has used up its retries and waited once more; it is not visited again, and the
  // end of the check takes it out of the map.
  ghost predicate Spent(m: Monitor, f: Failure) {
    f.ctx < |m.contexts| == |m.keys| && m.keys[f.ctx] == f.key &&
    m.contexts[f.ctx].retryCounter == 0 && m.contexts[f.ctx].Due(f.time) &&
    (m.check.Checking? ==> forall i :: 0 <= i < |m.check.pending| ==> m.check.pending[i].1 != f.ctx) &&
    (m.check.Idle? || !m.check.hasRemoved ==> forall k :: k in m.entries ==> m.entries[k] != f.ctx)
  }

  ghost predicate Failures(m: Monitor) {
    (forall i :: 0 <= i < |m.failed| ==> Spent(m, m.failed[i])) &&
    (forall i, j :: 0 <= i < j < |m.failed| ==> m.failed[i].ctx != m.failed[j].ctx)
  }

  ghost predicate Inv(cfg: Config, m: Monitor) {
    Linked(m) && Snapshot(m) && Budgets(cfg, m) && Failures(m)
  }

  // ---- every step keeps it ------------------------------------------------------------------------------------

  lemma TimesNext(resent: seq<Resend>, r: Resend, id: nat)
    ensures Times(resent + [r], id) == Times(resent, id) + (if r.ctx == id then [r.time] else [])
  {
    assert (resent + [r])[..|resent|] == resent;
  }

  lemma {:induction false} TimesNone(resent: seq<Resend>, id: nat)
    requires forall r :: r in resent ==> r.ctx < id
    ensures Times(resent, id) == []
    decreases |resent|
  {
    if |resent| > 0 {
      TimesNone(resent[..|resent| - 1], id);
    }
  }

  lemma RetriedIsFair(cfg: Config, c: Context, times: seq<nat>, start: nat, now: nat)
    requires Fair(cfg, c, times, start) && c.Due(now) && c.retryCounter > 0
    ensures Fair(cfg, Retried(cfg, c, now), times + [now], start)
  {
  }

  lemma AddKeeps(cfg: Config, m: Monitor, e: Event)
    requires Inv(cfg, m) && e.Add?
    ensures Inv(cfg, Step(cfg, m, e))
  {
    hide Times, Spaced, Latest;
    var m' := Step(cfg, m, e);
    if e.key !in m.entries {
      var n := |m.contexts|;
      TimesNone(m.resent, n);
      assert Fair(cfg, m'.contexts[n], [], e.time) by { NewIsFair(cfg, e.descriptor, e.isInitiative, e.time); }
    }
  }

  lemma NewIsFair(cfg: Config, descriptor: nat, isInitiative: bool, time: nat)
    ensures Fair(cfg, NewContext(cfg, descriptor, isInitiative, time), [], time)
  {
  }

  lemma BeginKeeps(cfg: Config, m: Monitor, e: Event)
    requires Inv(cfg, m) && e.Begin? && Enabled(m, e)
    ensures Inv(cfg, Step(cfg, m, e))
  {
    hide Fair, Times;
    var p := e.order;
    forall i, j | 0 <= i < j < |p| ensures p[i].1 != p[j].1 {
      assert p[i].0 != p[j].0;
    }
  }

  lemma CancelKeeps(cfg: Config, m: Monitor, e: Event)
    requires Inv(cfg, m) && e.Cancel?
    ensures Inv(cfg, Step(cfg, m, e))
  {
    hide Fair, Times;
  }

  lemma EndKeeps(cfg: Config, m: Monitor)
    requires Inv(cfg, m) && Enabled(m, End)
    ensures Inv(cfg, Step(cfg, m, End))
  {
    hide Fair, Times;
    var m' := Step(cfg, m, End);
    forall i | 0 <= i < |m.failed| ensures Spent(m', m.failed[i]) {
      assert Spent(m, m.failed[i]);
    }
  }

  lemma VisitKeepsBudgets(cfg: Config, m: Monitor)
    requires Inv(cfg, m) && Enabled(m, Visit)
    ensures Budgets(cfg, Visited(cfg, m))
  {
    hide Fair, Times;
    var m' := Visited(cfg, m);
    var (key, id) := m.check.pending[0];
    var c, now := m.contexts[id], m.check.now;
    if c.Due(now) && c.retryCounter > 0 {
      var r := Resend(id, c.descriptor, now);
      RetriedIsFair(cfg, c, Times(m.resent, id), m.added[id], now);
      forall j | 0 <= j < |m.contexts| ensures Fair(cfg, m'.contexts[j], Times(m'.resent, j), m'.added[j]) {
        TimesNext(m.resent, r, j);
        assert Times(m.resent, j) + [] == Times(m.resent, j);
      }
    }
  }

  lemma VisitKeepsFailures(cfg: Config, m: Monitor)
    requires Inv(cfg, m) && Enabled(m, Visit)
    ensures Failures(Visited(cfg, m)) && Snapshot(Visited(cfg, m)) && Linked(Visited(cfg, m))
  {
    hide Fair, Times;
    var m' := Visited(cfg, m);
    var id := m.check.pending[0].1;
    forall i | 0 <= i < |m.failed| ensures Spent(m', m.failed[i]) && m.failed[i].ctx != id {
      assert Spent(m, m.failed[i]);
    }
    var p' := m'.check.pending;
    assert forall i :: 0 <= i < |p'| ==> p'[i] == m.check.pending[i + 1];
  }

  // A check in progress can always go on: to the next context, or to its end.
  lemma NeverStuck(cfg: Config, m: Monitor)
    requires Inv(cfg, m) && m.check.Checking?
    ensures Enabled(m, if m.check.pending == [] then End else Visit)
  {
    hide Fair, Times;
  }

  lemma StepKeeps(cfg: Config, m: Monitor, e: Event)
    requires Inv(cfg, m) && Enabled(m, e)
    ensures Inv(cfg, Step(cfg, m, e))
  {
    hide Linked, Snapshot, Budgets, Failures;
    match e {
      case Add(_, _, _, _) => AddKeeps(cfg, m, e);
      case Cancel(_) => CancelKeeps(cfg, m, e);
      case Begin(_, _) => BeginKeeps(cfg, m, e);
      case Visit =>
        VisitKeepsBudgets(cfg, m);
        VisitKeepsFailures(cfg, m);
      case End => EndKeeps(cfg, m);
    }
  }

  lemma {:induction false} RunKeeps(cfg: Config, m: Monitor, events: seq<Event>, m': Monitor)
    requires Inv(cfg, m) && Run(cfg, m, events, m')
    ensures Inv(cfg, m')
    decreases |events|
  {
    hide Inv;
    if |events| > 0 {
      StepKeeps(cfg, m, events[0]);
      RunKeeps(cfg, Step(cfg, m, events[0]), events[1..], m');
    }
  }

  // Whatever is added, cancelled and checked, and whatever the clock does: a context is sent again as
  // often as its budget has gone down, at intervals of at least the timeout, and only with its own
  // descriptor.
  lemma RetryBudget(cfg: Config, events: seq<Event>, m: Monitor, id: nat)
    requires Run(cfg, START, events, m) && id < |m.contexts|
    ensures |m.added| == |m.contexts|
    ensures |Times(m.resent, id)| + m.contexts[id].retryCounter == cfg.maxRetry
    ensures Spaced(Times(m.resent, id), m.added[id], cfg.retryTimeout)
    ensures !m.contexts[id].isInitiative ==> Times(m.resent, id) == []
    ensures forall r :: r in m.resent && r.ctx == id ==> r.descriptor == m.contexts[id].descriptor
  {
    hide Times, Spaced, Run;
    RunKeeps(cfg, START, events, m);
    assert Fair(cfg, m.contexts[id], Times(m.resent, id), m.added[id]);
  }

  // An operation is failed only when its context has been sent again maxRetry times and the timeout has
  // passed since the last; and no context is failed twice.
  lemma FailureIsEarned(cfg: Config, events: seq<Event>, m: Monitor, i: nat)
    requires Run(cfg, START, events, m) && i < |m.failed|
    ensures m.failed[i].ctx < |m.contexts| == |m.added|
    ensures var f := m.failed[i]; var times := Times(m.resent, f.ctx);
      |times| == cfg.maxRetry && f.time >= Latest(times, m.added[f.ctx]) + cfg.retryTimeout
    ensures forall j :: 0 <= j < |m.failed| && j != i ==> m.failed[j].ctx != m.failed[i].ctx
    ensures m.check.Idle? ==> forall k :: k in m.entries ==> m.entries[k] != m.failed[i].ctx
  {
    hide Times, Spaced, Run, Latest;
    RunKeeps(cfg, START, events, m);
    var f := m.failed[i];
    assert Spent(m, f);
    assert Fair(cfg, m.contexts[f.ctx], Times(m.resent, f.ctx), m.added[f.ctx]);
  }

  lemma StartKeeps(cfg: Config)
    ensures Inv(cfg, START)
  {
  }

  // ---- operations and keys ----------------------------------------------------------------------------------------

  // The context that is visited is not the one its key leads to now exactly when that one was added after
  // the check began.
  lemma VisitsAnotherIff(cfg: Config, events: seq<Event>, m: Monitor)
    requires Run(cfg, START, events, m) && m.check.Checking? && m.check.pending != []
    requires m.check.pending[0].0 in m.entries
    ensures var (key, id) := m.check.pending[0]; m.entries[key] != id <==> m.entries[key] >= m.check.known
  {
    hide Run, Budgets, Failures;
    StartKeeps(cfg);
    RunKeeps(cfg, START, events, m);
  }

  // The keys of the operations that were added, in order.
  ghost function AddedKeys(events: seq<Event>): seq<Key> {
    if |events| == 0 then []
    else (if events[0].Add? then [events[0].key] else []) + AddedKeys(events[1..])
  }

  ghost predicate Distinct(keys: seq<Key>) {
    forall i, j :: 0 <= i < j < |keys| ==> keys[i] != keys[j]
  }

  // If no key is added twice, every added operation gets its context.
  lemma {:induction false} AddsSucceed(cfg: Config, m: Monitor, events: seq<Event>, m': Monitor)
    requires Inv(cfg, m) && Run(cfg, m, events, m') && Distinct(m.keys + AddedKeys(events))
    ensures m'.keys == m.keys + AddedKeys(events)
    decreases |events|
  {
    hide Budgets, Failures, Snapshot;
    if |events| > 0 {
      StepKeeps(cfg, m, events[0]);
      AddSucceeds(cfg, m, events[0], AddedKeys(events[1..]));
      AddsSucceed(cfg, Step(cfg, m, events[0]), events[1..], m');
    }
  }

  lemma AddSucceeds(cfg: Config, m: Monitor, e: Event, more: seq<Key>)
    requires Linked(m) && Enabled(m, e) && Distinct(m.keys + ((if e.Add? then [e.key] else []) + more))
    ensures Step(cfg, m, e).keys + more == m.keys + ((if e.Add? then [e.key] else []) + more)
  {
    var all := m.keys + ((if e.Add? then [e.key] else []) + more);
    if e.Add? {
      assert all[|m.keys|] == e.key;
      assert forall j :: 0 <= j < |m.keys| ==> m.keys[j] == all[j] != e.key;
      assert e.key !in m.entries;
    }
  }

  // When no key is added twice, as the driver sees to by refusing an operation whose key has an operation
  // context already, a failure is reported only for an operation that was sent again the maximum number of
  // times and then waited for one more timeout.
  lemma FailedOperationIsExhausted(cfg: Config, events: seq<Event>, m: Monitor, i: nat, id: nat)
    requires Run(cfg, START, events, m) && Distinct(AddedKeys(events)) && i < |m.failed|
    requires id < |AddedKeys(events)| && AddedKeys(events)[id] == m.failed[i].key
    ensures m.keys == AddedKeys(events) && |m.keys| == |m.contexts| == |m.added|
    ensures |Times(m.resent, id)| == cfg.maxRetry
    ensures m.failed[i].time >= Latest(Times(m.resent, id), m.added[id]) + cfg.retryTimeout
  {
    hide Run, Times, Latest, AddedKeys, Inv, Spaced;
    StartKeeps(cfg);
    assert [] + AddedKeys(events) == AddedKeys(events);
    AddsSucceed(cfg, START, events, m);
    FailureIsEarned(cfg, events, m, i);
    FailureKey(cfg, events, m, i);
  }

  lemma FailureKey(cfg: Config, events: seq<Event>, m: Monitor, i: nat)
    requires Run(cfg, START, events, m) && i < |m.failed|
    ensures m.failed[i].ctx < |m.keys| == |m.contexts| && m.keys[m.failed[i].ctx] == m.failed[i].key
  {
    hide Run, Budgets, Snapshot;
    StartKeeps(cfg);
    RunKeeps(cfg, START, events, m);
    assert Spent(m, m.failed[i]);
  }

  // ---- what a check does, and what it leaves alone --------------------------------------------------------------

  ghost predicate Awaits(m: Monitor, id: nat) {
    m.check.Checking? && exists i :: 0 <= i < |m.check.pending| && m.check.pending[i].1 == id
  }

  // A context is changed, sent again and failed by its own visit only.
  ghost predicate Untouched(m: Monitor, m': Monitor, id: nat) {
    && id < |m.contexts| <= |m'.contexts| && m'.contexts[id] == m.contexts[id]
    && Times(m'.resent, id) == Times(m.resent, id) && m.failed <= m'.failed
    && forall i :: |m.failed| <= i < |m'.failed| ==> m'.failed[i].ctx != id
  }

  lemma OthersUntouched(cfg: Config, m: Monitor, e: Event, id: nat)
    requires Inv(cfg, m) && Enabled(m, e) && id < |m.contexts| && !(e.Visit? && m.check.pending[0].1 == id)
    ensures Untouched(m, Step(cfg, m, e), id)
    ensures Step(cfg, m, e).keys[..|m.keys|] == m.keys
  {
    hide Times, Inv;
    assert |m.keys| == |m.contexts| by { InvKeys(cfg, m); }
    if e.Visit? {
      var m' := Step(cfg, m, e);
      if |m'.resent| > |m.resent| {
        TimesNext(m.resent, m'.resent[|m.resent|], id);
        assert Times(m.resent, id) + [] == Times(m.resent, id);
      }
    }
  }

  lemma InvKeys(cfg: Config, m: Monitor)
    requires Inv(cfg, m)
    ensures |m.keys| == |m.contexts|
  {
  }

  lemma UntouchedTwice(m: Monitor, m1: Monitor, m': Monitor, id: nat)
    requires Untouched(m, m1, id) && Untouched(m1, m', id)
    ensures Untouched(m, m', id)
  {
    hide Times;
  }

  // What the visit of a context does: nothing before it is due, then one more resend, or the failure.
  ghost predicate Served(m: Monitor, m': Monitor, id: nat, now: nat) {
    && id < |m.contexts| && m.failed <= m'.failed
    && var c := m.contexts[id];
       var failures := |m'.failed| > |m.failed| && exists i :: |m.failed| <= i < |m'.failed| && m'.failed[i].ctx == id;
       && Times(m'.resent, id) == Times(m.resent, id) + (if c.Due(now) && c.retryCounter > 0 then [now] else [])
       && (failures <==> c.Due(now) && c.retryCounter == 0)
  }

  lemma VisitServes(cfg: Config, m: Monitor)
    requires Inv(cfg, m) && Enabled(m, Visit)
    ensures Served(m, Step(cfg, m, Visit), m.check.pending[0].1, m.check.now)
  {
    hide Times, Inv;
    var m', id := Step(cfg, m, Visit), m.check.pending[0].1;
    if |m'.resent| > |m.resent| {
      TimesNext(m.resent, m'.resent[|m.resent|], id);
    } else {
      assert Times(m.resent, id) + [] == Times(m.resent, id);
    }
    if |m'.failed| > |m.failed| {
      assert m'.failed[|m.failed|].ctx == id;
    }
  }

  lemma ServedThenUntouched(m: Monitor, m1: Monitor, m': Monitor, id: nat, now: nat)
    requires Served(m, m1, id, now) && Untouched(m1, m', id)
    ensures Served(m, m', id, now)
  {
    hide Times, Context.Due;
  }

  lemma UntouchedThenServed(m: Monitor, m1: Monitor, m': Monitor, id: nat, now: nat)
    requires Untouched(m, m1, id) && Served(m1, m', id, now)
    ensures Served(m, m', id, now)
  {
    hide Times, Context.Due;
  }

  ghost predicate NoEnd(events: seq<Event>) {
    forall i :: 0 <= i < |events| ==> !events[i].End?
  }

  // Once visited, a context is left alone until the check ends.
  lemma {:induction false} NotAwaited(cfg: Config, m: Monitor, events: seq<Event>, m': Monitor, id: nat)
    requires Inv(cfg, m) && Run(cfg, m, events, m') && NoEnd(events) && m.check.Checking?
    requires id < |m.contexts| && !Awaits(m, id)
    ensures Untouched(m, m', id)
    decreases |events|
  {
    hide Inv, Times;
    if |events| > 0 {
      var e, m1 := events[0], Step(cfg, m, events[0]);
      StepKeeps(cfg, m, e);
      assert !(e.Visit? && m.check.pending[0].1 == id);
      OthersUntouched(cfg, m, e, id);
      assert !Awaits(m1, id) by {
        assert e.Visit? ==> forall i :: 0 <= i < |m1.check.pending| ==> m1.check.pending[i] == m.check.pending[i + 1];
      }
      NotAwaited(cfg, m1, events[1..], m', id);
      UntouchedTwice(m, m1, m', id);
    }
  }

  // Whatever other threads do meanwhile, a check serves every context that it found in the map exactly once: it
  // is sent again if it is due and has retries left, failed if it is due and has none, and else left alone.
  lemma {:induction false} CheckServes(cfg: Config, m: Monitor, events: seq<Event>, m': Monitor, id: nat)
    requires Inv(cfg, m) && Run(cfg, m, events, m') && NoEnd(events)
    requires Awaits(m, id) && m'.check.Checking? && m'.check.pending == []
    ensures Served(m, m', id, m.check.now)
    decreases |events|
  {
    hide Inv, Times, Served, Untouched;
    assert |events| > 0;
    var e, m1 := events[0], Step(cfg, m, events[0]);
    StepKeeps(cfg, m, e);
    AwaitedExists(cfg, m, id);
    if e.Visit? && m.check.pending[0].1 == id {
      VisitServes(cfg, m);
      VisitedOnce(cfg, m);
      NotAwaited(cfg, m1, events[1..], m', id);
      ServedThenUntouched(m, m1, m', id, m.check.now);
    } else {
      OthersUntouched(cfg, m, e, id);
      assert Awaits(m1, id) && m1.check.now == m.check.now by {
        var i :| 0 <= i < |m.check.pending| && m.check.pending[i].1 == id;
        assert e.Visit? ==> m1.check.pending[i - 1] == m.check.pending[i];
        assert !e.Visit? ==> m1.check.pending[i] == m.check.pending[i];
      }
      CheckServes(cfg, m1, events[1..], m', id);
      UntouchedThenServed(m, m1, m', id, m.check.now);
    }
  }

  lemma AwaitedExists(cfg: Config, m: Monitor, id: nat)
    requires Inv(cfg, m) && Awaits(m, id)
    ensures id < |m.contexts|
  {
    hide Times, Fair;
  }

  lemma VisitedOnce(cfg: Config, m: Monitor)
    requires Inv(cfg, m) && Enabled(m, Visit)
    ensures var m1 := Step(cfg, m, Visit);
            |m1.contexts| == |m.contexts| && m1.check.Checking? && !Awaits(m1, m.check.pending[0].1)
  {
    hide Times, Fair;
    var m1 := Step(cfg, m, Visit);
    assert forall i :: 0 <= i < |m1.check.pending| ==> m1.check.pending[i] == m.check.pending[i + 1];
  }

  // In terms of times: a context is due when the driver started it and the timeout has passed since it was last
  // sent.
  ghost predicate TimedOut(cfg: Config, m: Monitor, id: nat, now: nat)
    requires id < |m.contexts| && id < |m.added|
  {
    m.contexts[id].isInitiative && Latest(Times(m.resent, id), m.added[id]) + cfg.retryTimeout <= now
  }

  lemma DueIff(cfg: Config, m: Monitor, id: nat, now: nat)
    requires Inv(cfg, m) && id < |m.contexts|
    ensures |m.added| == |m.contexts| && (m.contexts[id].Due(now) <==> TimedOut(cfg, m, id, now))
    ensures m.contexts[id].retryCounter == cfg.maxRetry - |Times(m.resent, id)|
  {
    hide Times, Spaced;
    assert Fair(cfg, m.contexts[id], Times(m.resent, id), m.added[id]);
  }

  // A check that begins at time now, up to its end, and whatever happens meanwhile: each context in the map is sent
  // again exactly once if it has timed out and was sent again less than the maximum of times, and failed exactly if
  // it has timed out and was sent again that often.
  lemma ChecksOnTime(cfg: Config, before: seq<Event>, m: Monitor, now: nat, order: seq<(Key, nat)>,
                     events: seq<Event>, m': Monitor, key: Key)
    requires Run(cfg, START, before, m) && Enabled(m, Begin(now, order)) && key in m.entries
    requires Run(cfg, Step(cfg, m, Begin(now, order)), events, m') && NoEnd(events)
    requires m'.check.Checking? && m'.check.pending == []
    ensures var id := m.entries[key];
            && id < |m.contexts| == |m.added| && m.failed <= m'.failed
            && var times := Times(m.resent, id);
               && Times(m'.resent, id) ==
                  times + (if TimedOut(cfg, m, id, now) && |times| < cfg.maxRetry then [now] else [])
               && ((exists i :: |m.failed| <= i < |m'.failed| && m'.failed[i].ctx == id) <==>
                     TimedOut(cfg, m, id, now) && |times| == cfg.maxRetry)
  {
    hide Run, Times, Inv, TimedOut;
    StartKeeps(cfg);
    RunKeeps(cfg, START, before, m);
    StepKeeps(cfg, m, Begin(now, order));
    var m1, id := Step(cfg, m, Begin(now, order)), m.entries[key];
    assert (key, id) in order;
    var i :| 0 <= i < |order| && order[i] == (key, id);
    assert m1.check.pending[i].1 == id;
    AwaitedExists(cfg, m1, id);
    DueIff(cfg, m, id, now);
    CheckServes(cfg, m1, events, m', id);
  }

  // An operation stays in the map until it is cancelled or has used up its retries.
  lemma {:induction false} StaysUntilSpent(cfg: Config, m: Monitor, events: seq<Event>, m': Monitor, key: Key)
    requires Inv(cfg, m) && Run(cfg, m, events, m') && key in m.entries
    requires forall i :: 0 <= i < |events| ==> events[i] != Cancel(key)
    ensures m.entries[key] < |m.contexts| <= |m'.contexts|
    ensures m'.contexts[m.entries[key]].retryCounter <= m.contexts[m.entries[key]].retryCounter
    ensures m'.contexts[m.entries[key]].retryCounter > 0 ==> key in m'.entries && m'.entries[key] == m.entries[key]
    decreases |events|
  {
    hide Inv, Times;
    EntryExists(cfg, m, key);
    if |events| > 0 {
      var m1 := Step(cfg, m, events[0]);
      StepKeeps(cfg, m, events[0]);
      assert events[0] != Cancel(key);
      assert |m.contexts| <= |m1.contexts|;
      if key in m1.entries {
        StaysUntilSpent(cfg, m1, events[1..], m', key);
      } else {
        CounterFalls(cfg, m1, events[1..], m', m.entries[key]);
      }
    }
  }

  lemma EntryExists(cfg: Config, m: Monitor, key: Key)
    requires Inv(cfg, m) && key in m.entries
    ensures m.entries[key] < |m.contexts|
  {
  }

  lemma {:induction false} CounterFalls(cfg: Config, m: Monitor, events: seq<Event>, m': Monitor, id: nat)
    requires Inv(cfg, m) && Run(cfg, m, events, m') && id < |m.contexts|
    ensures |m.contexts| <= |m'.contexts| && m'.contexts[id].retryCounter <= m.contexts[id].retryCounter
    decreases |events|
  {
    hide Inv;
    if |events| > 0 {
      StepKeeps(cfg, m, events[0]);
      CounterFalls(cfg, Step(cfg, m, events[0]), events[1..], m', id);
    }
  }

  // ---- cancelled operations --------------------------------------------------------------------------------------

  // No entry leads to the key, and no check in progress is still to visit it.
  ghost predicate Forgotten(m: Monitor, key: Key) {
    && key !in m.entries
    && (m.check.Checking? ==> forall i :: 0 <= i < |m.check.pending| ==> m.check.pending[i].0 != key)
  }

  lemma ForgottenStep(cfg: Config, m: Monitor, e: Event, key: Key)
    requires Inv(cfg, m) && Enabled(m, e) && Forgotten(m, key) && !(e.Add? && e.key == key)
    ensures Forgotten(Step(cfg, m, e), key)
    ensures forall id :: 0 <= id < |m.keys| == |m.contexts| && m.keys[id] == key ==> Untouched(m, Step(cfg, m, e), id)
    ensures |m.keys| == |m.contexts| && Step(cfg, m, e).keys[..|m.keys|] == m.keys
  {
    hide Times, Fair, Untouched;
    forall id | 0 <= id < |m.keys| == |m.contexts| && m.keys[id] == key ensures Untouched(m, Step(cfg, m, e), id) {
      OthersUntouched(cfg, m, e, id);
    }
  }

  lemma {:induction false} ForgottenRun(cfg: Config, m: Monitor, events: seq<Event>, m': Monitor, key: Key, id: nat)
    requires Inv(cfg, m) && Run(cfg, m, events, m') && Forgotten(m, key)
    requires forall i :: 0 <= i < |events| ==> !(events[i].Add? && events[i].key == key)
    requires id < |m.keys| && m.keys[id] == key && |m.keys| == |m.contexts|
    ensures Untouched(m, m', id)
    decreases |events|
  {
    hide Inv, Times, Forgotten, Untouched;
    if |events| == 0 {
      UntouchedSelf(m, id);
    } else {
      var m1 := Step(cfg, m, events[0]);
      StepKeeps(cfg, m, events[0]);
      ForgottenStep(cfg, m, events[0], key);
      InvKeys(cfg, m1);
      assert m1.keys[..|m.keys|][id] == key;
      ForgottenRun(cfg, m1, events[1..], m', key, id);
      UntouchedTwice(m, m1, m', id);
    }
  }

  lemma UntouchedSelf(m: Monitor, id: nat)
    requires id < |m.contexts|
    ensures Untouched(m, m, id)
  {
  }

  // An operation that is cancelled between two checks is neither sent again nor failed by any later check, as
  // long as its key is not added again.
  lemma CancelledIsLeftAlone(cfg: Config, before: seq<Event>, m: Monitor, key: Key, events: seq<Event>, m': Monitor,
                             id: nat)
    requires Run(cfg, START, before, m) && m.check.Idle? && id < |m.keys| == |m.contexts| && m.keys[id] == key
    requires Run(cfg, Step(cfg, m, Cancel(key)), events, m')
    requires forall i :: 0 <= i < |events| ==> !(events[i].Add? && events[i].key == key)
    ensures Untouched(m, m', id)
  {
    hide Run, Times, Inv;
    StartKeeps(cfg);
    RunKeeps(cfg, START, before, m);
    StepKeeps(cfg, m, Cancel(key));
    ForgottenRun(cfg, Step(cfg, m, Cancel(key)), events, m', key, id);
  }

  // ---- the monitor itself ---------------------------------------------------------------------------------

  class RetryMonitor {
    const cfg: Config
    var entries: map<Key, nat>
    var contexts: seq<Context>
    var keys: seq<Key>
    var added: seq<nat>
    var resent: seq<Resend>
    var failed: seq<Failure>

    // Between two checks.
    ghost function View(): Monitor
      reads this
    {
      Monitor(entries, contexts, keys, added, Idle, resent, failed)
    }

    constructor (cfg: Config)
      ensures this.cfg == cfg && View() == START
    {
      this.cfg := cfg;
      entries, contexts, keys, added, resent, failed := map[], [], [], [], [], [];
    }

    method AddRecord(key: Key, descriptor: nat, isInitiative: bool, time: nat) returns (present: bool)
      modifies this
      ensures View() == Step(cfg, old(View()), Add(key, descriptor, isInitiative, time))
      ensures present == (key in old(entries))
    {
      present := key in entries;
      if !present {
        entries := entries[key := |contexts|];
        contexts := contexts + [NewContext(cfg, descriptor, isInitiative, time)];
        keys, added := keys + [key], added + [time];
      }
    }

    method CancelRecord(key: Key) returns (missing: bool)
      modifies this
      ensures View() == Step(cfg, old(View()), Cancel(key))
      ensures missing == (key !in old(entries))
    {
      missing := key !in entries;
      entries := entries - {key};
    }

    // One check, with the entries in the order in which the map yields them.
    method CheckTimeout(now: nat, order: seq<(Key, nat)>) returns (ghost events: seq<Event>)
      requires Inv(cfg, View()) && Lists(entries, order)
      modifies this
      ensures Run(cfg, old(View()), events, View()) && Inv(cfg, View())
      ensures |events| == |order| + 2 && events[0] == Begin(now, order) && events[|order| + 1] == End
      ensures forall i :: 0 < i <= |order| ==> events[i] == Visit
    {
      hide Inv, Run, Lists, Visited;
      ghost var start := View();
      var hasRemoved := false;
      var k := 0;
      ghost var m := Step(cfg, start, Begin(now, order));
      events := [Begin(now, order)];
      RunStart(cfg, start, Begin(now, order));
      StepKeeps(cfg, start, Begin(now, order));
      while k < |order|
        invariant 0 <= k <= |order|
        invariant m == View().(check := Checking(now, order[k..], hasRemoved, |start.contexts|))
        invariant Inv(cfg, m) && Run(cfg, start, events, m)
        invariant |events| == k + 1 && events[0] == Begin(now, order)
        invariant forall i :: 0 < i <= k ==> events[i] == Visit
      {
        NeverStuck(cfg, m);
        ghost var next := Step(cfg, m, Visit);
        ghost var rest := order[k..];
        VisitIs(cfg, m);
        var key, id := order[k].0, order[k].1;
        var c := contexts[id];
        if c.Due(now) {
          if c.retryCounter > 0 {
            contexts := contexts[id := Retried(cfg, c, now)];
            resent := resent + [Resend(id, c.descriptor, now)];
          } else {
            hasRemoved := true;
            failed := failed + [Failure(key, id, now)];
          }
        }
        StepKeeps(cfg, m, Visit);
        RunNext(cfg, start, events, m, Visit);
        events := events + [Visit];
        assert rest[1..] == order[k + 1..];
        m := next;
        k := k + 1;
      }
      NeverStuck(cfg, m);
      StepKeeps(cfg, m, End);
      RunNext(cfg, start, events, m, End);
      events := events + [End];
      if hasRemoved {
        entries := Cleaned(entries, contexts);
      }
    }
  }

  lemma VisitIs(cfg: Config, m: Monitor)
    requires Enabled(m, Visit)
    ensures var (key, id) := m.check.pending[0];
      var c, now := m.contexts[id], m.check.now;
      var rest := m.check.(pending := m.check.pending[1..]);
      Step(cfg, m, Visit) ==
        if !c.Due(now) then m.(check := rest)
        else if c.retryCounter > 0 then
          m.(contexts := m.contexts[id := Retried(cfg, c, now)], check := rest,
             resent := m.resent + [Resend(id, c.descriptor, now)])
        else m.(check := rest.(hasRemoved := true), failed := m.failed + [Failure(key, id, now)])
  {
  }

  lemma RunStart(cfg: Config, m: Monitor, e: Event)
    requires Enabled(m, e)
    ensures Run(cfg, m, [e], Step(cfg, m, e))
  {
  }

  lemma {:induction false} RunNext(cfg: Config, m: Monitor, events: seq<Event>, m': Monitor, e: Event)
    requires Run(cfg, m, events, m') && Enabled(m', e)
    ensures Run(cfg, m, events + [e], Step(cfg, m', e))
    decreases |events|
  {
    if |events| == 0 {
      assert events + [e] == [e];
    } else {
      RunNext(cfg, Step(cfg, m, events[0]), events[1..], m', e);
      assert (events + [e])[1..] == events[1..] + [e];
    }
  }
}
