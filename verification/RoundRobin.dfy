// The round-robin scheduler: one list of descriptors per queue pair, served in turn.

module RoundRobin {
  import opened Arith
  import opened Wrappers

  type Qpn = n: nat | n < 0x100_0000

  const POP_BATCH_SIZE: nat := 8

  type Queue<T> = seq<(Qpn, seq<T>)>

  // ---- the queue ------------------------------------------------------------------------------------

  ghost predicate Has<T>(q: Queue<T>, qpn: Qpn) {
    exists i :: 0 <= i < |q| && q[i].0 == qpn
  }

  // Queue pairs are listed once and never with an empty list.
  ghost predicate Valid<T>(q: Queue<T>) {
    && (forall i :: 0 <= i < |q| ==> q[i].1 != [])
    && (forall i, j :: 0 <= i < j < |q| ==> q[i].0 != q[j].0)
  }

  // The descriptors waiting for a queue pair, in order.
  ghost function Waiting<T>(q: Queue<T>, qpn: Qpn): seq<T> {
    if q == [] then [] else if q[0].0 == qpn then q[0].1 + Waiting(q[1..], qpn) else Waiting(q[1..], qpn)
  }

  ghost function Pushed<T>(q: Queue<T>, qpn: Qpn, descs: seq<T>): Queue<T> {
    if q == [] then [(qpn, descs)]
    else if q[0].0 == qpn then [(qpn, q[0].1 + descs)] + q[1..]
    else [q[0]] + Pushed(q[1..], qpn, descs)
  }

  // The queue after its front has been served once.
  ghost function Rotated<T>(q: Queue<T>): Queue<T>
    requires q != [] && q[0].1 != []
  {
    q[1..] + if |q[0].1| > 1 then [(q[0].0, q[0].1[1..])] else []
  }

  lemma {:induction false} PushedValid<T>(q: Queue<T>, qpn: Qpn, descs: seq<T>)
    requires Valid(q) && descs != []
    ensures Valid(Pushed(q, qpn, descs))
    ensures forall k :: Has(Pushed(q, qpn, descs), k) <==> k == qpn || Has(q, k)
    decreases |q|
  {
    var r := Pushed(q, qpn, descs);
    if q == [] {
      assert r[0].0 == qpn;
    } else if q[0].0 == qpn {
      assert forall i :: 0 <= i < |q| ==> r[i].0 == q[i].0;
      assert r[0].0 == qpn;
    } else {
      PushedValid(q[1..], qpn, descs);
      var r' := Pushed(q[1..], qpn, descs);
      assert forall i :: 0 < i < |r| ==> r[i] == r'[i - 1];
      assert forall i :: 0 <= i < |q| - 1 ==> q[1..][i] == q[i + 1];
      assert !Has(r', q[0].0) by {
        assert !Has(q[1..], q[0].0);
      }
      forall k ensures Has(r, k) <==> k == qpn || Has(q, k) {
        assert Has(r, k) <==> k == q[0].0 || Has(r', k) by { HasCons(r, k); assert r[1..] == r'; }
        HasCons(q, k);
      }
      assert forall j :: 0 < j < |r| ==> r[j].0 != r[0].0 by {
        forall j | 0 < j < |r| ensures r[j].0 != r[0].0 {
          assert r'[j - 1].0 == r[j].0;
          assert Has(r', r[j].0);
        }
      }
    }
  }

  lemma HasCons<T>(q: Queue<T>, k: Qpn)
    requires q != []
    ensures Has(q, k) <==> q[0].0 == k || Has(q[1..], k)
  {
    if Has(q, k) && q[0].0 != k {
      var i :| 0 <= i < |q| && q[i].0 == k;
      assert q[1..][i - 1].0 == k;
    }
    if Has(q[1..], k) {
      var i :| 0 <= i < |q[1..]| && q[1..][i].0 == k;
      assert q[i + 1].0 == k;
    }
  }

  lemma RotatedValid<T>(q: Queue<T>)
    requires Valid(q) && q != []
    ensures Valid(Rotated(q))
  {
    var r := Rotated(q);
    forall i, j | 0 <= i < j < |r| ensures r[i].0 != r[j].0 {
      assert r[i] == q[i + 1];
    }
  }

  // ---- order per queue pair --------------------------------------------------------------------------

  lemma {:induction false} WaitingConcat<T>(a: Queue<T>, b: Queue<T>, qpn: Qpn)
    ensures Waiting(a + b, qpn) == Waiting(a, qpn) + Waiting(b, qpn)
    decreases |a|
  {
    if a == [] {
      assert a + b == b;
    } else {
      assert (a + b)[1..] == a[1..] + b;
      WaitingConcat(a[1..], b, qpn);
      Regroup(a[0].1, Waiting(a[1..], qpn), Waiting(b, qpn));
    }
  }

  lemma {:induction false} WaitingAbsent<T>(q: Queue<T>, qpn: Qpn)
    requires forall i :: 0 <= i < |q| ==> q[i].0 != qpn
    ensures Waiting(q, qpn) == []
    decreases |q|
  {
    if q != [] {
      WaitingAbsent(q[1..], qpn);
    }
  }

  lemma WaitingStep<T>(q: Queue<T>, k: Qpn)
    requires q != []
    ensures Waiting(q, k) == if q[0].0 == k then q[0].1 + Waiting(q[1..], k) else Waiting(q[1..], k)
  {
  }

  lemma {:induction false} WaitingPushed<T>(q: Queue<T>, qpn: Qpn, descs: seq<T>, k: Qpn)
    requires Valid(q)
    ensures Waiting(Pushed(q, qpn, descs), k) == Waiting(q, k) + if k == qpn then descs else []
    decreases |q|
  {
    var r, more := Pushed(q, qpn, descs), if k == qpn then descs else [];
    if q == [] {
      assert r[1..] == [];
    } else {
      assert q[0].0 == qpn ==> r[0] == (qpn, q[0].1 + descs) && r[1..] == q[1..];
      assert q[0].0 != qpn ==> r[0] == q[0] && r[1..] == Pushed(q[1..], qpn, descs);
      hide Waiting, Pushed;
      WaitingStep(q, k);
      WaitingStep(r, k);
      if q[0].0 == qpn {
        if k == qpn {
          WaitingAbsent(q[1..], k);
        } else {
          assert Waiting(q[1..], k) + [] == Waiting(q[1..], k);
        }
      } else {
        WaitingPushed(q[1..], qpn, descs, k);
        if q[0].0 == k {
          assert q[0].1 + (Waiting(q[1..], k) + []) == (q[0].1 + Waiting(q[1..], k)) + [];
        }
      }
    }
  }

  // Serving the front takes the first descriptor of its queue pair and nothing else.
  lemma WaitingRotated<T>(q: Queue<T>, k: Qpn)
    requires Valid(q) && q != []
    ensures Waiting(q, k) == (if k == q[0].0 then [q[0].1[0]] else []) + Waiting(Rotated(q), k)
  {
    var back: Queue<T> := if |q[0].1| > 1 then [(q[0].0, q[0].1[1..])] else [];
    WaitingConcat(q[1..], back, k);
    if k == q[0].0 {
      WaitingAbsent(q[1..], k);
    }
    assert q[0].1 == [q[0].1[0]] + q[0].1[1..];
  }

  // ---- whole runs -------------------------------------------------------------------------------------

  // A batch is a number of services, so a run is a sequence of pushes and single services.
  datatype Op<T> = Push(qpn: Qpn, descs: seq<T>) | Serve

  ghost predicate Legal<T>(op: Op<T>) {
    op.Push? ==> op.descs != []
  }

  ghost function After<T>(q: Queue<T>, op: Op<T>): Queue<T>
    requires Valid(q)
  {
    match op
    case Push(qpn, descs) => Pushed(q, qpn, descs)
    case Serve => if q == [] then q else Rotated(q)
  }

  // What is handed out, with the queue pair it is for.
  ghost function Out<T>(q: Queue<T>, op: Op<T>): seq<(Qpn, T)>
    requires Valid(q)
  {
    if op.Serve? && q != [] then [(q[0].0, q[0].1[0])] else []
  }

  lemma AfterValid<T>(q: Queue<T>, op: Op<T>)
    requires Valid(q) && Legal(op)
    ensures Valid(After(q, op))
  {
    match op
    case Push(qpn, descs) => PushedValid(q, qpn, descs);
    case Serve => if q != [] { RotatedValid(q); }
  }

  ghost predicate AllLegal<T>(ops: seq<Op<T>>) {
    forall i :: 0 <= i < |ops| ==> Legal(ops[i])
  }

  ghost function Final<T>(q: Queue<T>, ops: seq<Op<T>>): Queue<T>
    requires Valid(q) && AllLegal(ops)
    decreases |ops|
  {
    if ops == [] then q else AfterValid(q, ops[0]); Final(After(q, ops[0]), ops[1..])
  }

  ghost function Trace<T>(q: Queue<T>, ops: seq<Op<T>>): seq<(Qpn, T)>
    requires Valid(q) && AllLegal(ops)
    decreases |ops|
  {
    if ops == [] then [] else AfterValid(q, ops[0]); Out(q, ops[0]) + Trace(After(q, ops[0]), ops[1..])
  }

  ghost function PushedTo<T>(ops: seq<Op<T>>, k: Qpn): seq<T>
    decreases |ops|
  {
    if ops == [] then []
    else PushedBy(ops[0], k) + PushedTo(ops[1..], k)
  }

  ghost function ServedTo<T>(trace: seq<(Qpn, T)>, k: Qpn): seq<T>
    decreases |trace|
  {
    if trace == [] then [] else HeadFor(trace[0], k) + ServedTo(trace[1..], k)
  }

  ghost function HeadFor<T>(served: (Qpn, T), k: Qpn): seq<T> {
    if served.0 == k then [served.1] else []
  }

  lemma ServedNone<T>(k: Qpn)
    ensures ServedTo<T>([], k) == []
  {
  }

  lemma ServedStep<T>(trace: seq<(Qpn, T)>, k: Qpn)
    requires trace != []
    ensures ServedTo(trace, k) == HeadFor(trace[0], k) + ServedTo(trace[1..], k)
  {
  }

  lemma {:induction false} ServedConcat<T>(a: seq<(Qpn, T)>, b: seq<(Qpn, T)>, k: Qpn)
    ensures ServedTo(a + b, k) == ServedTo(a, k) + ServedTo(b, k)
    decreases |a|
  {
    hide ServedTo;
    if a == [] {
      assert a + b == b;
      ServedNone<T>(k);
    } else {
      assert (a + b)[1..] == a[1..] + b;
      ServedConcat(a[1..], b, k);
      ServedStep(a, k);
      ServedStep(a + b, k);
      Regroup(HeadFor(a[0], k), ServedTo(a[1..], k), ServedTo(b, k));
    }
  }

  ghost function PushedBy<T>(op: Op<T>, k: Qpn): seq<T> {
    if op.Push? && op.qpn == k then op.descs else []
  }

  lemma OneStepOrder<T>(q: Queue<T>, op: Op<T>, k: Qpn)
    requires Valid(q) && Legal(op)
    ensures ServedTo(Out(q, op), k) + Waiting(After(q, op), k) == Waiting(q, k) + PushedBy(op, k)
  {
    match op
    case Push(qpn, descs) =>
      WaitingPushed(q, qpn, descs, k);
    case Serve =>
      if q != [] {
        WaitingRotated(q, k);
        ServedOne(q[0].0, q[0].1[0], k);
      }
  }

  lemma ServedOne<T>(qpn: Qpn, desc: T, k: Qpn)
    ensures ServedTo([(qpn, desc)], k) == if qpn == k then [desc] else []
  {
    assert ServedTo([(qpn, desc)][1..], k) == [];
  }

  lemma Chain<T>(out: seq<T>, now: seq<T>, before: seq<T>, pushed: seq<T>, more: seq<T>, left: seq<T>, rest: seq<T>)
    requires out + now == before + pushed && more + left == now + rest
    ensures (out + more) + left == before + (pushed + rest)
  {
    assert (out + more) + left == out + (more + left) == out + (now + rest) == (out + now) + rest;
    assert (before + pushed) + rest == before + (pushed + rest);
  }

  // What was waiting, followed by what is pushed, comes out in that order; what has not come out
  // is still waiting. So nothing is lost, invented, repeated or reordered within a queue pair.
  lemma {:induction false} PerQpOrder<T>(q: Queue<T>, ops: seq<Op<T>>, k: Qpn)
    requires Valid(q) && AllLegal(ops)
    ensures Valid(Final(q, ops))
    ensures ServedTo(Trace(q, ops), k) + Waiting(Final(q, ops), k) == Waiting(q, k) + PushedTo(ops, k)
    decreases |ops|
  {
    if ops != [] {
      hide Valid, After, Out, Waiting, ServedTo;
      AfterValid(q, ops[0]);
      var q' := After(q, ops[0]);
      PerQpOrder(q', ops[1..], k);
      OneStepOrder(q, ops[0], k);
      ServedConcat(Out(q, ops[0]), Trace(q', ops[1..]), k);
      Chain(ServedTo(Out(q, ops[0]), k), Waiting(q', k), Waiting(q, k), PushedBy(ops[0], k),
            ServedTo(Trace(q', ops[1..]), k), Waiting(Final(q', ops[1..]), k), PushedTo(ops[1..], k));
    }
  }

  // ---- fairness ---------------------------------------------------------------------------------------

  // b is waiting and a, if it is waiting at all, stands behind it.
  ghost predicate AheadOf<T>(q: Queue<T>, b: Qpn, a: Qpn) {
    exists i :: 0 <= i < |q| && q[i].0 == b && forall j :: 0 <= j <= i ==> q[j].0 != a
  }

  lemma {:induction false} PushKeepsAhead<T>(q: Queue<T>, qpn: Qpn, descs: seq<T>, b: Qpn, a: Qpn)
    requires AheadOf(q, b, a) && a != b
    ensures AheadOf(Pushed(q, qpn, descs), b, a)
    decreases |q|
  {
    var i :| 0 <= i < |q| && q[i].0 == b && forall j :: 0 <= j <= i ==> q[j].0 != a;
    var r := Pushed(q, qpn, descs);
    if q[0].0 == qpn {
      assert r[i].0 == b && forall j :: 0 <= j <= i ==> r[j].0 == q[j].0;
    } else if i == 0 {
      assert r[0] == q[0];
    } else {
      assert q[1..][i - 1].0 == b && forall j :: 0 <= j <= i - 1 ==> q[1..][j] == q[j + 1];
      PushKeepsAhead(q[1..], qpn, descs, b, a);
      var r' := Pushed(q[1..], qpn, descs);
      var k :| 0 <= k < |r'| && r'[k].0 == b && forall j :: 0 <= j <= k ==> r'[j].0 != a;
      assert r[k + 1].0 == b;
      forall j | 0 <= j <= k + 1 ensures r[j].0 != a {
        assert j > 0 ==> r[j] == r'[j - 1];
      }
    }
  }

  lemma ServeKeepsAhead<T>(q: Queue<T>, b: Qpn, a: Qpn)
    requires Valid(q) && AheadOf(q, b, a) && q[0].0 != b
    ensures AheadOf(Rotated(q), b, a) && q[0].0 != a
  {
    var i :| 0 <= i < |q| && q[i].0 == b && forall j :: 0 <= j <= i ==> q[j].0 != a;
    var r := Rotated(q);
    assert r[i - 1].0 == b && forall j :: 0 <= j <= i - 1 ==> r[j] == q[j + 1];
  }

  // While b stands ahead of a, a is not served before b is.
  lemma {:induction false} NoOvertaking<T>(q: Queue<T>, ops: seq<Op<T>>, b: Qpn, a: Qpn, j: nat)
    requires Valid(q) && AllLegal(ops) && AheadOf(q, b, a) && a != b
    requires j < |Trace(q, ops)| && Trace(q, ops)[j].0 == a
    ensures exists i :: 0 <= i < j && Trace(q, ops)[i].0 == b
    decreases |ops|
  {
    AfterValid(q, ops[0]);
    var q', t' := After(q, ops[0]), Trace(After(q, ops[0]), ops[1..]);
    match ops[0]
    case Push(qpn, descs) =>
      PushKeepsAhead(q, qpn, descs, b, a);
      assert Trace(q, ops) == t';
      NoOvertaking(q', ops[1..], b, a, j);
    case Serve =>
      assert Trace(q, ops) == [(q[0].0, q[0].1[0])] + t';
      if q[0].0 == b {
        assert Trace(q, ops)[0].0 == b;
      } else {
        ServeKeepsAhead(q, b, a);
        NoOvertaking(q', ops[1..], b, a, j - 1);
        var i :| 0 <= i < j - 1 && t'[i].0 == b;
        assert Trace(q, ops)[i + 1].0 == b;
      }
  }

  // No queue pair is served twice while another one that is waiting is not served: after the
  // front has been served, it is served again only after everyone who is waiting then.
  lemma Fairness<T>(q: Queue<T>, ops: seq<Op<T>>, b: Qpn, j: nat)
    requires Valid(q) && q != [] && AllLegal(ops)
    requires Has(Rotated(q), b) && b != q[0].0
    ensures Valid(Rotated(q))
    ensures var t := Trace(Rotated(q), ops);
            j < |t| && t[j].0 == q[0].0 ==> exists i :: 0 <= i < j && t[i].0 == b
  {
    RotatedValid(q);
    var r, a := Rotated(q), q[0].0;
    assert AheadOf(r, b, a) by {
      var i :| 0 <= i < |r| && r[i].0 == b;
      forall k | 0 <= k <= i ensures r[k].0 != a {
        assert i < |q| - 1;
        assert r[k] == q[k + 1];
      }
    }
    if j < |Trace(r, ops)| && Trace(r, ops)[j].0 == a {
      NoOvertaking(r, ops, b, a, j);
    }
  }

  // ---- the object -------------------------------------------------------------------------------------

  // The queue after k services, or after the last one that finds something to serve.
  ghost function Serves<T>(k: nat): seq<Op<T>> {
    seq(k, i => Serve)
  }

  class RoundRobinStrategy<T> {
    var queue: Queue<T>

    constructor ()
      ensures queue == []
    {
      queue := [];
    }

    method Push(qpn: Qpn, descs: seq<T>)
      modifies this
      ensures queue == Pushed(old(queue), qpn, descs)
    {
      var i := 0;
      while i < |queue|
        invariant 0 <= i <= |queue| && queue == old(queue)
        invariant queue[..i] + Pushed(queue[i..], qpn, descs) == Pushed(queue, qpn, descs)
      {
        if queue[i].0 == qpn {
          assert queue[i..][1..] == queue[i + 1..];
          queue := queue[i := (qpn, queue[i].1 + descs)];
          assert queue == old(queue)[..i] + ([(qpn, old(queue)[i].1 + descs)] + old(queue)[i + 1..]);
          return;
        }
        assert queue[i..][1..] == queue[i + 1..];
        assert queue[..i + 1] == queue[..i] + [queue[i]];
        i := i + 1;
      }
      assert queue[..i] == queue;
      queue := queue + [(qpn, descs)];
    }

    // Takes the first descriptor of the front queue pair, which then goes to the back or leaves.
    method ServeFront() returns (desc: T)
      requires Valid(queue) && queue != []
      modifies this
      ensures Valid(queue) && queue == Rotated(old(queue)) && desc == old(queue)[0].1[0]
    {
      RotatedValid(queue);
      var (qpn, list) := queue[0];
      desc := list[0];
      list := list[1..];
      queue := queue[1..];
      if list != [] {
        queue := queue + [(qpn, list)];
      }
    }

    // Serves up to POP_BATCH_SIZE descriptors, fewer only when nothing is waiting any more.
    method PopBatch() returns (result: array<Option<T>>, counter: nat)
      requires Valid(queue)
      modifies this
      ensures Valid(queue) && fresh(result) && result.Length == POP_BATCH_SIZE && counter <= POP_BATCH_SIZE
      ensures counter < POP_BATCH_SIZE ==> queue == []
      ensures AllLegal(Serves<T>(counter)) && queue == Final(old(queue), Serves(counter))
      ensures var t := Trace(old(queue), Serves(counter));
              && |t| == counter && (forall i :: 0 <= i < counter ==> result[i] == Some(t[i].1))
      ensures forall i :: counter <= i < POP_BATCH_SIZE ==> result[i] == None
    {
      hide Final, Trace, Valid, Rotated, Serves;
      result := new Option<T>[POP_BATCH_SIZE](_ => None);
      counter := 0;
      ServeNone(queue);
      while queue != []
        invariant Valid(queue) && counter < POP_BATCH_SIZE && AllLegal(Serves<T>(counter))
        invariant queue == Final(old(queue), Serves(counter))
        invariant |Trace(old(queue), Serves(counter))| == counter
        invariant forall i :: 0 <= i < counter ==> result[i] == Some(Trace(old(queue), Serves(counter))[i].1)
        invariant forall i :: counter <= i < POP_BATCH_SIZE ==> result[i] == None
        decreases POP_BATCH_SIZE - counter
      {
        ServeOneMore(old(queue), counter);
        var desc := ServeFront();
        result[counter] := Some(desc);
        counter := counter + 1;
        if counter == POP_BATCH_SIZE {
          return;
        }
      }
    }
  }

  lemma ServeNone<T>(q: Queue<T>)
    requires Valid(q)
    ensures AllLegal(Serves<T>(0)) && Final(q, Serves(0)) == q && Trace(q, Serves(0)) == []
  {
  }

  lemma ServesMore<T>(k: nat)
    ensures AllLegal(Serves<T>(k + 1)) && |Serves<T>(k + 1)| == k + 1 && Serves<T>(k + 1)[0] == Serve
            && Serves<T>(k + 1)[1..] == Serves<T>(k)
  {
  }

  lemma UnfoldRun<T>(q: Queue<T>, ops: seq<Op<T>>)
    requires Valid(q) && AllLegal(ops) && ops != []
    ensures Valid(After(q, ops[0])) && AllLegal(ops[1..])
    ensures Final(q, ops) == Final(After(q, ops[0]), ops[1..])
    ensures Trace(q, ops) == Out(q, ops[0]) + Trace(After(q, ops[0]), ops[1..])
  {
    AfterValid(q, ops[0]);
  }

  // One more service extends the trace by the front of the queue reached so far.
  lemma {:induction false} ServeOneMore<T>(q: Queue<T>, k: nat)
    requires Valid(q)
    ensures AllLegal(Serves<T>(k)) && AllLegal(Serves<T>(k + 1)) && Valid(Final(q, Serves<T>(k)))
    ensures Final(q, Serves(k + 1)) == After(Final(q, Serves<T>(k)), Serve)
    ensures Trace(q, Serves(k + 1)) == Trace(q, Serves(k)) + Out(Final(q, Serves<T>(k)), Serve)
    decreases k
  {
    hide Final, Trace, Valid, After, Out, Serves, AllLegal;
    ServesMore<T>(k);
    UnfoldRun(q, Serves<T>(k + 1));
    var q' := After(q, Serve);
    if k == 0 {
      ServeNone(q);
      ServeNone(q');
      assert [] + Out(q, Serve) == Out(q, Serve) + [];
    } else {
      ServesMore<T>(k - 1);
      UnfoldRun(q, Serves<T>(k));
      ServeOneMore(q', k - 1);
      Regroup(Out(q, Serve), Trace(q', Serves(k - 1)), Out(Final(q, Serves<T>(k)), Serve));
    }
  }
}
