// The host's writing end of a ring buffer that a card reads from.

module RingWriter {
  import opened Wrappers
  import opened BitOps
  import opened RingIndex
  import opened Arith

  // head is the last index told to the card, tail the last index heard from it, and csrHead the
  // register the card reads.
  datatype Writer = Writer(head: nat, tail: nat, writtenCnt: nat, csrHead: nat) {
    function NextHeadIdx(k: nat): nat {
      Add(k, head, writtenCnt)
    }

    predicate WouldItFull(k: nat, newTail: nat) {
      IsFull(k, NextHeadIdx(k), newTail)
    }

    function Advanced(k: nat): Writer {
      Writer(NextHeadIdx(k), tail, 0, NextHeadIdx(k))
    }

    function Taken(): Writer {
      this.(writtenCnt := writtenCnt + 1)
    }

    // The outcome of reading the tail register over and over: the first value that leaves room
    // is kept and one slot is taken.
    function Polled(k: nat, polls: seq<nat>): (Writer, bool)
      decreases |polls|
    {
      if polls == [] then (this, false)
      else if !WouldItFull(k, polls[0]) then (this.(tail := polls[0]).Taken(), true)
      else Polled(k, polls[1..])
    }

    // The writer after a call for the next slot, and the slot unless the call timed out.
    function Outcome(k: nat, polls: seq<nat>): (Writer, Option<nat>) {
      if !WouldItFull(k, tail) then
        (Taken(), Some(Slot(k, NextHeadIdx(k))))
      else
        var (w, ok) := Advanced(k).Polled(k, polls);
        (w, if ok then Some(Slot(k, Advanced(k).NextHeadIdx(k))) else None)
    }
  }

  class RingbufWriter {
    const k: nat
    var head: nat
    var tail: nat
    var writtenCnt: nat
    var csrHead: nat

    constructor (k: nat)
      ensures this.k == k && View() == Writer(0, 0, 0, 0)
    {
      this.k := k;
      head, tail, writtenCnt, csrHead := 0, 0, 0, 0;
    }

    function View(): Writer
      reads this
    {
      Writer(head, tail, writtenCnt, csrHead)
    }

    method AdvanceHead()
      modifies this
      ensures View() == old(View()).Advanced(k)
    {
      hide Add;
      var newHead := Add(k, head, writtenCnt);
      head := newHead;
      csrHead := newHead;
      writtenCnt := 0;
    }

    // polls are the values that successive reads of the tail register return before the timeout.
    method NextTimeout(polls: seq<nat>) returns (slot: Option<nat>)
      modifies this
      ensures (View(), slot) == old(View()).Outcome(k, polls)
    {
      var idx := Add(k, head, writtenCnt);
      if IsFull(k, idx, tail) {
        AdvanceHead();
        ghost var w := View();
        PublishedIdx(old(View()), k);
        var i := 0;
        while i < |polls| && IsFull(k, idx, polls[i])
          invariant 0 <= i <= |polls| && View() == w
          invariant w.Polled(k, polls) == w.Polled(k, polls[i..])
        {
          i := i + 1;
        }
        if i == |polls| {
          return None;
        }
        tail := polls[i];
      }
      slot := Some(Slot(k, idx));
      writtenCnt := writtenCnt + 1;
    }
  }

  // Publishing does not move the next slot.
  lemma PublishedIdx(w: Writer, k: nat)
    ensures w.Advanced(k).NextHeadIdx(k) == w.NextHeadIdx(k)
  {
    AndLowMask(w.head + w.writtenCnt, k + 1);
    AndLowMask(w.NextHeadIdx(k), k + 1);
    AddIsIndex(k, w.head + w.writtenCnt, 0);
  }

  // ---- the ring with its card --------------------------------------------------------------------------

  // slots is the shared memory and csrTail the card's register. The host waits while it has a
  // descriptor for which there was no room. history holds everything the host has written,
  // output everything the card has read, and cached the unbounded value of the host's tail.
  datatype System<T> = System(
    k: nat,
    w: Writer,
    waiting: Option<T>,
    slots: seq<T>,
    csrTail: nat,
    history: seq<T>,
    output: seq<T>,
    cached: nat)

  datatype Action<T> = Next(desc: T) | Poll | Timeout | Flush | Consume

  ghost predicate ValidSlots<T>(s: System<T>) {
    |s.slots| == Pow2(s.k)
  }

  // Takes the next slot and fills it.
  ghost function Place<T>(s: System<T>, w: Writer, desc: T, cached: nat): (r: System<T>)
    requires ValidSlots(s)
    ensures ValidSlots(r)
  {
    var slot := Slot(s.k, w.NextHeadIdx(s.k));
    SlotInRange(s.k, w.NextHeadIdx(s.k));
    s.(w := w.Taken(), waiting := None, slots := s.slots[slot := desc], history := s.history + [desc], cached := cached)
  }

  ghost function Step<T>(s: System<T>, act: Action<T>): (r: System<T>)
    requires ValidSlots(s)
    ensures ValidSlots(r)
  {
    match act
    case Next(desc) =>
      if s.waiting.Some? then s
      else if !s.w.WouldItFull(s.k, s.w.tail) then Place(s, s.w, desc, s.cached)
      else s.(w := s.w.Advanced(s.k), waiting := Some(desc))
    case Poll =>
      if s.waiting.Some? && !s.w.WouldItFull(s.k, s.csrTail)
      then Place(s, s.w.(tail := s.csrTail), s.waiting.value, |s.output|)
      else s
    case Timeout =>
      s.(waiting := None)
    case Flush =>
      if s.waiting.Some? then s else s.(w := s.w.Advanced(s.k))
    case Consume =>
      if IsEmptyHelper(s.w.csrHead, s.csrTail) then s
      else
        SlotInRange(s.k, s.csrTail);
        s.(output := s.output + [s.slots[Slot(s.k, s.csrTail)]], csrTail := Add(s.k, s.csrTail, 1))
  }

  ghost function Init<T>(k: nat, slots: seq<T>): System<T> {
    System(k, Writer(0, 0, 0, 0), None, slots, 0, [], [], 0)
  }

  // The number of descriptors the card has been told about.
  ghost function Published<T>(s: System<T>): int {
    |s.history| - s.w.writtenCnt
  }

  ghost predicate Inv<T>(s: System<T>) {
    && ValidSlots(s)
    && s.cached <= |s.output| <= Published(s) && |s.history| <= s.cached + Pow2(s.k)
    && s.w.head == s.w.csrHead == Index(s.k, Published(s))
    && s.w.tail == Index(s.k, s.cached)
    && s.csrTail == Index(s.k, |s.output|)
    && s.output == s.history[..|s.output|]
    && (forall i :: |s.output| <= i < |s.history| ==> s.slots[i % Pow2(s.k)] == s.history[i])
    && (s.waiting.Some? ==> s.w.writtenCnt == 0 && |s.history| == s.cached + Pow2(s.k))
  }

  // The descriptors between the host and the card.
  ghost function Pending<T>(s: System<T>): seq<T>
    requires |s.output| <= |s.history|
  {
    s.history[|s.output|..]
  }

  // A step of the ring is a step of a queue of bounded size: it appends one descriptor, removes
  // the oldest one, or changes nothing.
  ghost predicate QueueStep<T>(before: seq<T>, outBefore: seq<T>, after: seq<T>, outAfter: seq<T>, act: Action<T>,
                               waiting: Option<T>)
  {
    || (after == before && outAfter == outBefore)
    || (outAfter == outBefore &&
         ((act.Next? && after == before + [act.desc])
          || (act.Poll? && waiting.Some? && after == before + [waiting.value])))
    || (act.Consume? && before != [] && after == before[1..] && outAfter == outBefore + [before[0]])
  }

  lemma NextIdxIs<T>(s: System<T>)
    requires Inv(s)
    ensures s.w.NextHeadIdx(s.k) == Index(s.k, |s.history|)
  {
    AddIsIndex(s.k, Published(s), s.w.writtenCnt);
  }

  // Room for one more descriptor, as the host sees it, is room in the ring.
  lemma PlaceStep<T>(s: System<T>, w: Writer, desc: T, cached: nat)
    requires Inv(s) && cached <= |s.output| && |s.history| < cached + Pow2(s.k)
    requires w == s.w.(tail := Index(s.k, cached))
    ensures var r := Place(s, w, desc, cached);
            && Inv(r) && r.k == s.k && r.waiting.None? && r.output == s.output
            && Pending(r) == Pending(s) + [desc] && |Pending(s)| < Pow2(s.k)
  {
    hide Index, Slot;
    NextIdxIs(s);
    SlotIsIndex(s.k, |s.history|);
    var r := Place(s, w, desc, cached);
    forall i | |r.output| <= i < |r.history| ensures r.slots[i % Pow2(s.k)] == r.history[i] {
      if i < |s.history| {
        SlotsDiffer(s.k, i, |s.history|);
      }
    }
  }

  lemma AdvanceStep<T>(s: System<T>)
    requires Inv(s)
    ensures var w := s.w.Advanced(s.k);
            w.head == w.csrHead == Index(s.k, |s.history|) && w.tail == s.w.tail && w.writtenCnt == 0
  {
    hide Index;
    NextIdxIs(s);
  }

  lemma NextStep<T>(s: System<T>, desc: T)
    requires Inv(s) && s.waiting.None?
    ensures var r := Step(s, Next(desc));
            && Inv(r) && r.k == s.k && r.output == s.output
            && (r.waiting.None? ==> Pending(r) == Pending(s) + [desc])
            && (r.waiting.Some? ==> Pending(r) == Pending(s) && Published(r) == |r.history|)
  {
    hide Index, Slot, Place, IsFull, Writer.NextHeadIdx;
    NextIdxIs(s);
    FullIff(s.k, |s.history|, s.cached);
    if !s.w.WouldItFull(s.k, s.w.tail) {
      PlaceStep(s, s.w, desc, s.cached);
    } else {
      AdvanceStep(s);
    }
  }

  lemma PollStep<T>(s: System<T>)
    requires Inv(s) && s.waiting.Some?
    ensures var r := Step(s, Poll);
            && Inv(r) && r.k == s.k && r.output == s.output
            && (r.waiting.None? ==> Pending(r) == Pending(s) + [s.waiting.value])
            && (r.waiting.Some? ==> r == s)
  {
    hide Index, Slot, Place, IsFull, Writer.NextHeadIdx;
    NextIdxIs(s);
    FullIff(s.k, |s.history|, |s.output|);
    if !s.w.WouldItFull(s.k, s.csrTail) {
      PlaceStep(s, s.w.(tail := s.csrTail), s.waiting.value, |s.output|);
    }
  }

  lemma ConsumeStep<T>(s: System<T>)
    requires Inv(s)
    ensures var r := Step(s, Consume);
            && Inv(r) && r.k == s.k && (|s.output| == Published(s) ==> r == s)
            && (|s.output| < Published(s) ==> r.output == s.output + [Pending(s)[0]] && Pending(r) == Pending(s)[1..])
  {
    hide Index, Slot, Add;
    EmptyIff(s.k, Published(s), |s.output|);
    SlotIsIndex(s.k, |s.output|);
    AddIsIndex(s.k, |s.output|, 1);
  }

  // The ring refines a bounded queue, whatever the interleaving of host and card.
  lemma StepRefines<T>(s: System<T>, act: Action<T>)
    requires Inv(s)
    ensures var r := Step(s, act);
            && Inv(r)
            && QueueStep(Pending(s), s.output, Pending(r), r.output, act, s.waiting)
            && |Pending(r)| <= Pow2(s.k)
            && r.k == s.k && s.history <= r.history && s.output <= r.output
  {
    hide Index, Slot, Place, IsFull, Add, Writer.NextHeadIdx;
    match act
    case Next(desc) =>
      if s.waiting.None? { NextStep(s, desc); }
    case Poll =>
      if s.waiting.Some? { PollStep(s); }
    case Timeout =>
    case Flush =>
      AdvanceStep(s);
    case Consume =>
      ConsumeStep(s);
  }

  ghost function Run<T>(s: System<T>, acts: seq<Action<T>>): System<T>
    requires ValidSlots(s)
    decreases |acts|
  {
    if acts == [] then s else Run(Step(s, acts[0]), acts[1..])
  }

  lemma {:induction false} RunKeepsInv<T>(s: System<T>, acts: seq<Action<T>>)
    requires Inv(s)
    ensures Inv(Run(s, acts)) && Run(s, acts).k == s.k
    ensures s.history <= Run(s, acts).history && s.output <= Run(s, acts).output
    decreases |acts|
  {
    if acts != [] {
      hide Step;
      StepRefines(s, acts[0]);
      RunKeepsInv(Step(s, acts[0]), acts[1..]);
    }
  }

  lemma InitInv<T>(k: nat, slots: seq<T>)
    requires |slots| == Pow2(k)
    ensures Inv(Init(k, slots))
  {
    DivModUnique(0, 2 * Pow2(k), 0, 0);
  }

  // From an empty ring, over every run: what the card has read is, in order and without loss or
  // repetition, the first part of what the host has written, and no more than the depth of the
  // ring is ever between them.
  lemma WriterIsFifo<T>(k: nat, slots: seq<T>, acts: seq<Action<T>>)
    requires |slots| == Pow2(k)
    ensures var s := Run(Init(k, slots), acts);
            && s.output <= s.history
            && |s.history| - |s.output| <= Pow2(k)
            && |s.output| <= Published(s) <= |s.history|
  {
    hide Run, Step;
    InitInv(k, slots);
    RunKeepsInv(Init(k, slots), acts);
  }

  // Whenever the host waits, it has published everything it has written, and as long as its poll
  // finds no room the card has something to read: they never wait for each other.
  lemma NoMutualWaiting<T>(k: nat, slots: seq<T>, acts: seq<Action<T>>)
    requires |slots| == Pow2(k)
    ensures var s := Run(Init(k, slots), acts);
            s.waiting.Some? ==>
              && Published(s) == |s.history|
              && (s.w.WouldItFull(s.k, s.csrTail) ==> !IsEmptyHelper(s.w.csrHead, s.csrTail))
  {
    hide Step, Index, IsFull, Writer.NextHeadIdx, Run;
    InitInv(k, slots);
    RunKeepsInv(Init(k, slots), acts);
    var s := Run(Init(k, slots), acts);
    if s.waiting.Some? {
      NextIdxIs(s);
      FullIff(s.k, |s.history|, |s.output|);
      EmptyIff(s.k, Published(s), |s.output|);
    }
  }

  // ---- a call for the next slot is a run --------------------------------------------------------------------------

  // The card reads some descriptors before each look at its register.
  ghost function Looks<T>(gaps: seq<nat>): seq<Action<T>>
    decreases |gaps|
  {
    if gaps == [] then [] else Consumes<T>(gaps[0]) + ([Poll] + Looks<T>(gaps[1..]))
  }

  ghost function Consumes<T>(n: nat): seq<Action<T>> {
    if n == 0 then [] else [Consume] + Consumes<T>(n - 1)
  }

  // The values of the register at these looks.
  ghost function Seen<T>(s: System<T>, gaps: seq<nat>): seq<nat>
    requires ValidSlots(s)
    decreases |gaps|
  {
    if gaps == [] then []
    else
      var t := Run(s, Consumes(gaps[0]));
      RunValid(s, Consumes(gaps[0]));
      [t.csrTail] + Seen(Step(t, Poll), gaps[1..])
  }

  lemma {:induction false} RunValid<T>(s: System<T>, acts: seq<Action<T>>)
    requires ValidSlots(s)
    ensures ValidSlots(Run(s, acts))
    decreases |acts|
  {
    if acts != [] {
      RunValid(Step(s, acts[0]), acts[1..]);
    }
  }

  lemma {:induction false} RunConcat<T>(s: System<T>, a: seq<Action<T>>, b: seq<Action<T>>)
    requires ValidSlots(s)
    ensures ValidSlots(Run(s, a)) && Run(s, a + b) == Run(Run(s, a), b)
    decreases |a|
  {
    hide Step;
    RunValid(s, a);
    if a == [] {
      assert a + b == b;
    } else {
      assert (a + b)[1..] == a[1..] + b;
      RunConcat(Step(s, a[0]), a[1..], b);
    }
  }

  // What the card does leaves the host's side alone.
  lemma {:induction false} ConsumesOnly<T>(s: System<T>, n: nat)
    requires ValidSlots(s)
    ensures var t := Run(s, Consumes(n));
            && ValidSlots(t) && t.w == s.w && t.waiting == s.waiting && t.k == s.k && t.history == s.history
            && t.slots == s.slots
    decreases n
  {
    hide Slot, Add;
    if n > 0 {
      ConsumesOnly(Step(s, Consume), n - 1);
      assert Consumes<T>(n)[1..] == Consumes<T>(n - 1);
    }
  }

  lemma LooksStep<T>(s: System<T>, gaps: seq<nat>)
    requires ValidSlots(s) && gaps != []
    ensures var t := Run(s, Consumes(gaps[0]));
            ValidSlots(t) && Run(s, Looks(gaps)) == Run(Step(t, Poll), Looks(gaps[1..]))
  {
    hide Step;
    var t := Run(s, Consumes(gaps[0]));
    RunConcat(s, Consumes(gaps[0]), [Poll] + Looks(gaps[1..]));
    assert ([Poll] + Looks<T>(gaps[1..]))[1..] == Looks<T>(gaps[1..]);
  }

  // A host that does not wait is not changed by looking.
  lemma {:induction false} IdleLooks<T>(s: System<T>, gaps: seq<nat>)
    requires ValidSlots(s) && s.waiting.None?
    ensures var t := Run(s, Looks(gaps));
            t.w == s.w && t.waiting.None? && t.history == s.history && t.slots == s.slots && t.k == s.k
    decreases |gaps|
  {
    if gaps != [] {
      LooksStep(s, gaps);
      ConsumesOnly(s, gaps[0]);
      IdleLooks(Run(s, Consumes(gaps[0])), gaps[1..]);
    }
  }

  lemma {:induction false} PolledIsRun<T>(s: System<T>, gaps: seq<nat>)
    requires ValidSlots(s) && s.waiting.Some?
    ensures var (w, ok) := s.w.Polled(s.k, Seen(s, gaps));
            var t := Run(s, Looks(gaps));
            && t.w == w && (ok <==> t.waiting.None?)
            && (ok ==> t.history == s.history + [s.waiting.value])
            && (!ok ==> t.history == s.history)
    decreases |gaps|
  {
    hide Slot, Writer.NextHeadIdx, IsFull;
    if gaps != [] {
      LooksStep(s, gaps);
      ConsumesOnly(s, gaps[0]);
      var t := Run(s, Consumes(gaps[0]));
      var seen := Seen(s, gaps);
      assert seen[0] == t.csrTail && seen[1..] == Seen(Step(t, Poll), gaps[1..]);
      if s.w.WouldItFull(s.k, t.csrTail) {
        PolledIsRun(t, gaps[1..]);
      } else {
        IdleLooks(Step(t, Poll), gaps[1..]);
      }
    }
  }

  lemma NextLooks<T>(s: System<T>, desc: T, gaps: seq<nat>)
    requires ValidSlots(s) && s.waiting.None?
    ensures var (w, slot) := s.w.Outcome(s.k, Seen(Step(s, Next(desc)), gaps));
            var t := Run(s, [Next(desc)] + Looks(gaps));
            && t.w == w && (slot.Some? ==> t.waiting.None? && t.history == s.history + [desc])
            && (slot.None? ==> t.waiting == Some(desc) && t.history == s.history)
            && (slot.Some? ==> slot.value == Slot(s.k, s.w.NextHeadIdx(s.k)))
  {
    hide Slot, IsFull, Writer.NextHeadIdx;
    var s0, acts := Step(s, Next(desc)), [Next(desc)] + Looks(gaps);
    assert acts[1..] == Looks(gaps);
    PublishedIdx(s.w, s.k);
    if s0.waiting.Some? {
      PolledIsRun(s0, gaps);
      StillWaits(s0, gaps);
    } else {
      IdleLooks(s0, gaps);
    }
  }

  lemma {:induction false} StillWaits<T>(s: System<T>, gaps: seq<nat>)
    requires ValidSlots(s) && s.waiting.Some?
    ensures var t := Run(s, Looks(gaps)); t.waiting.Some? ==> t.waiting == s.waiting
    decreases |gaps|
  {
    hide Slot, IsFull, Writer.NextHeadIdx;
    if gaps != [] {
      LooksStep(s, gaps);
      ConsumesOnly(s, gaps[0]);
      var t := Step(Run(s, Consumes(gaps[0])), Poll);
      if t.waiting.Some? {
        StillWaits(t, gaps[1..]);
      } else {
        IdleLooks(t, gaps[1..]);
      }
    }
  }

  // A call for the next slot, with the register values that the card really shows, is a run of the system. It
  // yields a slot exactly when the descriptor could be placed, and no descriptor that the card has not read
  // stood there.
  lemma NextIsRun<T>(s: System<T>, desc: T, gaps: seq<nat>)
    requires Inv(s) && s.waiting.None?
    ensures var (w, slot) := s.w.Outcome(s.k, Seen(Step(s, Next(desc)), gaps));
            var t := Run(s, [Next(desc)] + Looks(gaps));
            && Inv(t) && t.k == s.k && t.w == w
            && (slot.None? ==> t.history == s.history && t.waiting == Some(desc))
            && (slot.Some? ==>
                  && t.history == s.history + [desc] && t.waiting.None? && slot.value == |s.history| % Pow2(s.k)
                  && (forall i :: |t.output| <= i < |s.history| ==> i % Pow2(s.k) != slot.value))
  {
    hide Slot, Index, Step, Writer.Outcome, Pow2, Writer.NextHeadIdx, Run;
    var acts := [Next(desc)] + Looks(gaps);
    RunKeepsInv(s, acts);
    NextLooks(s, desc, gaps);
    NextIdxIs(s);
    SlotIsIndex(s.k, |s.history|);
    var t := Run(s, acts);
    if t.history == s.history + [desc] {
      forall i | |t.output| <= i < |s.history| ensures i % Pow2(s.k) != |s.history| % Pow2(s.k) {
        SlotsDiffer(s.k, i, |s.history|);
      }
    }
  }
}
