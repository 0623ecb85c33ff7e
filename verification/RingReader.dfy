// The host's reading end of a ring buffer that a card writes to.

module RingReader {
  import opened Wrappers
  import opened BitOps
  import opened RingIndex
  import opened Arith

  // head is the last index heard from the card, tail the last index told to it, and csrTail the
  // register the card reads.
  datatype Reader = Reader(head: nat, tail: nat, readCnt: nat, csrTail: nat) {
    function NextTailIdx(k: nat): nat {
      Add(k, tail, readCnt)
    }

    function Advanced(k: nat): Reader {
      Reader(head, NextTailIdx(k), 0, NextTailIdx(k))
    }

    // A full ring is told to the card before anything else.
    function Relieved(k: nat): Reader {
      if IsFull(k, head, tail) then Advanced(k) else this
    }

    predicate WouldItEmpty(k: nat, newHead: nat) {
      IsEmptyHelper(newHead, NextTailIdx(k))
    }

    function Taken(): Reader {
      this.(readCnt := readCnt + 1)
    }

    // The outcome of reading the head register over and over.
    function Polled(k: nat, polls: seq<nat>): (Reader, bool)
      decreases |polls|
    {
      if polls == [] then (this, false)
      else if !WouldItEmpty(k, polls[0]) then (this.(head := polls[0]).Taken(), true)
      else Polled(k, polls[1..])
    }

    // The reader after a call for the next descriptor, and its slot unless the call timed out.
    function Outcome(k: nat, polls: seq<nat>): (Reader, Option<nat>) {
      var r := Relieved(k);
      if !r.WouldItEmpty(k, r.head) then
        (r.Taken(), Some(Slot(k, r.NextTailIdx(k))))
      else
        var (r', ok) := r.Polled(k, polls);
        (r', if ok then Some(Slot(k, r.NextTailIdx(k))) else None)
    }
  }

  class RingbufReader {
    const k: nat
    var head: nat
    var tail: nat
    var readCnt: nat
    var csrTail: nat

    constructor (k: nat)
      ensures this.k == k && View() == Reader(0, 0, 0, 0)
    {
      this.k := k;
      head, tail, readCnt, csrTail := 0, 0, 0, 0;
    }

    function View(): Reader
      reads this
    {
      Reader(head, tail, readCnt, csrTail)
    }

    method AdvanceTail()
      modifies this
      ensures View() == old(View()).Advanced(k)
    {
      hide Add;
      var newTail := Add(k, tail, readCnt);
      csrTail := newTail;
      tail := newTail;
      readCnt := 0;
    }

    // polls are the values that successive reads of the head register return before the timeout.
    method NextTimeout(polls: seq<nat>) returns (slot: Option<nat>)
      modifies this
      ensures (View(), slot) == old(View()).Outcome(k, polls)
    {
      if IsFull(k, head, tail) {
        AdvanceTail();
      }
      ghost var r := View();
      var idx := Add(k, tail, readCnt);
      if IsEmptyHelper(head, idx) {
        var i := 0;
        while i < |polls| && IsEmptyHelper(polls[i], idx)
          invariant 0 <= i <= |polls| && View() == r
          invariant r.Polled(k, polls) == r.Polled(k, polls[i..])
        {
          i := i + 1;
        }
        if i == |polls| {
          return None;
        }
        head := polls[i];
      }
      readCnt := readCnt + 1;
      slot := Some(Slot(k, idx));
    }
  }

  // ---- the ring with its card ------------------------------------------------------------------------

  // slots is the shared memory and csrHead the card's register. history holds everything the card
  // has written, output everything the host has been given, and cached the unbounded value of the
  // host's head.
  datatype System<T> = System(
    k: nat,
    r: Reader,
    waiting: bool,
    slots: seq<T>,
    csrHead: nat,
    history: seq<T>,
    output: seq<T>,
    cached: nat)

  datatype Action<T> = Next | Poll | Timeout | Flush | Produce(desc: T)

  ghost predicate ValidSlots<T>(s: System<T>) {
    |s.slots| == Pow2(s.k)
  }

  // Hands out the next slot.
  ghost function Give<T>(s: System<T>, r: Reader, cached: nat): (s': System<T>)
    requires ValidSlots(s)
    ensures ValidSlots(s')
  {
    SlotInRange(s.k, r.NextTailIdx(s.k));
    s.(r := r.Taken(), waiting := false, output := s.output + [s.slots[Slot(s.k, r.NextTailIdx(s.k))]],
       cached := cached)
  }

  ghost function Step<T>(s: System<T>, act: Action<T>): (s': System<T>)
    requires ValidSlots(s)
    ensures ValidSlots(s')
  {
    match act
    case Next =>
      if s.waiting then s
      else
        var r := s.r.Relieved(s.k);
        if !r.WouldItEmpty(s.k, r.head) then Give(s, r, s.cached) else s.(r := r, waiting := true)
    case Poll =>
      if s.waiting && !s.r.WouldItEmpty(s.k, s.csrHead)
      then Give(s, s.r.(head := s.csrHead), |s.history|)
      else s
    case Timeout =>
      s.(waiting := false)
    case Flush =>
      if s.waiting then s else s.(r := s.r.Advanced(s.k))
    case Produce(desc) =>
      if IsFull(s.k, s.csrHead, s.r.csrTail) then s
      else
        SlotInRange(s.k, s.csrHead);
        s.(slots := s.slots[Slot(s.k, s.csrHead) := desc], csrHead := Add(s.k, s.csrHead, 1),
           history := s.history + [desc])
  }

  ghost function Init<T>(k: nat, slots: seq<T>): System<T> {
    System(k, Reader(0, 0, 0, 0), false, slots, 0, [], [], 0)
  }

  // The number of descriptors whose slots the card has been given back.
  ghost function Returned<T>(s: System<T>): int {
    |s.output| - s.r.readCnt
  }

  ghost predicate Inv<T>(s: System<T>) {
    && ValidSlots(s)
    && 0 <= Returned(s) && |s.output| <= s.cached <= |s.history| <= Returned(s) + Pow2(s.k)
    && s.r.tail == s.r.csrTail == Index(s.k, Returned(s))
    && s.r.head == Index(s.k, s.cached)
    && s.csrHead == Index(s.k, |s.history|)
    && s.output == s.history[..|s.output|]
    && (forall i :: Returned(s) <= i < |s.history| ==> s.slots[i % Pow2(s.k)] == s.history[i])
    && (s.waiting ==> s.cached == |s.output| < Returned(s) + Pow2(s.k))
  }

  // What the card has written and the host has not been given.
  ghost function Pending<T>(s: System<T>): seq<T>
    requires |s.output| <= |s.history|
  {
    s.history[|s.output|..]
  }

  ghost predicate QueueStep<T>(before: seq<T>, outBefore: seq<T>, after: seq<T>, outAfter: seq<T>, act: Action<T>) {
    || (after == before && outAfter == outBefore)
    || (act.Produce? && after == before + [act.desc] && outAfter == outBefore)
    || ((act.Next? || act.Poll?) && before != [] && after == before[1..] && outAfter == outBefore + [before[0]])
  }

  lemma NextIdxIs<T>(s: System<T>)
    requires Inv(s)
    ensures s.r.NextTailIdx(s.k) == Index(s.k, |s.output|)
  {
    AddIsIndex(s.k, Returned(s), s.r.readCnt);
  }

  // Giving slots back changes nothing else.
  lemma AdvanceStep<T>(s: System<T>)
    requires Inv(s)
    ensures Inv(s.(r := s.r.Advanced(s.k), waiting := false))
    ensures Returned(s.(r := s.r.Advanced(s.k))) == |s.output|
  {
    hide Index;
    NextIdxIs(s);
  }

  lemma RelieveStep<T>(s: System<T>)
    requires Inv(s) && !s.waiting
    ensures var s' := s.(r := s.r.Relieved(s.k));
            Inv(s') && (s'.cached == |s'.output| ==> s'.cached < Returned(s') + Pow2(s.k))
  {
    hide Index, IsFull, Reader.NextTailIdx;
    FullIff(s.k, s.cached, Returned(s));
    AdvanceStep(s);
  }

  lemma GiveStep<T>(s: System<T>, r: Reader, cached: nat)
    requires Inv(s) && |s.output| < cached <= |s.history|
    requires r == s.r.(head := Index(s.k, cached))
    ensures var s' := Give(s, r, cached);
            && Inv(s') && s'.k == s.k && !s'.waiting
            && s'.output == s.output + [Pending(s)[0]] && Pending(s') == Pending(s)[1..]
  {
    hide Index, Slot, Add, Pow2, IsFull;
    NextIdxIs(s);
    SlotIsIndex(s.k, |s.output|);
    var s' := Give(s, r, cached);
    assert s'.output[|s.output|] == s.history[|s.output|];
    assert s'.output == s.history[..|s.output| + 1];
  }

  lemma NextStep<T>(s: System<T>)
    requires Inv(s) && !s.waiting
    ensures var s' := Step(s, Next);
            && Inv(s') && s'.k == s.k && s'.history == s.history
            && (!s'.waiting ==> s.output < s'.output && QueueStep(Pending(s), s.output, Pending(s'), s'.output, Next))
            && (s'.waiting ==> s'.output == s.output)
  {
    hide Index, Slot, Give, IsFull, Reader.NextTailIdx;
    var r := s.r.Relieved(s.k);
    RelieveStep(s);
    var t := s.(r := r);
    NextIdxIs(t);
    EmptyIff(s.k, s.cached, |s.output|);
    if !r.WouldItEmpty(s.k, r.head) {
      GiveStep(t, r, s.cached);
      GiveSame(s, t, r, s.cached);
    }
  }

  lemma GiveSame<T>(s: System<T>, t: System<T>, r: Reader, cached: nat)
    requires ValidSlots(s) && t == s.(r := t.r)
    ensures Give(s, r, cached) == Give(t, r, cached)
    ensures Give(s, r, cached).history == s.history
  {
  }

  lemma PollStep<T>(s: System<T>)
    requires Inv(s) && s.waiting
    ensures var s' := Step(s, Poll);
            && Inv(s') && s'.k == s.k && s'.history == s.history
            && (!s'.waiting ==> QueueStep(Pending(s), s.output, Pending(s'), s'.output, Poll))
            && (s'.waiting ==> s' == s)
  {
    hide Index, Slot, Give, IsFull, Reader.NextTailIdx;
    NextIdxIs(s);
    EmptyIff(s.k, |s.history|, |s.output|);
    if !s.r.WouldItEmpty(s.k, s.csrHead) {
      GiveStep(s, s.r.(head := s.csrHead), |s.history|);
      GiveSame(s, s, s.r.(head := s.csrHead), |s.history|);
    }
  }

  // The card writes only into slots that it was given back.
  lemma ProduceStep<T>(s: System<T>, desc: T)
    requires Inv(s)
    ensures var s' := Step(s, Produce(desc));
            && Inv(s') && s'.k == s.k && s'.output == s.output
            && (if |s.history| < Returned(s) + Pow2(s.k) then Pending(s') == Pending(s) + [desc] else s' == s)
  {
    hide Index, Slot, Add, IsFull;
    FullIff(s.k, |s.history|, Returned(s));
    SlotIsIndex(s.k, |s.history|);
    AddIsIndex(s.k, |s.history|, 1);
    var s' := Step(s, Produce(desc));
    if |s.history| < Returned(s) + Pow2(s.k) {
      forall i | Returned(s) <= i < |s'.history| ensures s'.slots[i % Pow2(s.k)] == s'.history[i] {
        if i < |s.history| {
          SlotsDiffer(s.k, i, |s.history|);
        }
      }
    }
  }

  // The ring refines a bounded queue, whatever the interleaving of host and card.
  lemma StepRefines<T>(s: System<T>, act: Action<T>)
    requires Inv(s)
    ensures var s' := Step(s, act);
            && Inv(s') && s'.k == s.k
            && QueueStep(Pending(s), s.output, Pending(s'), s'.output, act)
            && |Pending(s')| <= Pow2(s.k)
            && s.history <= s'.history && s.output <= s'.output
  {
    hide Index, Slot, Give, IsFull, Add, Reader.NextTailIdx, Reader.Relieved;
    match act
    case Next =>
      if !s.waiting { NextStep(s); }
    case Poll =>
      if s.waiting { PollStep(s); }
    case Timeout =>
    case Flush =>
      AdvanceStep(s);
    case Produce(desc) =>
      ProduceStep(s, desc);
  }

  ghost function Run<T>(s: System<T>, acts: seq<Action<T>>): System<T>
    requires ValidSlots(s)
    decreases |acts|
  {
    if acts == [] then s else Run(Step(s, acts[0]), acts[1..])
  }

  lemma {:induction false} RunKeepsInv<T>(s: System<T>, acts: seq<Action<T>>)
    requires Inv(s)
    ensures Inv(Run(s, acts)) && Run(s, acts).k == s.k
    ensures s.history <= Run(s, acts).history && s.output <= Run(s, acts).output
    decreases |acts|
  {
    if acts != [] {
      hide Step;
      StepRefines(s, acts[0]);
      RunKeepsInv(Step(s, acts[0]), acts[1..]);
    }
  }

  lemma InitInv<T>(k: nat, slots: seq<T>)
    requires |slots| == Pow2(k)
    ensures Inv(Init(k, slots))
  {
    DivModUnique(0, 2 * Pow2(k), 0, 0);
  }

  // From an empty ring, over every run: the host is given what the card has written, each once
  // and in order, the card is never more than the depth of the ring ahead of the slots it was
  // given back, and every slot that was handed out or is still to be, and has not been given back,
  // holds its descriptor. A full ring gives back the slots handed out so far, including those the
  // caller may still hold; of these nothing is promised.
  lemma ReaderIsFifo<T>(k: nat, slots: seq<T>, acts: seq<Action<T>>)
    requires |slots| == Pow2(k)
    ensures var s := Run(Init(k, slots), acts);
            && s.output <= s.history
            && 0 <= Returned(s) <= |s.output| <= |s.history| <= Returned(s) + Pow2(k)
            && |s.slots| == Pow2(k)
            && (forall i :: Returned(s) <= i < |s.history| ==> s.slots[i % Pow2(k)] == s.history[i])
  {
    hide Run, Step;
    InitInv(k, slots);
    RunKeepsInv(Init(k, slots), acts);
  }

  // Whenever the host waits and its poll finds nothing, the card has room to write: they never
  // wait for each other.
  lemma NoMutualWaiting<T>(k: nat, slots: seq<T>, acts: seq<Action<T>>)
    requires |slots| == Pow2(k)
    ensures var s := Run(Init(k, slots), acts);
            s.waiting && s.r.WouldItEmpty(s.k, s.csrHead) ==> !IsFull(s.k, s.csrHead, s.r.csrTail)
  {
    hide Step, Index, IsFull, Reader.NextTailIdx, Run;
    InitInv(k, slots);
    RunKeepsInv(Init(k, slots), acts);
    var s := Run(Init(k, slots), acts);
    if s.waiting {
      NextIdxIs(s);
      EmptyIff(s.k, |s.history|, |s.output|);
      FullIff(s.k, |s.history|, Returned(s));
    }
  }

  // ---- slots that are given back while they are held --------------------------------------------------------

  // Asking for the next descriptor gives back the slots handed out before exactly when there are some and
  // the ring was full when its head was last read.
  lemma GivesBackIff<T>(s: System<T>)
    requires Inv(s) && !s.waiting
    ensures Returned(Step(s, Next)) == Returned(s) <==> s.r.readCnt == 0 || s.cached < Returned(s) + Pow2(s.k)
  {
    hide Index, Slot, IsFull, Add, Pow2;
    FullIff(s.k, s.cached, Returned(s));
  }

  // Then the card can overwrite the oldest of them with the next thing it writes.
  lemma HeldSlotIsOverwritten<T>(s: System<T>, desc: T)
    requires Inv(s) && !s.waiting && s.r.readCnt > 0 && s.cached == Returned(s) + Pow2(s.k)
    ensures s.history[Returned(s)] == s.slots[Returned(s) % Pow2(s.k)]
    ensures var s' := Step(Step(s, Next), Produce(desc));
            |s'.slots| == Pow2(s.k) && s'.slots[Returned(s) % Pow2(s.k)] == desc
  {
    hide Index, Slot, IsFull, Add, Pow2, Give, Reader.Relieved, Reader.NextTailIdx;
    var t := Step(s, Next);
    NextStep(s);
    GivesBackIff(s);
    WrittenAt(t, desc);
    var d, n := Pow2(s.k), Returned(s);
    DivModUnique(n + d, d, n / d + 1, n % d);
  }

  lemma WrittenAt<T>(s: System<T>, desc: T)
    requires Inv(s) && |s.history| < Returned(s) + Pow2(s.k)
    ensures var s' := Step(s, Produce(desc)); s'.k == s.k && s'.slots == s.slots[|s.history| % Pow2(s.k) := desc]
  {
    hide Index, Slot, IsFull, Add, Pow2;
    FullIff(s.k, |s.history|, Returned(s));
    SlotIsIndex(s.k, |s.history|);
  }

  // The card fills the ring, and the host reads the first descriptor.
  ghost function FillAndRead<T>(descs: seq<T>): seq<Action<T>> {
    if descs == [] then [Next, Poll] else [Produce(descs[0])] + FillAndRead(descs[1..])
  }

  // This leads to such a state, for every depth.
  lemma {:induction false} FullRingIsHeld<T>(s: System<T>, descs: seq<T>)
    requires Inv(s) && !s.waiting && s.output == [] && s.r.readCnt == 0 && s.cached == 0
    requires |s.history| + |descs| == Pow2(s.k)
    ensures var s' := Run(s, FillAndRead(descs));
            Inv(s') && s'.k == s.k && !s'.waiting && s'.r.readCnt == 1 && s'.cached == Returned(s') + Pow2(s'.k)
    decreases |descs|
  {
    hide Step, Index, Pow2;
    var acts := FillAndRead(descs);
    if descs == [] {
      ReadFirst(s);
      RunTwo(s, Next, Poll);
    } else {
      ProduceOnly(s, descs[0]);
      assert acts[1..] == FillAndRead(descs[1..]);
      FullRingIsHeld(Step(s, Produce(descs[0])), descs[1..]);
    }
  }

  lemma RunTwo<T>(s: System<T>, a: Action<T>, b: Action<T>)
    requires ValidSlots(s)
    ensures Run(s, [a, b]) == Step(Step(s, a), b)
  {
    hide Step;
    assert [a, b][1..] == [b];
    assert Run(Step(s, a), [b]) == Run(Step(Step(s, a), b), [b][1..]);
  }

  lemma ProduceOnly<T>(s: System<T>, desc: T)
    requires Inv(s) && |s.history| < Returned(s) + Pow2(s.k)
    ensures var s' := Step(s, Produce(desc));
            && Inv(s') && s'.k == s.k && s'.r == s.r && s'.waiting == s.waiting && s'.output == s.output
            && s'.cached == s.cached && |s'.history| == |s.history| + 1
  {
    hide Index, Slot, IsFull, Add, Pow2;
    ProduceStep(s, desc);
    FullIff(s.k, |s.history|, Returned(s));
  }

  lemma ReadFirst<T>(s: System<T>)
    requires Inv(s) && !s.waiting && s.output == [] && s.r.readCnt == 0 && s.cached == 0 && |s.history| == Pow2(s.k)
    ensures var s' := Step(Step(s, Next), Poll);
            Inv(s') && s'.k == s.k && !s'.waiting && s'.r.readCnt == 1 && s'.cached == Returned(s') + Pow2(s'.k)
  {
    hide Index, Slot, IsFull, Add, Pow2;
    NextStep(s);
    FullIff(s.k, s.cached, Returned(s));
    NextIdxIs(s);
    EmptyIff(s.k, s.cached, |s.output|);
    var t := Step(s, Next);
    assert t.waiting && t.r == s.r;
    PollStep(t);
    EmptyIff(s.k, |s.history|, 0);
  }

  // ---- a call for the next descriptor is a run ---------------------------------------------------------------------

  // The card writes some descriptors before each look at its register.
  ghost function Looks<T>(gaps: seq<seq<T>>): seq<Action<T>>
    decreases |gaps|
  {
    if gaps == [] then [] else Produces(gaps[0]) + ([Poll] + Looks(gaps[1..]))
  }

  ghost function Produces<T>(descs: seq<T>): seq<Action<T>> {
    if descs == [] then [] else [Produce(descs[0])] + Produces(descs[1..])
  }

  // The values of the register at these looks.
  ghost function Seen<T>(s: System<T>, gaps: seq<seq<T>>): seq<nat>
    requires ValidSlots(s)
    decreases |gaps|
  {
    if gaps == [] then []
    else
      var t := Run(s, Produces(gaps[0]));
      RunValid(s, Produces(gaps[0]));
      [t.csrHead] + Seen(Step(t, Poll), gaps[1..])
  }

  lemma {:induction false} RunValid<T>(s: System<T>, acts: seq<Action<T>>)
    requires ValidSlots(s)
    ensures ValidSlots(Run(s, acts))
    decreases |acts|
  {
    if acts != [] {
      RunValid(Step(s, acts[0]), acts[1..]);
    }
  }

  lemma {:induction false} RunConcat<T>(s: System<T>, a: seq<Action<T>>, b: seq<Action<T>>)
    requires ValidSlots(s)
    ensures ValidSlots(Run(s, a)) && Run(s, a + b) == Run(Run(s, a), b)
    decreases |a|
  {
    hide Step;
    RunValid(s, a);
    if a == [] {
      assert a + b == b;
    } else {
      assert (a + b)[1..] == a[1..] + b;
      RunConcat(Step(s, a[0]), a[1..], b);
    }
  }

  // What the card does leaves the host's side alone.
  lemma {:induction false} ProducesOnly<T>(s: System<T>, descs: seq<T>)
    requires ValidSlots(s)
    ensures var t := Run(s, Produces(descs));
            ValidSlots(t) && t.r == s.r && t.waiting == s.waiting && t.k == s.k && t.output == s.output
    decreases |descs|
  {
    hide Slot, Add, IsFull;
    if descs != [] {
      ProducesOnly(Step(s, Produce(descs[0])), descs[1..]);
      assert Produces(descs)[1..] == Produces(descs[1..]);
    }
  }

  lemma LooksStep<T>(s: System<T>, gaps: seq<seq<T>>)
    requires ValidSlots(s) && gaps != []
    ensures var t := Run(s, Produces(gaps[0]));
            ValidSlots(t) && Run(s, Looks(gaps)) == Run(Step(t, Poll), Looks(gaps[1..]))
  {
    hide Step;
    RunConcat(s, Produces(gaps[0]), [Poll] + Looks(gaps[1..]));
    assert ([Poll] + Looks(gaps[1..]))[1..] == Looks(gaps[1..]);
  }

  // A host that does not wait is not changed by looking.
  lemma {:induction false} IdleLooks<T>(s: System<T>, gaps: seq<seq<T>>)
    requires ValidSlots(s) && !s.waiting
    ensures var t := Run(s, Looks(gaps)); t.r == s.r && !t.waiting && t.output == s.output && t.k == s.k
    decreases |gaps|
  {
    if gaps != [] {
      LooksStep(s, gaps);
      ProducesOnly(s, gaps[0]);
      IdleLooks(Run(s, Produces(gaps[0])), gaps[1..]);
    }
  }

  lemma {:induction false} PolledIsRun<T>(s: System<T>, gaps: seq<seq<T>>)
    requires ValidSlots(s) && s.waiting
    ensures var (r, ok) := s.r.Polled(s.k, Seen(s, gaps));
            var t := Run(s, Looks(gaps));
            && t.r == r && ok == !t.waiting
            && (if ok then |t.output| == |s.output| + 1 && s.output <= t.output else t.output == s.output)
    decreases |gaps|
  {
    hide Slot, Reader.NextTailIdx;
    if gaps != [] {
      LooksStep(s, gaps);
      ProducesOnly(s, gaps[0]);
      var t := Run(s, Produces(gaps[0]));
      var seen := Seen(s, gaps);
      assert seen[0] == t.csrHead && seen[1..] == Seen(Step(t, Poll), gaps[1..]);
      if s.r.WouldItEmpty(s.k, t.csrHead) {
        PolledIsRun(t, gaps[1..]);
      } else {
        IdleLooks(Step(t, Poll), gaps[1..]);
      }
    }
  }

  lemma NextLooks<T>(s: System<T>, gaps: seq<seq<T>>)
    requires ValidSlots(s) && !s.waiting
    ensures var (r, slot) := s.r.Outcome(s.k, Seen(Step(s, Next), gaps));
            var t := Run(s, [Next] + Looks(gaps));
            && t.r == r && slot.Some? == !t.waiting
            && (if slot.Some? then |t.output| == |s.output| + 1 && s.output <= t.output else t.output == s.output)
            && (slot.Some? ==> slot.value == Slot(s.k, s.r.Relieved(s.k).NextTailIdx(s.k)))
  {
    hide Slot, IsFull, Reader.NextTailIdx, Reader.Relieved;
    var s0, acts := Step(s, Next), [Next] + Looks(gaps);
    assert acts[1..] == Looks(gaps);
    if s0.waiting {
      PolledIsRun(s0, gaps);
    } else {
      IdleLooks(s0, gaps);
    }
  }

  // A call for the next descriptor, with the register values that the card really shows, is a run of the system.
  // It yields a slot exactly when there is a descriptor to read, and the slot holds the oldest of these.
  lemma NextIsRun<T>(s: System<T>, gaps: seq<seq<T>>)
    requires Inv(s) && !s.waiting
    ensures var (r, slot) := s.r.Outcome(s.k, Seen(Step(s, Next), gaps));
            var t := Run(s, [Next] + Looks(gaps));
            && Inv(t) && t.k == s.k && t.r == r
            && (slot.None? ==> t.waiting && t.output == s.output)
            && (slot.Some? ==>
                  && |s.output| < |t.history| && t.output == s.output + [t.history[|s.output|]] && !t.waiting
                  && slot.value == |s.output| % Pow2(s.k) < |t.slots|
                  && t.slots[slot.value] == t.history[|s.output|])
  {
    hide Slot, Index, Step, Reader.Outcome, Pow2, Reader.NextTailIdx, Run, Reader.Relieved;
    var acts := [Next] + Looks(gaps);
    RunKeepsInv(s, acts);
    NextLooks(s, gaps);
    RelieveStep(s);
    NextIdxIs(s.(r := s.r.Relieved(s.k)));
    SlotIsIndex(s.k, |s.output|);
    var (r, slot) := s.r.Outcome(s.k, Seen(Step(s, Next), gaps));
    var t := Run(s, acts);
    if slot.Some? {
      TakenCounts(s.r, s.k, Seen(Step(s, Next), gaps));
      assert t.output == t.history[..|s.output| + 1];
    }
  }

  // The slot that is handed out has not been given back.
  lemma {:induction false} PolledCounts(r: Reader, k: nat, polls: seq<nat>)
    requires r.Polled(k, polls).1
    ensures r.Polled(k, polls).0.readCnt >= 1
    decreases |polls|
  {
    hide Reader.NextTailIdx;
    if r.WouldItEmpty(k, polls[0]) {
      PolledCounts(r, k, polls[1..]);
    }
  }

  lemma TakenCounts(r: Reader, k: nat, polls: seq<nat>)
    requires r.Outcome(k, polls).1.Some?
    ensures r.Outcome(k, polls).0.readCnt >= 1
  {
    hide Reader.NextTailIdx, Reader.Relieved, Slot;
    var r' := r.Relieved(k);
    if r'.WouldItEmpty(k, r'.head) {
      PolledCounts(r', k, polls);
    }
  }
}
