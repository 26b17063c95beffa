/** The logger's ring buffer as a state machine: any number of producers, one consumer, every interleaving
    of their steps. A producer is known by the ticket it drew. */
module LogQueue {
  import opened Masks

  /** Log entries are opaque to the queue. */
  type Entry = string

  /** How far the producer of a ticket has come. */
  datatype Stage = Claimed | Passed | Constructing | Constructed | Published

  datatype Producer = Producer(entry: Entry, stage: Stage)

  /** Raw memory, an entry under construction by the producer of a ticket, or an entry. */
  datatype Cell = Raw | Partial(ticket: nat) | Full(entry: Entry)

  datatype Slot = Slot(cell: Cell, isConstructed: bool)

  /** The consumer's place in its round: having written an entry out, destroyed it, cleared its flag. */
  datatype Consumer = Waiting | Written | Destroyed | Cleared

  /** `tail` is the stored, masked position; `consumed` counts how often it was advanced. The head
      counter is the number of producers. */
  datatype State = State(slots: seq<Slot>, producers: seq<Producer>, tail: nat, consumer: Consumer, consumed: nat, log: seq<Cell>)

  /** The guard of the spin loop as it is written, on masked positions, and as it is meant. */
  datatype Guard = AsWritten | Intended

  /** Positions are unsigned 64-bit words. */
  const WORD: nat := 0x1_0000_0000_0000_0000

  datatype Step =
    | Claim(entry: Entry)
    | Pass(ticket: nat)
    | Begin(ticket: nat)
    | Finish(ticket: nat)
    | Publish(ticket: nat)
    | Write
    | Destroy
    | Clear
    | Advance

  function Init(size: nat): State {
    State(seq(size, _ => Slot(Raw, false)), [], 0, Waiting, 0, [])
  }

  /** The slot of a ticket. */
  function SlotOf(s: State, ticket: nat): nat {
    if s.slots == [] then 0 else BitAnd(ticket, |s.slots| - 1)
  }

  predicate GuardPasses(guard: Guard, s: State, ticket: nat) {
    match guard
    case AsWritten => (SlotOf(s, ticket) - s.tail) % WORD < |s.slots|
    case Intended => ticket - s.consumed < |s.slots|
  }

  predicate StageIs(s: State, ticket: nat, stage: Stage) {
    ticket < |s.producers| && s.producers[ticket].stage == stage
  }

  predicate Enabled(guard: Guard, s: State, step: Step) {
    match step
    case Claim(_) => true
    case Pass(t) => StageIs(s, t, Claimed) && GuardPasses(guard, s, t)
    case Begin(t) => StageIs(s, t, Passed)
    case Finish(t) => StageIs(s, t, Constructing)
    case Publish(t) => StageIs(s, t, Constructed)
    case Write => s.consumer.Waiting? && s.tail < |s.slots| && s.slots[s.tail].isConstructed
    case Destroy => s.consumer.Written?
    case Clear => s.consumer.Destroyed?
    case Advance => s.consumer.Cleared?
  }

  function Put(s: State, i: nat, slot: Slot): State {
    if i < |s.slots| then s.(slots := s.slots[i := slot]) else s
  }

  function SlotAt(s: State, i: nat): Slot {
    if i < |s.slots| then s.slots[i] else Slot(Raw, false)
  }

  function Move(s: State, ticket: nat, stage: Stage): State {
    if ticket < |s.producers| then s.(producers := s.producers[ticket := s.producers[ticket].(stage := stage)]) else s
  }

  function Next(s: State, step: Step): State {
    match step
    case Claim(entry) => s.(producers := s.producers + [Producer(entry, Claimed)])
    case Pass(t) => Move(s, t, Passed)
    case Begin(t) =>
      var i := SlotOf(s, t);
      Move(Put(s, i, SlotAt(s, i).(cell := Partial(t))), t, Constructing)
    case Finish(t) =>
      var i := SlotOf(s, t);
      var cell := if t < |s.producers| then Full(s.producers[t].entry) else Raw;
      Move(Put(s, i, SlotAt(s, i).(cell := cell)), t, Constructed)
    case Publish(t) =>
      var i := SlotOf(s, t);
      Move(Put(s, i, SlotAt(s, i).(isConstructed := true)), t, Published)
    case Write => s.(log := s.log + [SlotAt(s, s.tail).cell], consumer := Written)
    case Destroy => Put(s, s.tail, SlotAt(s, s.tail).(cell := Raw)).(consumer := Destroyed)
    case Clear => Put(s, s.tail, SlotAt(s, s.tail).(isConstructed := false)).(consumer := Cleared)
    case Advance => s.(tail := SlotOf(s, s.tail + 1), consumed := s.consumed + 1, consumer := Waiting)
  }

  predicate IsRun(guard: Guard, s: State, steps: seq<Step>)
    decreases |steps|
  {
    steps == [] || (Enabled(guard, s, steps[0]) && IsRun(guard, Next(s, steps[0]), steps[1..]))
  }

  function Exec(s: State, steps: seq<Step>): State
    decreases |steps|
  {
    if steps == [] then s else Exec(Next(s, steps[0]), steps[1..])
  }

  /** A step does no harm: it does not construct over an entry, or over one under construction, and it
      writes out whole entries only. */
  predicate Harmless(s: State, step: Step) {
    match step
    case Begin(t) => SlotAt(s, SlotOf(s, t)).cell.Raw?
    case Write => SlotAt(s, s.tail).cell.Full?
    case _ => true
  }

  predicate HarmlessRun(s: State, steps: seq<Step>)
    decreases |steps|
  {
    steps == [] || (Harmless(s, steps[0]) && HarmlessRun(Next(s, steps[0]), steps[1..]))
  }

  /** At most `n` tickets are drawn and not yet consumed. */
  predicate Outstanding(s: State, n: nat) {
    |s.producers| <= s.consumed + n
  }

  predicate OutstandingRun(s: State, steps: seq<Step>, n: nat)
    decreases |steps|
  {
    Outstanding(s, n) && (steps != [] ==> OutstandingRun(Next(s, steps[0]), steps[1..], n))
  }

  // ---- the invariant ----

  /** What the slot of a ticket holds as long as no ticket a round away has touched it. */
  function Held(s: State, ticket: nat): Slot {
    if ticket >= |s.producers| then Slot(Raw, false)
    else
      var p := s.producers[ticket];
      match p.stage
      case Claimed => Slot(Raw, false)
      case Passed => Slot(Raw, false)
      case Constructing => Slot(Partial(ticket), false)
      case Constructed => Slot(Full(p.entry), false)
      case Published =>
        if ticket == s.consumed && s.consumer.Destroyed? then Slot(Raw, true)
        else if ticket == s.consumed && s.consumer.Cleared? then Slot(Raw, false)
        else Slot(Full(p.entry), true)
  }

  predicate InWindow(s: State, ticket: nat) {
    s.consumed <= ticket < s.consumed + |s.slots|
  }

  ghost predicate SlotsHeld(s: State) {
    forall t: nat :: InWindow(s, t) ==> SlotAt(s, SlotOf(s, t)) == Held(s, t)
  }

  /** The consumed tickets are published, and only tickets less than a round ahead are past the guard. */
  ghost predicate StagesFit(s: State) {
    forall t :: 0 <= t < |s.producers| ==>
      && (t < s.consumed ==> s.producers[t].stage.Published?)
      && (s.producers[t].stage != Claimed ==> t < s.consumed + |s.slots|)
  }

  /** The log is the entries of the first tickets in ticket order, each once and whole. */
  ghost predicate LogFollowsTickets(s: State) {
    && |s.log| <= |s.producers|
    && (forall i :: 0 <= i < |s.log| ==> s.log[i] == Full(s.producers[i].entry))
    && |s.log| == s.consumed + (if s.consumer.Waiting? then 0 else 1)
  }

  ghost predicate Inv(s: State) {
    && IsPow2(|s.slots|) && |s.slots| < WORD
    && s.tail == SlotOf(s, s.consumed)
    && (!s.consumer.Waiting? ==> StageIs(s, s.consumed, Published))
    && LogFollowsTickets(s) && StagesFit(s) && SlotsHeld(s)
  }

  // Distinct tickets of the window have distinct slots.
  lemma WindowSlots(s: State, t: nat, u: nat)
    requires IsPow2(|s.slots|) && InWindow(s, t) && InWindow(s, u) && t != u
    ensures SlotOf(s, t) != SlotOf(s, u) && SlotOf(s, t) < |s.slots|
  {
    MaskIsModulo(t, |s.slots|);
    MaskIsModulo(u, |s.slots|);
    SlotsDistinct(if t < u then t else u, if t < u then u else t, |s.slots|);
  }

  lemma SlotInRange(s: State, t: nat)
    requires IsPow2(|s.slots|)
    ensures SlotOf(s, t) < |s.slots|
  {
    MaskIsModulo(t, |s.slots|);
  }

  // A step that changes what one ticket's slot holds, and that slot accordingly.
  lemma OneSlotMoves(s: State, s': State, t: nat)
    requires IsPow2(|s.slots|) && SlotsHeld(s) && InWindow(s, t) && SlotOf(s, t) < |s.slots|
    requires s'.consumed == s.consumed && s'.slots == s.slots[SlotOf(s, t) := Held(s', t)]
    requires forall u: nat :: InWindow(s, u) && u != t ==> Held(s', u) == Held(s, u)
    ensures SlotsHeld(s')
  {
    hide BitAnd, IsPow2, Held;
    forall u: nat | InWindow(s', u)
      ensures SlotAt(s', SlotOf(s', u)) == Held(s', u)
    {
      assert InWindow(s, u) && SlotOf(s', u) == SlotOf(s, u);
      if u != t {
        WindowSlots(s, u, t);
        assert SlotAt(s, SlotOf(s, u)) == Held(s, u);
      }
    }
  }

  /** With the intended guard, or with at most `size` tickets outstanding, a ticket past the guard is less
      than a round ahead. */
  predicate Guarded(guard: Guard, s: State) {
    guard.Intended? || Outstanding(s, |s.slots|)
  }

  // Where the producer of a ticket past the guard works, and what it finds there.
  lemma OwnSlot(s: State, t: nat)
    requires Inv(s) && InWindow(s, t)
    ensures SlotOf(s, t) < |s.slots| && s.slots[SlotOf(s, t)] == Held(s, t)
  {
    SlotInRange(s, t);
    assert SlotAt(s, SlotOf(s, t)) == Held(s, t);
  }

  // The next state when the producer of `t` reaches `stage` and leaves its slot as it should.
  lemma StageMoves(s: State, s': State, t: nat, stage: Stage)
    requires Inv(s) && InWindow(s, t) && t < |s.producers| && !s.producers[t].stage.Published? && stage != Claimed
    requires SlotOf(s, t) < |s.slots|
    requires var m := Move(s, t, stage); s' == m.(slots := s.slots[SlotOf(s, t) := Held(m, t)])
    ensures Inv(s')
  {
    hide BitAnd, IsPow2, SlotOf;
    assert Held(s', t) == Held(Move(s, t, stage), t);
    OneSlotMoves(s, s', t);
    assert SlotOf(s', s.consumed) == SlotOf(s, s.consumed) by {
      SlotOfSame(s, s', s.consumed);
    }
  }

  lemma SlotOfSame(s: State, s': State, t: nat)
    requires |s.slots| == |s'.slots|
    ensures SlotOf(s, t) == SlotOf(s', t)
  {
  }

  lemma ProducerStepKeeps(guard: Guard, s: State, step: Step)
    requires Inv(s) && Guarded(guard, s) && Enabled(guard, s, step)
    requires step.Pass? || step.Begin? || step.Finish? || step.Publish?
    ensures Inv(Next(s, step)) && Harmless(s, step)
  {
    hide BitAnd, IsPow2, SlotsHeld, LogFollowsTickets, SlotOf;
    var t := step.ticket;
    var s' := Next(s, step);
    assert InWindow(s, t);
    OwnSlot(s, t);
    var stage := match step case Pass(_) => Passed case Begin(_) => Constructing case Finish(_) => Constructed case _ => Published;
    StageMoves(s, s', t, stage);
  }

  lemma ClaimKeeps(s: State, entry: Entry)
    requires Inv(s)
    ensures Inv(Next(s, Claim(entry)))
  {
    hide BitAnd, IsPow2;
    var s' := Next(s, Claim(entry));
    forall t: nat | InWindow(s', t)
      ensures SlotAt(s', SlotOf(s', t)) == Held(s', t)
    {
      assert SlotAt(s, SlotOf(s, t)) == Held(s, t);
    }
  }

  lemma ConsumerStepKeeps(guard: Guard, s: State, step: Step)
    requires Inv(s) && Enabled(guard, s, step)
    requires step.Write? || step.Destroy? || step.Clear?
    ensures Inv(Next(s, step)) && Harmless(s, step)
  {
    hide BitAnd, IsPow2, SlotsHeld, SlotOf;
    var s' := Next(s, step);
    assert IsPow2(|s.slots|);
    SlotsThere(s);
    OwnSlot(s, s.consumed);
    SlotOfSame(s, s', s.consumed);
    assert SlotsHeld(s);
    OneSlotMoves(s, s', s.consumed);
  }

  lemma SlotsThere(s: State)
    requires IsPow2(|s.slots|)
    ensures InWindow(s, s.consumed)
  {
  }

  // The stored position stays the masked number of consumed tickets.
  lemma NextTail(s: State)
    requires IsPow2(|s.slots|)
    ensures SlotOf(s, SlotOf(s, s.consumed) + 1) == SlotOf(s, s.consumed + 1)
  {
    MaskIsModulo(s.consumed, |s.slots|);
    MaskIsModulo(s.consumed + 1, |s.slots|);
    MaskIsModulo(SlotOf(s, s.consumed) + 1, |s.slots|);
    NextSlot(s.consumed, |s.slots|);
  }

  lemma SameSlot(s: State)
    requires IsPow2(|s.slots|)
    ensures SlotOf(s, s.consumed + |s.slots|) == SlotOf(s, s.consumed)
  {
    MaskIsModulo(s.consumed, |s.slots|);
    MaskIsModulo(s.consumed + |s.slots|, |s.slots|);
    NextRound(s.consumed, |s.slots|);
  }

  lemma AdvanceKeeps(s: State)
    requires Inv(s) && s.consumer.Cleared?
    ensures Inv(Next(s, Advance))
  {
    hide BitAnd, IsPow2;
    var s' := Next(s, Advance);
    var n := |s.slots|;
    NextTail(s);
    forall t: nat | InWindow(s', t)
      ensures SlotAt(s', SlotOf(s', t)) == Held(s', t)
    {
      if t == s.consumed + n {
        SameSlot(s);
        assert SlotAt(s, SlotOf(s, s.consumed)) == Held(s, s.consumed);
      } else {
        assert SlotAt(s, SlotOf(s, t)) == Held(s, t);
      }
    }
  }

  /** Every step of every thread keeps the invariant and does no harm. */
  lemma StepKeeps(guard: Guard, s: State, step: Step)
    requires Inv(s) && Guarded(guard, s) && Enabled(guard, s, step)
    ensures Inv(Next(s, step)) && Harmless(s, step)
  {
    hide Inv, Next;
    match step
    case Claim(entry) => ClaimKeeps(s, entry);
    case Advance => AdvanceKeeps(s);
    case Write => ConsumerStepKeeps(guard, s, step);
    case Destroy => ConsumerStepKeeps(guard, s, step);
    case Clear => ConsumerStepKeeps(guard, s, step);
    case _ => ProducerStepKeeps(guard, s, step);
  }

  lemma InitInv(size: nat)
    requires IsPow2(size) && size < WORD
    ensures Inv(Init(size))
  {
    var s := Init(size);
    SlotInRange(s, 0);
    forall t: nat | InWindow(s, t)
      ensures SlotAt(s, SlotOf(s, t)) == Held(s, t)
    {
      SlotInRange(s, t);
    }
  }

  // ---- whole runs ----

  /** No two producers construct in one slot at the same time. */
  ghost predicate Exclusive(s: State) {
    forall t: nat, u: nat :: StageIs(s, t, Constructing) && StageIs(s, u, Constructing) && t != u ==> SlotOf(s, t) != SlotOf(s, u)
  }

  lemma InvExclusive(s: State)
    requires Inv(s)
    ensures Exclusive(s)
  {
    hide BitAnd, IsPow2, SlotOf, SlotsHeld;
    forall t: nat, u: nat | StageIs(s, t, Constructing) && StageIs(s, u, Constructing) && t != u
      ensures SlotOf(s, t) != SlotOf(s, u)
    {
      assert InWindow(s, t) && InWindow(s, u);
      WindowSlots(s, t, u);
    }
  }

  lemma {:induction false} RunKeeps(guard: Guard, s: State, steps: seq<Step>)
    requires Inv(s) && IsRun(guard, s, steps) && (guard.Intended? || OutstandingRun(s, steps, |s.slots|))
    ensures Inv(Exec(s, steps)) && HarmlessRun(s, steps)
    decreases |steps|
  {
    hide Inv, Enabled, Harmless;
    if steps != [] {
      assert |Next(s, steps[0]).slots| == |s.slots|;
      StepKeeps(guard, s, steps[0]);
      RunKeeps(guard, Next(s, steps[0]), steps[1..]);
    }
  }

  // ---- what was submitted ----

  /** The entries the producers submit, in the order in which they draw their tickets. */
  function ClaimedEntries(steps: seq<Step>): seq<Entry> {
    if steps == [] then []
    else (if steps[0].Claim? then [steps[0].entry] else []) + ClaimedEntries(steps[1..])
  }

  /** How often the consumer writes an entry out. */
  function WriteCount(steps: seq<Step>): nat {
    if steps == [] then 0 else (if steps[0].Write? then 1 else 0) + WriteCount(steps[1..])
  }

  function EntriesOf(s: State): (e: seq<Entry>)
    ensures |e| == |s.producers| && forall t :: 0 <= t < |e| ==> e[t] == s.producers[t].entry
  {
    seq(|s.producers|, t requires 0 <= t < |s.producers| => s.producers[t].entry)
  }

  // Only a claim brings in an entry, and no step changes one.
  lemma NextEntries(s: State, step: Step)
    ensures EntriesOf(Next(s, step)) == EntriesOf(s) + if step.Claim? then [step.entry] else []
    ensures |Next(s, step).log| == |s.log| + if step.Write? then 1 else 0
  {
    hide SlotOf;
  }

  lemma {:induction false} RunEntries(s: State, steps: seq<Step>)
    ensures EntriesOf(Exec(s, steps)) == EntriesOf(s) + ClaimedEntries(steps)
    ensures |Exec(s, steps).log| == |s.log| + WriteCount(steps)
    decreases |steps|
  {
    if steps != [] {
      hide Next, EntriesOf;
      NextEntries(s, steps[0]);
      RunEntries(Next(s, steps[0]), steps[1..]);
      assert EntriesOf(s) + ClaimedEntries(steps)
          == EntriesOf(s) + (if steps[0].Claim? then [steps[0].entry] else []) + ClaimedEntries(steps[1..]);
    }
  }

  /** Each write has put the next of the submitted entries into the log, whole: the log is the first of them, in
      order, each once. */
  predicate LogIsClaimed(log: seq<Cell>, steps: seq<Step>) {
    && |log| == WriteCount(steps) <= |ClaimedEntries(steps)|
    && forall i :: 0 <= i < |log| ==> log[i] == Full(ClaimedEntries(steps)[i])
  }

  lemma FollowsIsClaimed(size: nat, steps: seq<Step>)
    requires LogFollowsTickets(Exec(Init(size), steps))
    ensures LogIsClaimed(Exec(Init(size), steps).log, steps)
  {
    hide Exec, ClaimedEntries, WriteCount, EntriesOf;
    RunEntries(Init(size), steps);
    assert EntriesOf(Init(size)) == [];
    assert EntriesOf(Exec(Init(size), steps)) == ClaimedEntries(steps);
  }

  /** Nobody did harm, nobody shares a slot, and the log is the submitted entries in ticket order. */
  ghost predicate SafeRun(size: nat, steps: seq<Step>) {
    && HarmlessRun(Init(size), steps) && Exclusive(Exec(Init(size), steps))
    && LogIsClaimed(Exec(Init(size), steps).log, steps)
  }

  lemma InvIsSafe(size: nat, steps: seq<Step>)
    requires HarmlessRun(Init(size), steps) && Inv(Exec(Init(size), steps))
    ensures SafeRun(size, steps)
  {
    hide HarmlessRun, LogFollowsTickets, Exclusive, Exec, LogIsClaimed, Inv;
    InvExclusive(Exec(Init(size), steps));
    InvLog(Exec(Init(size), steps));
    FollowsIsClaimed(size, steps);
  }

  /** With the intended guard, in every interleaving of any number of producers and the consumer: nobody
      constructs over an entry or over another producer, and the log is what the first tickets' producers
      submitted, in ticket order, each once and whole. */
  lemma IntendedIsSafe(size: nat, steps: seq<Step>)
    requires IsPow2(size) && size < WORD
    requires IsRun(Intended, Init(size), steps)
    ensures SafeRun(size, steps)
  {
    hide IsRun, HarmlessRun, Inv, SafeRun, Exec;
    InitInv(size);
    RunKeeps(Intended, Init(size), steps);
    InvIsSafe(size, steps);
  }

  lemma InvLog(s: State)
    requires Inv(s)
    ensures LogFollowsTickets(s)
  {
  }

  function Claims(n: nat): seq<Step> {
    if n == 0 then [] else [Claim("")] + Claims(n - 1)
  }

  function Loaded(s: State, n: nat): State
    decreases n
  {
    if n == 0 then s else Loaded(Next(s, Claim("")), n - 1)
  }

  // One step off the front of a run.
  lemma Unroll(s: State, step: Step, rest: seq<Step>, bound: nat)
    ensures IsRun(AsWritten, s, [step] + rest) <==> Enabled(AsWritten, s, step) && IsRun(AsWritten, Next(s, step), rest)
    ensures HarmlessRun(s, [step] + rest) <==> Harmless(s, step) && HarmlessRun(Next(s, step), rest)
    ensures OutstandingRun(s, [step] + rest, bound) <==> Outstanding(s, bound) && OutstandingRun(Next(s, step), rest, bound)
  {
    hide Enabled, Next, Harmless;
    assert ([step] + rest)[0] == step && ([step] + rest)[1..] == rest;
  }

  lemma {:induction false} AfterClaims(s: State, n: nat, rest: seq<Step>, bound: nat)
    requires |s.producers| + n <= s.consumed + bound
    ensures IsRun(AsWritten, s, Claims(n) + rest) <==> IsRun(AsWritten, Loaded(s, n), rest)
    ensures HarmlessRun(s, Claims(n) + rest) <==> HarmlessRun(Loaded(s, n), rest)
    ensures OutstandingRun(s, Claims(n) + rest, bound) <==> OutstandingRun(Loaded(s, n), rest, bound)
    decreases n
  {
    hide IsRun, HarmlessRun, OutstandingRun;
    if n == 0 {
      assert Claims(0) + rest == rest;
    } else {
      assert Claims(n) + rest == [Claim("")] + (Claims(n - 1) + rest);
      Unroll(s, Claim(""), Claims(n - 1) + rest, bound);
      AfterClaims(Next(s, Claim("")), n - 1, rest, bound);
    }
  }

  lemma {:induction false} LoadedIs(s: State, n: nat)
    ensures Loaded(s, n) == s.(producers := s.producers + seq(n, _ => Producer("", Claimed)))
    decreases n
  {
    if n == 0 {
      assert s.producers + seq(0, _ => Producer("", Claimed)) == s.producers;
    } else {
      LoadedIs(Next(s, Claim("")), n - 1);
      assert s.producers + [Producer("", Claimed)] + seq(n - 1, _ => Producer("", Claimed))
          == s.producers + seq(n, _ => Producer("", Claimed));
    }
  }

  /** One ticket more than there are slots, and the guard as written lets the first and the last of them
      construct in the same slot. */
  function Overrun(size: nat): seq<Step> {
    Claims(size + 1) + [Pass(0), Begin(0), Pass(size), Begin(size)]
  }

  // From a state in which the first ticket and the one a round later are drawn, and nothing is consumed.
  lemma BothPass(s: State, size: nat)
    requires IsPow2(size) && size < WORD && |s.slots| == size && s.tail == 0
    requires StageIs(s, 0, Claimed) && StageIs(s, size, Claimed)
    ensures Enabled(AsWritten, s, Pass(0))
    ensures var s1 := Next(s, Pass(0)); var s2 := Next(s1, Begin(0)); var s3 := Next(s2, Pass(size));
      && Enabled(AsWritten, s1, Begin(0)) && Enabled(AsWritten, s2, Pass(size)) && Enabled(AsWritten, s3, Begin(size))
      && !Harmless(s3, Begin(size))
      && |s1.producers| == |s2.producers| == |s3.producers| == |s.producers|
      && s1.consumed == s2.consumed == s3.consumed == s.consumed == Next(s3, Begin(size)).consumed
      && |Next(s3, Begin(size)).producers| == |s.producers|
  {
    hide BitAnd, IsPow2;
    FirstSlot(s);
  }

  lemma OverrunHarms(size: nat, n: nat)
    requires IsPow2(size) && size < WORD && n > size
    ensures IsRun(AsWritten, Init(size), Overrun(size)) && OutstandingRun(Init(size), Overrun(size), n)
    ensures !HarmlessRun(Init(size), Overrun(size))
  {
    hide BitAnd, IsPow2, Claims, IsRun, HarmlessRun, OutstandingRun, Enabled, Next, Harmless;
    var last := [Begin(size)] + [];
    assert [Pass(0), Begin(0), Pass(size), Begin(size)] == [Pass(0)] + ([Begin(0)] + ([Pass(size)] + last));
    var s0 := Loaded(Init(size), size + 1);
    AfterClaims(Init(size), size + 1, [Pass(0)] + ([Begin(0)] + ([Pass(size)] + last)), n);
    LoadedIs(Init(size), size + 1);
    BothPass(s0, size);
    var s1 := Next(s0, Pass(0));
    var s2 := Next(s1, Begin(0));
    var s3 := Next(s2, Pass(size));
    Unroll(s0, Pass(0), [Begin(0)] + ([Pass(size)] + last), n);
    Unroll(s1, Begin(0), [Pass(size)] + last, n);
    Unroll(s2, Pass(size), last, n);
    Unroll(s3, Begin(size), [], n);
    NothingLeft(Next(s3, Begin(size)), n);
  }

  lemma NothingLeft(s: State, n: nat)
    ensures IsRun(AsWritten, s, []) && (OutstandingRun(s, [], n) <==> Outstanding(s, n))
  {
  }

  // The first ticket and the one a round later share the first slot.
  lemma FirstSlot(s: State)
    requires IsPow2(|s.slots|)
    ensures |s.slots| > 0 && BitAnd(0, |s.slots| - 1) == 0 && BitAnd(|s.slots|, |s.slots| - 1) == 0
  {
    MaskIsModulo(0, |s.slots|);
    MaskIsModulo(|s.slots|, |s.slots|);
    NextRound(0, |s.slots|);
  }

  /** The guard as written makes all runs with at most `n` tickets outstanding safe exactly when there are
      `n` slots: it does not itself hold anyone back who is a round ahead. */
  lemma AsWrittenSafeIff(size: nat, n: nat)
    requires IsPow2(size) && size < WORD
    ensures n <= size <==>
      forall steps :: IsRun(AsWritten, Init(size), steps) && OutstandingRun(Init(size), steps, n) ==> SafeRun(size, steps)
  {
    hide IsRun, OutstandingRun, HarmlessRun, Exclusive, LogIsClaimed;
    if n <= size {
      forall steps | IsRun(AsWritten, Init(size), steps) && OutstandingRun(Init(size), steps, n)
        ensures SafeRun(size, steps)
      {
        InitInv(size);
        FewerOutstanding(Init(size), steps, n, size);
        RunKeeps(AsWritten, Init(size), steps);
        InvIsSafe(size, steps);
      }
    } else {
      OverrunHarms(size, n);
    }
  }

  lemma {:induction false} FewerOutstanding(s: State, steps: seq<Step>, n: nat, m: nat)
    requires OutstandingRun(s, steps, n) && n <= m
    ensures OutstandingRun(s, steps, m)
    decreases |steps|
  {
    if steps != [] {
      FewerOutstanding(Next(s, steps[0]), steps[1..], n, m);
    }
  }

  /** Where the two guards differ. The one as written also holds back a ticket whose slot is free, as soon as the
      ticket is in the next round of the buffer; and it lets through one a round or more ahead, unless that has a slot
      in front of the tail. */
  lemma GuardsDiffer(s: State, t: nat)
    requires IsPow2(|s.slots|) && |s.slots| < WORD && s.tail == SlotOf(s, s.consumed) && s.consumed <= t
    ensures var n, written, intended := |s.slots|, GuardPasses(AsWritten, s, t), GuardPasses(Intended, s, t);
      && n > 0
      && (intended && !written <==> InWindow(s, t) && t / n != s.consumed / n)
      && (written && !intended <==> !InWindow(s, t) && t % n >= s.consumed % n)
  {
    hide BitAnd, IsPow2;
    var n := |s.slots|;
    SlotInRange(s, t);
    SlotInRange(s, s.consumed);
    MaskIsModulo(t, n);
    MaskIsModulo(s.consumed, n);
    WordIsPow2();
    AtMostHalf(n, 64);
    MaskedDifference(SlotOf(s, t), s.tail, n);
    if InWindow(s, t) {
      WithinARound(s.consumed, t, n);
    }
  }

  lemma WordIsPow2()
    ensures WORD == Pow2(64)
  {
    hide Pow2;
    Pow2One();
    Pow2Sum(1, 1);
    Pow2Sum(2, 2);
    Pow2Sum(4, 4);
    Pow2Sum(8, 8);
    Pow2Sum(16, 16);
    Pow2Sum(32, 32);
  }

  lemma MaskedDifference(a: nat, b: nat, n: nat)
    requires a < n && b < n && 2 * n <= WORD
    ensures (a - b) % WORD < n <==> a >= b
  {
    assert (a - b) % WORD == if a >= b then a - b else WORD + a - b;
  }

  /** Two slots, one entry consumed: the third ticket's slot is free, and the guard as written holds it back. */
  lemma HeldBackExample(entry: Entry)
    ensures var p, raw := Producer(entry, Published), Slot(Raw, false);
      var s := State([raw, raw], [p, Producer(entry, Claimed), Producer(entry, Claimed)], 1, Waiting, 1, [Full(entry)]);
      GuardPasses(Intended, s, 2) && !GuardPasses(AsWritten, s, 2)
  {
    var p, raw := Producer(entry, Published), Slot(Raw, false);
    var s := State([raw, raw], [p, Producer(entry, Claimed), Producer(entry, Claimed)], 1, Waiting, 1, [Full(entry)]);
    assert 2 == Pow2(1);
    assert SlotOf(s, 1) == 1;
    GuardsDiffer(s, 2);
  }

  // ---- progress ----

  /** What the oldest unconsumed ticket waits for: a step of its producer, or one of the consumer. */
  function Awaited(s: State): Step {
    match s.consumer
    case Written => Destroy
    case Destroyed => Clear
    case Cleared => Advance
    case Waiting =>
      if s.consumed >= |s.producers| then Write
      else
        match s.producers[s.consumed].stage
        case Claimed => Pass(s.consumed)
        case Passed => Begin(s.consumed)
        case Constructing => Finish(s.consumed)
        case Constructed => Publish(s.consumed)
        case Published => Write
  }

  /** No deadlock: while a ticket is not consumed, the producer of the oldest one is not held by the guard,
      or the consumer can step. It holds of both guards. */
  lemma NeverStuck(guard: Guard, s: State)
    requires Inv(s) && s.consumed < |s.producers|
    ensures Enabled(guard, s, Awaited(s))
  {
    hide BitAnd, IsPow2, SlotOf;
    SlotsThere(s);
    OwnSlot(s, s.consumed);
  }

  // The way the oldest ticket still has to go.
  function StepsLeft(s: State): nat {
    match s.consumer
    case Written => 3
    case Destroyed => 2
    case Cleared => 1
    case Waiting =>
      if s.consumed >= |s.producers| then 0
      else
        match s.producers[s.consumed].stage
        case Claimed => 8
        case Passed => 7
        case Constructing => 6
        case Constructed => 5
        case Published => 4
  }

  lemma MoveMoves(s: State, i: nat, slot: Slot, t: nat, stage: Stage)
    requires t < |s.producers|
    ensures var s' := Move(Put(s, i, slot), t, stage);
      && |s'.producers| == |s.producers| && |s'.slots| == |s.slots| && s'.consumer == s.consumer && s'.consumed == s.consumed
      && s'.producers[t].stage == stage
      && (forall u :: 0 <= u < |s.producers| ==> s'.producers[u].entry == s.producers[u].entry)
  {
  }

  // The producer's turn.
  lemma ProducerAdvances(s: State, t: nat)
    requires t == s.consumed < |s.producers| && s.consumer.Waiting? && !s.producers[t].stage.Published?
    ensures var s' := Next(s, Awaited(s));
      && |s'.producers| == |s.producers| && |s'.slots| == |s.slots|
      && (forall u :: 0 <= u < |s.producers| ==> s'.producers[u].entry == s.producers[u].entry)
      && s'.consumed == s.consumed && StepsLeft(s') < StepsLeft(s)
  {
    hide SlotOf, Move, Put, SlotAt;
    var i := SlotOf(s, t);
    match s.producers[t].stage
    case Claimed => PassMoves(s, t);
    case Passed => MoveMoves(s, i, SlotAt(s, i).(cell := Partial(t)), t, Constructing);
    case Constructing => MoveMoves(s, i, SlotAt(s, i).(cell := Full(s.producers[t].entry)), t, Constructed);
    case Constructed => MoveMoves(s, i, SlotAt(s, i).(isConstructed := true), t, Published);
  }

  lemma PassMoves(s: State, t: nat)
    requires t < |s.producers|
    ensures var s' := Move(s, t, Passed);
      && |s'.producers| == |s.producers| && |s'.slots| == |s.slots| && s'.consumer == s.consumer && s'.consumed == s.consumed
      && s'.producers[t].stage == Passed
      && (forall u :: 0 <= u < |s.producers| ==> s'.producers[u].entry == s.producers[u].entry)
  {
  }

  lemma AwaitedAdvances(s: State)
    requires s.consumed < |s.producers| && (!s.consumer.Waiting? ==> StageIs(s, s.consumed, Published))
    ensures var s' := Next(s, Awaited(s));
      && |s'.producers| == |s.producers| && |s'.slots| == |s.slots|
      && (forall t :: 0 <= t < |s.producers| ==> s'.producers[t].entry == s.producers[t].entry)
      && (s'.consumed == s.consumed + 1 || (s'.consumed == s.consumed && StepsLeft(s') < StepsLeft(s)))
  {
    hide SlotOf, Move;
    if s.consumer.Waiting? && !s.producers[s.consumed].stage.Published? {
      ProducerAdvances(s, s.consumed);
    }
  }

  // Left alone, producers and consumer come to the end of all drawn tickets.
  lemma {:induction false} DrainFrom(guard: Guard, s: State) returns (steps: seq<Step>)
    requires Inv(s) && Guarded(guard, s)
    ensures IsRun(guard, s, steps) && (forall i :: 0 <= i < |steps| ==> !steps[i].Claim?)
    ensures Inv(Exec(s, steps)) && |Exec(s, steps).producers| == |s.producers| == Exec(s, steps).consumed
    decreases |s.producers| - s.consumed, StepsLeft(s)
  {
    if s.consumed == |s.producers| {
      steps := [];
    } else {
      NeverStuck(guard, s);
      StepKeeps(guard, s, Awaited(s));
      AwaitedAdvances(s);
      var more := DrainFrom(guard, Next(s, Awaited(s)));
      steps := [Awaited(s)] + more;
      assert steps[1..] == more;
    }
  }

  lemma {:induction false} RunAppend(guard: Guard, s: State, steps: seq<Step>, more: seq<Step>)
    requires IsRun(guard, s, steps) && IsRun(guard, Exec(s, steps), more)
    ensures IsRun(guard, s, steps + more) && Exec(s, steps + more) == Exec(Exec(s, steps), more)
    decreases |steps|
  {
    if steps == [] {
      assert steps + more == more;
    } else {
      hide Enabled, Next;
      assert (steps + more)[0] == steps[0] && (steps + more)[1..] == steps[1..] + more;
      RunAppend(guard, Next(s, steps[0]), steps[1..], more);
    }
  }

  lemma {:induction false} ClaimedAppend(steps: seq<Step>, more: seq<Step>)
    requires forall i :: 0 <= i < |more| ==> !more[i].Claim?
    ensures ClaimedEntries(steps + more) == ClaimedEntries(steps)
    decreases |steps| + |more|
  {
    if steps != [] {
      assert (steps + more)[0] == steps[0] && (steps + more)[1..] == steps[1..] + more;
      ClaimedAppend(steps[1..], more);
    } else if more != [] {
      assert steps + more == more && [] + more[1..] == more[1..];
      ClaimedAppend([], more[1..]);
    } else {
      assert steps + more == [];
    }
  }

  lemma {:induction false} LastOutstanding(s: State, steps: seq<Step>, n: nat)
    requires OutstandingRun(s, steps, n)
    ensures Outstanding(Exec(s, steps), n)
    decreases |steps|
  {
    if steps != [] {
      LastOutstanding(Next(s, steps[0]), steps[1..], n);
    }
  }

  /** Left alone, producers and consumer bring everything submitted into the log: any run goes on, without new
      tickets, to a state whose log is all the submitted entries in order. */
  lemma Drain(guard: Guard, size: nat, steps: seq<Step>) returns (more: seq<Step>)
    requires IsPow2(size) && size < WORD
    requires IsRun(guard, Init(size), steps) && (guard.Intended? || OutstandingRun(Init(size), steps, size))
    ensures IsRun(guard, Init(size), steps + more) && (forall i :: 0 <= i < |more| ==> !more[i].Claim?)
    ensures var log, entries := Exec(Init(size), steps + more).log, ClaimedEntries(steps);
      |log| == |entries| && forall i :: 0 <= i < |log| ==> log[i] == Full(entries[i])
  {
    hide IsRun, OutstandingRun, HarmlessRun, Inv, Exec, ClaimedEntries, WriteCount;
    var s := Exec(Init(size), steps);
    InitInv(size);
    RunKeeps(guard, Init(size), steps);
    if guard.AsWritten? {
      LastOutstanding(Init(size), steps, size);
    }
    SameSlots(Init(size), steps);
    more := DrainFrom(guard, s);
    RunAppend(guard, Init(size), steps, more);
    ClaimedAppend(steps, more);
    InvLog(Exec(s, more));
    FollowsIsClaimed(size, steps + more);
    RunEntries(Init(size), steps + more);
  }

  lemma {:induction false} SameSlots(s: State, steps: seq<Step>)
    ensures |Exec(s, steps).slots| == |s.slots|
    decreases |steps|
  {
    if steps != [] {
      SameSlots(Next(s, steps[0]), steps[1..]);
    }
  }
}
