/**
 The key-event ring buffer (src/queue.c, include/queue.h) with one pusher and one popper
 that run at the same time. Every shared read or write is a step of its own; a run is any
 interleaving of the steps of the two.
 */
module KeyQueue {

  const SLOTS: nat := 32

  /** A slot index brought back into the ring. */
  function Wrap(x: nat): nat { if x < SLOTS then x else x - SLOTS }

  /** The increment as written. */
  function Next(slot: nat): nat { (slot + 1) % SLOTS }

  lemma NextIsWrap(slot: nat)
    requires slot < SLOTS
    ensures Next(slot) == Wrap(slot + 1)
  {
  }

  /** Where key_push is: what it has read and what it has made sure of. */
  datatype Pusher =
    | Idle
    | Checking(value: int, head: nat)
    | Room(value: int)
    | Storing(value: int, head: nat)
    | Stored(value: int)
    | Publishing(value: int, head: nat)

  /** Where key_pop is; it starts over while it finds the queue empty. */
  datatype Popper =
    | Waiting
    | Comparing(head: nat)
    | Nonempty
    | Loading(tail: nat)
    | Loaded(value: int)
    | Releasing(value: int, tail: nat)

  /** The ring, both threads, and what has happened so far. */
  datatype State = State(q: seq<int>, head: nat, tail: nat, pusher: Pusher, popper: Popper,
                         accepted: seq<int>, dropped: seq<int>, popped: seq<int>)

  function Start(): State { State(seq(SLOTS, _ => 0), 0, 0, Idle, Waiting, [], [], []) }

  // ----- the steps -----

  /** One step of key_push, which is called with `value` when it is not running. */
  function PushStep(s: State, value: int): State
    requires |s.q| == SLOTS
  {
    match s.pusher
    case Idle => s.(pusher := Checking(value, s.head))
    case Checking(v, head) =>
      if Next(head) == s.tail then s.(pusher := Idle, dropped := s.dropped + [v]) else s.(pusher := Room(v))
    case Room(v) => s.(pusher := Storing(v, s.head))
    case Storing(v, head) => if head < SLOTS then s.(q := s.q[head := v], pusher := Stored(v)) else s
    case Stored(v) => s.(pusher := Publishing(v, s.head))
    case Publishing(v, head) => s.(head := Next(head), pusher := Idle, accepted := s.accepted + [v])
  }

  /** One step of key_pop. */
  function PopStep(s: State): State
    requires |s.q| == SLOTS
  {
    match s.popper
    case Waiting => s.(popper := Comparing(s.head))
    case Comparing(head) => if head == s.tail then s.(popper := Waiting) else s.(popper := Nonempty)
    case Nonempty => s.(popper := Loading(s.tail))
    case Loading(tail) => if tail < SLOTS then s.(popper := Loaded(s.q[tail])) else s
    case Loaded(v) => s.(popper := Releasing(v, s.tail))
    case Releasing(v, tail) => s.(tail := Next(tail), popper := Waiting, popped := s.popped + [v])
  }

  // ----- the invariant -----

  /** The number of keys queued. */
  function Queued(s: State): int { |s.accepted| - |s.popped| }

  /** How far `head` is ahead of `tail` in the ring. */
  function Ahead(tail: nat, head: nat): int { if tail <= head then head - tail else head - tail + SLOTS }

  /** The slot of the accepted key with index `i`. */
  function SlotOf(s: State, i: int): (r: nat)
    requires |s.popped| <= i <= |s.popped| + SLOTS && s.tail < SLOTS
    ensures r <= SLOTS && (i < |s.popped| + SLOTS ==> r < SLOTS)
  {
    Wrap(s.tail + (i - |s.popped|))
  }

  /** The ring holds the accepted keys not yet popped, at most 31 of them, in order. */
  ghost predicate Ring(s: State) {
    && |s.q| == SLOTS && s.tail < SLOTS && 0 <= Queued(s) < SLOTS
    && s.popped == s.accepted[..|s.popped|] && s.head == Wrap(s.tail + Queued(s))
    && forall i | |s.popped| <= i < |s.accepted| :: s.accepted[i] == s.q[SlotOf(s, i)]
  }

  /** What the pusher has read still holds: only it moves the head, and the tail only moves
      away. */
  ghost predicate PusherOk(s: State)
    requires |s.q| == SLOTS
  {
    match s.pusher
    case Idle => true
    case Checking(v, head) => head == s.head
    case Room(v) => Queued(s) < SLOTS - 1
    case Storing(v, head) => Queued(s) < SLOTS - 1 && head == s.head
    case Stored(v) => Queued(s) < SLOTS - 1 && s.head < SLOTS && s.q[s.head] == v
    case Publishing(v, head) => Queued(s) < SLOTS - 1 && head == s.head < SLOTS && s.q[head] == v
  }

  /** What the popper has read still holds: only it moves the tail, and the head only moves
      away. */
  ghost predicate PopperOk(s: State)
    requires |s.q| == SLOTS
  {
    match s.popper
    case Waiting => true
    case Comparing(head) => head < SLOTS && Ahead(s.tail, head) <= Queued(s)
    case Nonempty => Queued(s) > 0
    case Loading(tail) => Queued(s) > 0 && tail == s.tail
    case Loaded(v) => Queued(s) > 0 && v == s.accepted[|s.popped|]
    case Releasing(v, tail) => Queued(s) > 0 && v == s.accepted[|s.popped|] && tail == s.tail
  }

  ghost predicate Inv(s: State) { Ring(s) && PusherOk(s) && PopperOk(s) }

  lemma PushKeeps(s: State, value: int)
    requires Inv(s)
    ensures Inv(PushStep(s, value))
  {
    match s.pusher
    case Publishing(v, head) => PublishKeeps(s, v);
    case Storing(v, head) => StoreKeeps(s, v);
    case Checking(v, head) => NextIsWrap(head);
    case _ =>
  }

  lemma StoreKeeps(s: State, v: int)
    requires Inv(s) && s.pusher == Storing(v, s.head)
    ensures Inv(PushStep(s, 0))
  {
  }

  lemma PublishKeeps(s: State, v: int)
    requires Inv(s) && s.pusher == Publishing(v, s.head)
    ensures Inv(PushStep(s, 0))
  {
    NextIsWrap(s.head);
  }

  lemma PopKeeps(s: State)
    requires Inv(s)
    ensures Inv(PopStep(s))
  {
    match s.popper
    case Releasing(v, tail) => ReleaseKeeps(s, v);
    case _ =>
  }

  lemma ReleaseKeeps(s: State, v: int)
    requires Inv(s) && s.popper == Releasing(v, s.tail)
    ensures Inv(PopStep(s))
  {
    NextIsWrap(s.tail);
  }

  // ----- runs -----

  /** Whose step is next; the value is that of the call a resting pusher is given. */
  datatype Turn = Push(value: int) | Pop

  function Step(s: State, turn: Turn): State
    requires |s.q| == SLOTS
  {
    if turn.Push? then PushStep(s, turn.value) else PopStep(s)
  }

  lemma StepKeeps(s: State, turn: Turn)
    requires Inv(s)
    ensures Inv(Step(s, turn))
  {
    if turn.Push? { PushKeeps(s, turn.value); } else { PopKeeps(s); }
  }

  /** The state after an interleaving of steps. */
  function Run(turns: seq<Turn>): (s: State)
    ensures |s.q| == SLOTS
  {
    if turns == [] then Start() else Step(Run(turns[..|turns| - 1]), turns[|turns| - 1])
  }

  lemma {:induction false} RunKeeps(turns: seq<Turn>)
    ensures Inv(Run(turns))
  {
    if turns != [] {
      var n := |turns| - 1;
      RunKeeps(turns[..n]);
      StepKeeps(Run(turns[..n]), turns[n]);
    }
  }

  /** In every run what has been popped is the beginning of what was accepted, in order, and
      at most 31 keys are queued. */
  lemma RunSafe(turns: seq<Turn>)
    ensures var s := Run(turns); |s.popped| <= |s.accepted| <= |s.popped| + 31 && s.popped == s.accepted[..|s.popped|]
  {
    RunKeeps(turns);
  }

  /** In every run the slot about to be written is not the one about to be read, and both
      are slots of the ring. */
  lemma RunSlotsApart(turns: seq<Turn>)
    ensures var s := Run(turns);
      && (s.pusher.Storing? ==> s.pusher.head < SLOTS) && (s.popper.Loading? ==> s.popper.tail < SLOTS)
      && (s.pusher.Storing? && s.popper.Loading? ==> s.pusher.head != s.popper.tail)
  {
    RunKeeps(turns);
  }

  // ----- each call takes effect at one step -----

  datatype Effect = Nothing | Accepts(value: int) | Drops(value: int) | Takes(value: int)

  function EffectOf(s: State, turn: Turn): Effect {
    if turn.Push? then
      match s.pusher
      case Checking(v, head) => if Next(head) == s.tail then Drops(v) else Nothing
      case Publishing(v, _) => Accepts(v)
      case _ => Nothing
    else
      match s.popper
      case Releasing(v, _) => Takes(v)
      case _ => Nothing
  }

  /** The keys in the queue. */
  ghost function Contents(s: State): seq<int>
    requires |s.popped| <= |s.accepted|
  {
    s.accepted[|s.popped|..]
  }

  /** What an effect means for a queue that holds at most 31 keys. */
  ghost predicate Fifo(before: seq<int>, effect: Effect, after: seq<int>) {
    match effect
    case Nothing => after == before
    case Accepts(v) => |before| < 31 && after == before + [v]
    case Drops(v) => |before| == 31 && after == before
    case Takes(v) => before != [] && v == before[0] && after == before[1..]
  }

  /** Every step is one of a bounded first-in-first-out queue: a key is dropped only at an
      instant at which exactly 31 are queued. */
  lemma StepIsFifo(turns: seq<Turn>, turn: Turn)
    ensures var s, s1 := Run(turns), Run(turns + [turn]);
      && |s.popped| <= |s.accepted| && |s1.popped| <= |s1.accepted|
      && Fifo(Contents(s), EffectOf(s, turn), Contents(s1))
      && s1.accepted == s.accepted + (if EffectOf(s, turn).Accepts? then [EffectOf(s, turn).value] else [])
      && s1.dropped == s.dropped + (if EffectOf(s, turn).Drops? then [EffectOf(s, turn).value] else [])
      && s1.popped == s.popped + (if EffectOf(s, turn).Takes? then [EffectOf(s, turn).value] else [])
  {
    RunKeeps(turns);
    var s := Run(turns);
    var s1 := Step(s, turn);
    assert (turns + [turn])[..|turns|] == turns;
    FifoStep(s, turn, s1);
  }

  lemma FifoStep(s: State, turn: Turn, s1: State)
    requires Inv(s) && s1 == Step(s, turn)
    ensures |s1.popped| <= |s1.accepted| && Fifo(Contents(s), EffectOf(s, turn), Contents(s1))
  {
    if turn.Push? { FifoPush(s, turn.value, s1); } else { FifoPop(s, s1); }
  }

  lemma FifoPush(s: State, value: int, s1: State)
    requires Inv(s) && s1 == PushStep(s, value)
    ensures |s1.popped| <= |s1.accepted| && Fifo(Contents(s), EffectOf(s, Push(value)), Contents(s1))
  {
    hide PopperOk;
    if s.pusher.Checking? { NextIsWrap(s.pusher.head); }
  }

  lemma FifoPop(s: State, s1: State)
    requires Inv(s) && s1 == PopStep(s)
    ensures |s1.popped| <= |s1.accepted| && Fifo(Contents(s), EffectOf(s, Pop), Contents(s1))
  {
    hide PusherOk, SlotOf;
  }

  /** A popper that looks while a key is queued finds it. */
  lemma PopperSees(s: State)
    requires Inv(s) && s.popper.Waiting? && Contents(s) != []
    ensures PopStep(PopStep(s)).popper == Nonempty
  {
  }

  // ----- the ring in memory -----

  class KeyEvents {
    const q: array<int>
    var head: nat
    var tail: nat
    var pusher: Pusher
    var popper: Popper
    ghost var accepted: seq<int>
    ghost var dropped: seq<int>
    ghost var popped: seq<int>

    ghost function Now(): State
      reads this, q
    {
      State(q[..], head, tail, pusher, popper, accepted, dropped, popped)
    }

    constructor ()
      ensures Now() == Start() && Inv(Now()) && fresh(q)
    {
      q := new int[SLOTS](_ => 0);
      head, tail, pusher, popper, accepted, dropped, popped := 0, 0, Idle, Waiting, [], [], [];
    }

    /** key_push, one shared access. */
    method StepPush(value: int)
      requires Inv(Now())
      modifies this`head, this`pusher, this`accepted, this`dropped, q
      ensures Now() == PushStep(old(Now()), value) && Inv(Now())
    {
      PushKeeps(Now(), value);
      match pusher
      case Idle => pusher := Checking(value, head);
      case Checking(v, h) =>
        if Next(h) == tail {
          pusher, dropped := Idle, dropped + [v];
        } else {
          pusher := Room(v);
        }
      case Room(v) => pusher := Storing(v, head);
      case Storing(v, h) =>
        q[h] := v;
        pusher := Stored(v);
      case Stored(v) => pusher := Publishing(v, head);
      case Publishing(v, h) => head, pusher, accepted := Next(h), Idle, accepted + [v];
    }

    /** key_pop, one shared access. */
    method StepPop()
      requires Inv(Now())
      modifies this`tail, this`popper, this`popped
      ensures Now() == PopStep(old(Now())) && Inv(Now())
    {
      PopKeeps(Now());
      match popper
      case Waiting => popper := Comparing(head);
      case Comparing(h) => popper := if h == tail then Waiting else Nonempty;
      case Nonempty => popper := Loading(tail);
      case Loading(t) => popper := Loaded(q[t]);
      case Loaded(v) => popper := Releasing(v, tail);
      case Releasing(v, t) => tail, popper, popped := Next(t), Waiting, popped + [v];
    }

    /** key_push with nobody else running: the key is queued, or dropped when 31 are. */
    method KeyPush(value: int)
      requires Inv(Now()) && pusher == Idle
      modifies this`head, this`pusher, this`accepted, this`dropped, q
      ensures Inv(Now()) && pusher == Idle && tail == old(tail) && popped == old(popped)
      ensures |old(Contents(Now()))| == 31 ==> accepted == old(accepted) && dropped == old(dropped) + [value]
      ensures |old(Contents(Now()))| < 31 ==> accepted == old(accepted) + [value] && dropped == old(dropped)
    {
      StepPush(value);
      NextIsWrap(pusher.head);
      StepPush(value);
      if pusher == Idle { return; }
      StepPush(value);
      StepPush(value);
      StepPush(value);
      StepPush(value);
    }

    /** key_pop with a key queued and nobody else running: the key queued first. */
    method KeyPop() returns (value: int)
      requires Inv(Now()) && popper == Waiting && Contents(Now()) != []
      modifies this`tail, this`popper, this`popped
      ensures Inv(Now()) && popper == Waiting && value == old(Contents(Now()))[0] && popped == old(popped) + [value]
    {
      PopperSees(Now());
      StepPop();
      StepPop();
      StepPop();
      StepPop();
      value := popper.value;
      StepPop();
      StepPop();
    }
  }
}
