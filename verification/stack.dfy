/** The return-address stack: sixteen 16-bit slots and a stack pointer.

    `Push` on a full stack and `Pop` on an empty one are fatal, so they are
    faults here. Popping does not erase the slot it reads.
 */
module Stacks {
  import opened Bits
  import opened Faults

  /** The number of slots. */
  const StackSize: nat := 16

  type Slots = s: seq<u16> | |s| == StackSize witness seq(16, _ => 0)

  /** The stack pointer counts the occupied slots. */
  type StackPointer = n: nat | n <= StackSize

  datatype Stack = Stack(sp: StackPointer, addresses: Slots)

  /** A popped address together with the stack after the pop. */
  datatype Popped = Popped(value: u16, rest: Stack)

  /** An empty stack with every slot zero. */
  function Clear(s: Stack): (r: Stack)
    ensures r.sp == 0
    ensures forall i :: 0 <= i < StackSize ==> r.addresses[i] == 0
  {
    Stack(0, seq(StackSize, _ => 0))
  }

  /** `value` stored in the first free slot, or a fault when there is none. */
  function Push(s: Stack, value: u16): (r: Result<Stack>)
    ensures r.Err? <==> s.sp >= StackSize
    ensures r.Err? ==> r.fault == StackOverflow
    ensures r.Ok? ==> r.value.sp == s.sp + 1 && r.value.addresses[s.sp] == value
    ensures r.Ok? ==> forall i :: 0 <= i < StackSize && i != s.sp ==> r.value.addresses[i] == s.addresses[i]
  {
    if s.sp >= StackSize then Err(StackOverflow)
    else Ok(Stack(s.sp + 1, s.addresses[s.sp := value]))
  }

  /** The most recently pushed address, or a fault when the stack is empty. */
  function Pop(s: Stack): (r: Result<Popped>)
    ensures r.Err? <==> s.sp == 0
    ensures r.Err? ==> r.fault == StackUnderflow
    ensures r.Ok? ==> r.value.rest.sp == s.sp - 1 && r.value.value == s.addresses[s.sp - 1]
    ensures r.Ok? ==> r.value.rest.addresses == s.addresses
  {
    if s.sp == 0 then Err(StackUnderflow)
    else Ok(Popped(s.addresses[s.sp - 1], Stack(s.sp - 1, s.addresses)))
  }

  /** Popping right after a push returns the pushed address and the stack
      pointer from before the push. */
  lemma PopAfterPush(s: Stack, value: u16)
    requires s.sp < StackSize
    ensures Pop(Push(s, value).value) == Ok(Popped(value, s.(addresses := s.addresses[s.sp := value])))
  {
  }

  /** The addresses pushed one after another, first to last. */
  function PushAll(s: Stack, values: seq<u16>): (r: Result<Stack>)
    decreases |values|
  {
    if |values| == 0 then Ok(s)
    else
      var t :- PushAll(s, values[..|values| - 1]);
      Push(t, values[|values| - 1])
  }

  /** `n` addresses popped one after another, in the order they come off. */
  function PopAll(s: Stack, n: nat): (r: Result<seq<u16>>)
    decreases n
  {
    if n == 0 then Ok([])
    else
      var p :- Pop(s);
      var more :- PopAll(p.rest, n - 1);
      Ok([p.value] + more)
  }

  function Reverse(values: seq<u16>): (r: seq<u16>)
    ensures |r| == |values|
    ensures forall i :: 0 <= i < |values| ==> r[i] == values[|values| - 1 - i]
  {
    seq(|values|, i requires 0 <= i < |values| => values[|values| - 1 - i])
  }

  /** Pushing a run of addresses succeeds exactly when they fit, fills the
      slots above the old stack pointer with them in order, and keeps the slots
      below it. */
  lemma {:induction false} PushAllEffect(s: Stack, values: seq<u16>)
    ensures PushAll(s, values).Ok? <==> s.sp + |values| <= StackSize
    ensures PushAll(s, values).Err? ==> PushAll(s, values).fault == StackOverflow
    ensures PushAll(s, values).Ok? ==>
      && PushAll(s, values).value.sp == s.sp + |values|
      && (forall i :: 0 <= i < |values| ==> PushAll(s, values).value.addresses[s.sp + i] == values[i])
      && (forall i :: 0 <= i < s.sp ==> PushAll(s, values).value.addresses[i] == s.addresses[i])
    decreases |values|
  {
    if |values| > 0 {
      PushAllEffect(s, values[..|values| - 1]);
    }
  }

  /** Popping `n` addresses reads the top `n` slots from the top down. */
  lemma {:induction false} PopAllEffect(s: Stack, n: nat)
    ensures PopAll(s, n).Ok? <==> n <= s.sp
    ensures PopAll(s, n).Err? ==> PopAll(s, n).fault == StackUnderflow
    ensures PopAll(s, n).Ok? ==>
      |PopAll(s, n).value| == n &&
      forall i :: 0 <= i < n ==> PopAll(s, n).value[i] == s.addresses[s.sp - 1 - i]
    decreases n
  {
    if n > 0 && s.sp > 0 {
      PopAllEffect(Pop(s).value.rest, n - 1);
    }
  }

  /** Up to sixteen addresses pushed onto an empty stack come back off it
      in exactly the reverse order. */
  lemma LastInFirstOut(s: Stack, values: seq<u16>)
    requires s.sp == 0 && |values| <= StackSize
    ensures PushAll(s, values).Ok?
    ensures PopAll(PushAll(s, values).value, |values|) == Ok(Reverse(values))
  {
    PushAllEffect(s, values);
    var full := PushAll(s, values).value;
    PopAllEffect(full, |values|);
    assert PopAll(full, |values|).value == Reverse(values);
  }

  /** A seventeenth push without a pop in between is fatal. */
  lemma SeventeenthPushFaults(s: Stack, values: seq<u16>)
    requires s.sp == 0 && |values| == StackSize + 1
    ensures PushAll(s, values) == Err(StackOverflow)
  {
    PushAllEffect(s, values);
  }
}
