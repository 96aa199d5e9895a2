/** The sixteen-key keypad: one pressed/released flag per key 0x0..0xF.

    A key index of 16 or more is fatal, so it is a `KeyOutOfRange` fault.
 */
module Inputs {
  import opened Bits
  import opened Faults

  /** The number of keys. */
  const KeysCount: nat := 16

  type Keys = s: seq<bool> | |s| == KeysCount witness seq(16, _ => false)

  datatype Input = Input(keys: Keys)

  /** A key index together with whether it was found. */
  datatype Scan = Scan(key: u8, found: bool)

  /** Every key released. */
  function Clear(input: Input): (r: Input)
    ensures forall k :: 0 <= k < KeysCount ==> !r.keys[k]
  {
    Input(seq(KeysCount, _ => false))
  }

  /** The keypad with key `key` set to `pressed`, or a fault for a key past 0xF. */
  function KeyPressed(input: Input, key: u8, pressed: bool): (r: Result<Input>)
    ensures r.Ok? <==> key < KeysCount
    ensures r.Err? ==> r.fault == KeyOutOfRange(key)
    ensures r.Ok? ==> r.value.keys[key] == pressed
    ensures r.Ok? ==> forall k :: 0 <= k < KeysCount && k != key ==> r.value.keys[k] == input.keys[k]
  {
    if key >= KeysCount then Err(KeyOutOfRange(key))
    else Ok(Input(input.keys[key := pressed]))
  }

  /** Whether key `key` is down, or a fault for a key past 0xF. */
  function IsKeyPressed(input: Input, key: u8): (r: Result<bool>)
    ensures r.Ok? <==> key < KeysCount
    ensures r.Err? ==> r.fault == KeyOutOfRange(key)
    ensures r.Ok? ==> r.value == input.keys[key]
  {
    if key >= KeysCount then Err(KeyOutOfRange(key))
    else Ok(input.keys[key])
  }

  /** The first pressed key at index `from` or above, scanning upwards;
      `KeysCount` when there is none. */
  function FirstPressed(keys: Keys, from: nat): (r: nat)
    requires from <= KeysCount
    ensures from <= r <= KeysCount
    ensures r < KeysCount ==> keys[r]
    ensures forall k :: from <= k < r ==> !keys[k]
    decreases KeysCount - from
  {
    if from == KeysCount then KeysCount
    else if keys[from] then from
    else FirstPressed(keys, from + 1)
  }

  /** The lowest pressed key and `true`, or 16 and `false` when no key is down. */
  function IsAnyKeyPressed(input: Input): (r: Scan)
    ensures r.found <==> exists k :: 0 <= k < KeysCount && input.keys[k]
    ensures r.found ==> r.key < KeysCount && input.keys[r.key]
    ensures r.found ==> forall k :: 0 <= k < r.key ==> !input.keys[k]
    ensures !r.found ==> r.key == KeysCount
  {
    var first := FirstPressed(input.keys, 0);
    if first < KeysCount then Scan(first, true) else Scan(KeysCount, false)
  }

  /** Setting a key and then asking for it reads back the new state. */
  lemma KeyRoundTrip(input: Input, key: u8, pressed: bool)
    requires key < KeysCount
    ensures IsKeyPressed(KeyPressed(input, key, pressed).value, key) == Ok(pressed)
  {
  }

  /** On a keypad where nothing is down, pressing one key makes it the key
      the scan finds. */
  lemma OnlyPressedKeyIsFound(input: Input, key: u8)
    requires key < KeysCount
    ensures IsAnyKeyPressed(KeyPressed(Clear(input), key, true).value) == Scan(key, true)
  {
  }
}
