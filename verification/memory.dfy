/** The interpreter's byte memory.

    The memory component is known here only through the calls made on it: a
    fixed-length byte store with `Read`, `Write`, a bulk `Copy` used to load a
    program, and `Clear`. An address at or past the end is fatal, so it is a
    `MemoryOutOfBounds` fault here.
 */
module Ram {
  import opened Bits
  import opened Faults

  /** The number of addressable bytes. */
  const MemorySize: nat := 0x1000

  type Memory = s: seq<u8> | |s| == MemorySize witness seq(0x1000, _ => 0)

  /** The byte at `addr`, or a fault when `addr` is past the end. */
  function Read(mem: Memory, addr: u16): (r: Result<u8>)
    ensures r.Ok? <==> addr < MemorySize
    ensures r.Ok? ==> r.value == mem[addr]
    ensures r.Err? ==> r.fault == MemoryOutOfBounds(addr)
  {
    if addr < MemorySize then Ok(mem[addr]) else Err(MemoryOutOfBounds(addr))
  }

  /** The memory with `v` stored at `addr`, or a fault when `addr` is past the end. */
  function Write(mem: Memory, addr: u16, v: u8): (r: Result<Memory>)
    ensures r.Ok? <==> addr < MemorySize
    ensures r.Ok? ==> r.value[addr] == v
    ensures r.Ok? ==> forall a :: 0 <= a < MemorySize && a != addr ==> r.value[a] == mem[a]
    ensures r.Err? ==> r.fault == MemoryOutOfBounds(addr)
  {
    if addr < MemorySize then Ok(mem[addr := v]) else Err(MemoryOutOfBounds(addr))
  }

  /** Every byte zero. */
  function Clear(mem: Memory): (r: Memory)
    ensures forall a :: 0 <= a < MemorySize ==> r[a] == 0
  {
    seq(MemorySize, _ => 0)
  }

  /** `data` placed at `start`; the caller guarantees that it fits. */
  function Copy(mem: Memory, start: u16, data: seq<u8>): (r: Memory)
    requires start + |data| <= MemorySize
    ensures forall k :: 0 <= k < |data| ==> r[start + k] == data[k]
    ensures forall a :: 0 <= a < MemorySize && !(start <= a < start + |data|) ==> r[a] == mem[a]
  {
    mem[..start] + data + mem[start + |data|..]
  }

  /** The address `k` bytes after `base`, in 16-bit arithmetic. */
  function Offset(base: u16, k: nat): u16 {
    Wrap16(base + k)
  }

  /** The first address a block of `n` bytes at `start` reaches past the end. */
  function FirstOutside(start: u16): nat {
    if start < MemorySize then MemorySize else start
  }

  /** The `n` bytes at `start`, `start + 1`, ... read in that order; the first
      address past the end faults. Blocks are at most 16 bytes (a sprite or
      the register file). */
  function ReadBlock(mem: Memory, start: u16, n: nat): (r: Result<seq<u8>>)
    requires n <= 0x10
    ensures r.Ok? <==> n == 0 || start + n <= MemorySize
    ensures r.Ok? ==> |r.value| == n && forall k :: 0 <= k < n ==> r.value[k] == mem[start + k]
    ensures r.Err? ==> r.fault == MemoryOutOfBounds(FirstOutside(start))
    decreases n
  {
    if n == 0 then Ok([])
    else
      var prefix :- ReadBlock(mem, start, n - 1);
      var b :- Read(mem, Offset(start, n - 1));
      Ok(prefix + [b])
  }

  /** `vals` written at `start`, `start + 1`, ... in that order; the first
      address past the end faults. */
  function WriteBlock(mem: Memory, start: u16, vals: seq<u8>): (r: Result<Memory>)
    requires |vals| <= 0x10
    ensures r.Ok? <==> |vals| == 0 || start + |vals| <= MemorySize
    ensures r.Ok? ==> forall k :: 0 <= k < |vals| ==> r.value[start + k] == vals[k]
    ensures r.Ok? ==> forall a :: 0 <= a < MemorySize && !(start <= a < start + |vals|) ==> r.value[a] == mem[a]
    ensures r.Err? ==> r.fault == MemoryOutOfBounds(FirstOutside(start))
    decreases |vals|
  {
    if |vals| == 0 then Ok(mem)
    else
      var n := |vals| - 1;
      var prefix :- WriteBlock(mem, start, vals[..n]);
      Write(prefix, Offset(start, n), vals[n])
  }

  /** A write is seen by the next read of the same address, and by no other. */
  lemma ReadAfterWrite(mem: Memory, addr: u16, v: u8, other: u16)
    requires addr < MemorySize
    ensures Read(Write(mem, addr, v).value, addr) == Ok(v)
    ensures other != addr ==> Read(Write(mem, addr, v).value, other) == Read(mem, other)
  {
  }

  /** Reading back a block just written yields the written bytes. */
  lemma ReadBlockAfterWriteBlock(mem: Memory, start: u16, vals: seq<u8>)
    requires |vals| <= 0x10
    requires WriteBlock(mem, start, vals).Ok?
    ensures ReadBlock(WriteBlock(mem, start, vals).value, start, |vals|) == Ok(vals)
  {
    var written := WriteBlock(mem, start, vals).value;
    var back := ReadBlock(written, start, |vals|);
    assert back.value == vals;
  }
}
