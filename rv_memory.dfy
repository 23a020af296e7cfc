/** The emulated data memory. The handlers of rv_emu.c turn a computed
    64-bit address into a host pointer and read or write 1, 4 or 8 bytes
    through it; here that memory is the machine's stack array, addressed
    from a fixed base, with little-endian accesses and an error outcome for
    any access that does not lie wholly inside it. */
module Memory {

  /** STACK_SIZE: the number of bytes of the emulated stack. */
  const STACK_SIZE: nat := 8192

  /** The emulated address of stack[0]; the stack occupies
      [STACK_BASE, STACK_BASE + STACK_SIZE). */
  const STACK_BASE: bv64 := 0x1000_0000

  /** The access widths of the handlers: char (lb/sb), int (lw/sw) and
      the 8-byte double (ld/sd). */
  datatype Width = Byte | Word | Double

  function Size(w: Width): (n: nat)
    ensures n == 1 || n == 4 || n == 8
  {
    match w
    case Byte => 1
    case Word => 4
    case Double => 8
  }

  /** Whether the Size(w) bytes starting at addr all lie in the stack.
      An address below the base wraps to a huge offset and fails too. */
  predicate InStack(addr: bv64, w: Width)
  {
    match w
    case Byte => addr - STACK_BASE <= 8191
    case Word => addr - STACK_BASE <= 8188
    case Double => addr - STACK_BASE <= 8184
  }

  /** The stack index of an in-stack address. */
  function Offset(addr: bv64, w: Width): (k: nat)
    requires InStack(addr, w)
    ensures k + Size(w) <= STACK_SIZE
  {
    (addr - STACK_BASE) as int
  }

  /** Byte n (0 = least significant) of v. */
  function ByteOf(v: bv64, n: nat): bv8
    decreases n
  {
    if n == 0 then (v & 0xff) as bv8 else ByteOf(v >> 8, n - 1)
  }

  /** The value whose lowest byte is b and whose higher bytes are those
      of rest. */
  function Cons(b: bv8, rest: bv64): bv64
  {
    (b as bv64) | (rest << 8)
  }

  /** The little-endian value of the n bytes mem[k..k+n]. */
  function LoadLE(mem: seq<bv8>, k: nat, n: nat): bv64
    requires k + n <= |mem|
    decreases n
  {
    if n == 0 then 0 else Cons(mem[k], LoadLE(mem, k + 1, n - 1))
  }

  /** mem with the low n bytes of v written little-endian at k. */
  function StoreLE(mem: seq<bv8>, k: nat, v: bv64, n: nat): (r: seq<bv8>)
    requires k + n <= |mem|
    ensures |r| == |mem|
    decreases n
  {
    if n == 0 then mem else StoreLE(mem[k := ByteOf(v, 0)], k + 1, v >> 8, n - 1)
  }

  /** The value v keeps after only its low n bytes are stored: v with
      every byte from n upwards cleared. */
  function LowBytes(v: bv64, n: nat): bv64
    decreases n
  {
    if n == 0 then 0 else Cons(ByteOf(v, 0), LowBytes(v >> 8, n - 1))
  }

  /** A store writes byte j - k of v at each index j in [k, k + n) and
      leaves every other byte as it was. */
  lemma {:induction false} StoreLEAt(mem: seq<bv8>, k: nat, v: bv64, n: nat, j: nat)
    requires k + n <= |mem| && j < |mem|
    ensures StoreLE(mem, k, v, n)[j] == if k <= j < k + n then ByteOf(v, j - k) else mem[j]
    decreases n
  {
    if n > 0 {
      StoreLEAt(mem[k := ByteOf(v, 0)], k + 1, v >> 8, n - 1, j);
    }
  }

  /** StoreLEAt for every index at once. */
  lemma StoreLEBytes(mem: seq<bv8>, k: nat, v: bv64, n: nat)
    requires k + n <= |mem|
    ensures forall j :: 0 <= j < |mem| ==>
      StoreLE(mem, k, v, n)[j] == if k <= j < k + n then ByteOf(v, j - k) else mem[j]
  {
    forall j | 0 <= j < |mem| {
      StoreLEAt(mem, k, v, n, j);
    }
  }

  /** Loading the bytes just stored gives back the stored value's low n
      bytes. */
  lemma {:induction false} LoadAfterStoreLE(mem: seq<bv8>, k: nat, v: bv64, n: nat)
    requires k + n <= |mem|
    ensures LoadLE(StoreLE(mem, k, v, n), k, n) == LowBytes(v, n)
    decreases n
  {
    if n > 0 {
      var m := mem[k := ByteOf(v, 0)];
      var r := StoreLE(mem, k, v, n);
      assert r == StoreLE(m, k + 1, v >> 8, n - 1);
      LoadAfterStoreLE(m, k + 1, v >> 8, n - 1);
      StoreLEAt(m, k + 1, v >> 8, n - 1, k);
    }
  }

  lemma LowBytes4(v: bv64)
    ensures LowBytes(v, 4) == v & 0xffff_ffff
  {}

  lemma LowBytes8(v: bv64)
    ensures LowBytes(v, 8) == v
  {}

  lemma LowBytes1(v: bv64)
    ensures LowBytes(v, 1) == v & 0xff
  {}
}
