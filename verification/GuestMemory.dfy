/** Guest memory: a 32-bit address space of bytes, read and written big-endian. */
module GuestMemory {

  const TWO_16: nat := 0x1_0000
  const TWO_31: nat := 0x8000_0000
  const TWO_32: nat := 0x1_0000_0000
  const TWO_63: nat := 0x8000_0000_0000_0000
  const TWO_64: nat := 0x1_0000_0000_0000_0000

  type Memory = map<nat, nat>

  function Read8(m: Memory, a: nat): (v: nat)
    ensures v < 256
  {
    if a % TWO_32 in m then m[a % TWO_32] % 256 else 0
  }

  function Write8(m: Memory, a: nat, v: nat): Memory {
    m[a % TWO_32 := v % 256]
  }

  function Read16(m: Memory, a: nat): (v: nat)
    ensures v < TWO_16
  {
    Read8(m, a) * 256 + Read8(m, a + 1)
  }

  function Read32(m: Memory, a: nat): (v: nat)
    ensures v < TWO_32
  {
    Read16(m, a) * TWO_16 + Read16(m, a + 2)
  }

  function Read64(m: Memory, a: nat): (v: nat)
    ensures v < TWO_64
  {
    Read32(m, a) * TWO_32 + Read32(m, a + 4)
  }

  function Write16(m: Memory, a: nat, v: nat): Memory {
    Write8(Write8(m, a, v / 256), a + 1, v)
  }

  function Write32(m: Memory, a: nat, v: nat): Memory {
    Write16(Write16(m, a, v / TWO_16), a + 2, v)
  }

  function Write64(m: Memory, a: nat, v: nat): Memory {
    Write32(Write32(m, a, v / TWO_32), a + 4, v)
  }

  /** The `n` bytes at `a`, the most significant first. */
  function BigEndian(m: Memory, a: nat, n: nat): nat {
    if n == 0 then 0 else BigEndian(m, a, n - 1) * 256 + Read8(m, a + n - 1)
  }

  /** Words are read most significant byte first, at every address, across the end of the
      space too. */
  lemma ReadsBigEndian(m: Memory, a: nat)
    ensures Read16(m, a) == BigEndian(m, a, 2) && Read32(m, a) == BigEndian(m, a, 4)
    ensures Read64(m, a) == BigEndian(m, a, 8)
  {
    hide Read8, Read16, BigEndian;
    TwoBytesMore(m, a, 0);
    TwoBytesMore(m, a, 2);
    TwoBytesMore(m, a, 4);
    TwoBytesMore(m, a, 6);
  }

  lemma TwoBytesMore(m: Memory, a: nat, n: nat)
    ensures BigEndian(m, a, 0) == 0 && BigEndian(m, a, n + 2) == BigEndian(m, a, n) * TWO_16 + Read16(m, a + n)
  {
    hide Read8;
    assert BigEndian(m, a, n + 1) == BigEndian(m, a, n) * 256 + Read8(m, a + n);
  }

  lemma ReadWritten8(m: Memory, a: nat, v: nat, b: nat)
    ensures Read8(Write8(m, a, v), b) == if a % TWO_32 == b % TWO_32 then v % 256 else Read8(m, b)
  {
  }

  lemma Neighbours(a: nat)
    ensures a % TWO_32 != (a + 1) % TWO_32 && a % TWO_32 != (a + 2) % TWO_32 && a % TWO_32 != (a + 3) % TWO_32
  {
  }

  lemma TwoBytes(v: nat)
    ensures v / 256 % 256 * 256 + v % 256 == v % TWO_16
  {
  }

  lemma Read16Written(m: Memory, a: nat, v: nat)
    ensures Read16(Write16(m, a, v), a) == v % TWO_16
  {
    hide Write8, Read8;
    var high := Write8(m, a, v / 256);
    ReadWritten8(high, a + 1, v, a);
    ReadWritten8(high, a + 1, v, a + 1);
    ReadWritten8(m, a, v / 256, a);
    Neighbours(a);
    TwoBytes(v);
  }

  lemma Written16(m: Memory, a: nat, v: nat)
    ensures Read16(Write16(m, a, v), a) == v % TWO_16
    ensures forall b: nat ::
      b % TWO_32 != a % TWO_32 && b % TWO_32 != (a + 1) % TWO_32 ==> Read8(Write16(m, a, v), b) == Read8(m, b)
  {
    hide Write8, Read8, Read16;
    Read16Written(m, a, v);
    var high := Write8(m, a, v / 256);
    forall b: nat | b % TWO_32 != a % TWO_32 && b % TWO_32 != (a + 1) % TWO_32
      ensures Read8(Write16(m, a, v), b) == Read8(m, b)
    {
      ReadWritten8(high, a + 1, v, b);
      ReadWritten8(m, a, v / 256, b);
    }
  }

  lemma Written32(m: Memory, a: nat, v: nat)
    ensures Read32(Write32(m, a, v), a) == v % TWO_32
    ensures forall b: nat ::
      (b % TWO_32 != a % TWO_32 && b % TWO_32 != (a + 1) % TWO_32
       && b % TWO_32 != (a + 2) % TWO_32 && b % TWO_32 != (a + 3) % TWO_32)
      ==> Read8(Write32(m, a, v), b) == Read8(m, b)
  {
    hide Write16, Read8;
    var high := Write16(m, a, v / TWO_16);
    Written16(m, a, v / TWO_16);
    Written16(high, a + 2, v);
    Neighbours(a);
    Neighbours(a + 1);
    assert Read8(Write32(m, a, v), a) == Read8(high, a);
    assert Read8(Write32(m, a, v), a + 1) == Read8(high, a + 1);
    FourBytes(v);
  }

  lemma FourBytes(v: nat)
    ensures v / TWO_16 % TWO_16 * TWO_16 + v % TWO_16 == v % TWO_32
  {
  }

  // ------------------------------------------------- below the end of the space

  /** Two memories agree on a range of addresses. */
  predicate Same(m: Memory, m': Memory, from: nat, to: nat) {
    forall a: nat :: from <= a < to ==> Read8(m', a) == Read8(m, a)
  }

  lemma SameRead32(m: Memory, m': Memory, a: nat)
    requires Same(m, m', a, a + 4)
    ensures Read32(m', a) == Read32(m, a)
  {
    hide Read8;
    assert Read8(m', a) == Read8(m, a) && Read8(m', a + 1) == Read8(m, a + 1);
    assert Read8(m', a + 2) == Read8(m, a + 2) && Read8(m', a + 3) == Read8(m, a + 3);
  }

  /** A write below the end of the address space changes its own bytes only. */
  lemma Frame32(m: Memory, a: nat, v: nat)
    requires a + 4 <= TWO_32
    ensures forall b: nat :: b < TWO_32 && !(a <= b < a + 4) ==> Read8(Write32(m, a, v), b) == Read8(m, b)
  {
    hide Read8, Write32;
    Written32(m, a, v);
  }

  lemma Frame16(m: Memory, a: nat, v: nat)
    requires a + 2 <= TWO_32
    ensures forall b: nat :: b < TWO_32 && !(a <= b < a + 2) ==> Read8(Write16(m, a, v), b) == Read8(m, b)
  {
    hide Read8, Write16;
    Written16(m, a, v);
  }

  lemma SameRead16(m: Memory, m': Memory, a: nat)
    requires Same(m, m', a, a + 2)
    ensures Read16(m', a) == Read16(m, a)
  {
    hide Read8;
    assert Read8(m', a) == Read8(m, a) && Read8(m', a + 1) == Read8(m, a + 1);
  }

  lemma Frame8(m: Memory, a: nat, v: nat)
    requires a < TWO_32
    ensures Read8(Write8(m, a, v), a) == v % 256
    ensures forall b: nat :: b < TWO_32 && b != a ==> Read8(Write8(m, a, v), b) == Read8(m, b)
  {
  }

  /** Only bytes of one range changed. */
  predicate OnlyInside(m: Memory, m': Memory, from: nat, to: nat) {
    forall a: nat :: a < TWO_32 && !(from <= a < to) ==> Read8(m', a) == Read8(m, a)
  }

  lemma InsideSelf(m: Memory, from: nat, to: nat)
    ensures OnlyInside(m, m, from, to)
  {
  }

  lemma InsideJoin(m: Memory, m1: Memory, m2: Memory, from: nat, to: nat)
    requires OnlyInside(m, m1, from, to) && OnlyInside(m1, m2, from, to)
    ensures OnlyInside(m, m2, from, to)
  {
    hide Read8;
  }

  lemma InsideMore(m: Memory, m': Memory, from: nat, to: nat, to': nat)
    requires OnlyInside(m, m', from, to) && to <= to'
    ensures OnlyInside(m, m', from, to')
  {
    hide Read8;
  }

  /** The 32-bit words of a range. */
  function Words(m: Memory, a: nat, n: nat): (w: seq<nat>)
    ensures |w| == n
  {
    seq<nat>(n, j requires 0 <= j < n => Read32(m, a + 4 * j))
  }

  lemma SameWords(m: Memory, m': Memory, a: nat, n: nat)
    requires Same(m, m', a, a + 4 * n)
    ensures Words(m', a, n) == Words(m, a, n)
  {
    hide Read32, Read8;
    forall j | 0 <= j < n ensures Read32(m', a + 4 * j) == Read32(m, a + 4 * j) {
      SameRead32(m, m', a + 4 * j);
    }
  }

  /** Writing one word of a range sets that word and no other. */
  lemma WriteWord(m: Memory, a: nat, n: nat, k: nat, v: nat)
    requires k < n && a + 4 * n <= TWO_32
    ensures Words(Write32(m, a + 4 * k, v), a, n) == Words(m, a, n)[k := v % TWO_32]
  {
    hide Read8, Write32, Read32;
    var m' := Write32(m, a + 4 * k, v);
    Written32(m, a + 4 * k, v);
    Frame32(m, a + 4 * k, v);
    forall j | 0 <= j < n && j != k ensures Read32(m', a + 4 * j) == Read32(m, a + 4 * j) {
      SameRead32(m, m', a + 4 * j);
    }
  }

  /** A 64-bit value is its two words. */
  lemma WriteWords64(m: Memory, a: nat, n: nat, k: nat, v: nat)
    requires k + 1 < n && a + 4 * n <= TWO_32
    ensures Words(Write64(m, a + 4 * k, v), a, n) == Words(m, a, n)[k := v / TWO_32 % TWO_32][k + 1 := v % TWO_32]
    ensures var m' := Write64(m, a + 4 * k, v);
      forall b: nat :: b < TWO_32 && !(a + 4 * k <= b < a + 4 * k + 8) ==> Read8(m', b) == Read8(m, b)
  {
    hide Read8, Write32, Read32, Words;
    var high := Write32(m, a + 4 * k, v / TWO_32);
    WriteWord(m, a, n, k, v / TWO_32);
    Frame32(m, a + 4 * k, v / TWO_32);
    assert a + 4 * k + 4 == a + 4 * (k + 1);
    WriteWord(high, a, n, k + 1, v);
    Frame32(high, a + 4 * (k + 1), v);
  }

  /** Writing the first byte of a word that is zero. */
  lemma WriteFirstByte(m: Memory, a: nat, n: nat, k: nat, v: nat)
    requires k < n && a + 4 * n <= TWO_32 && Words(m, a, n)[k] == 0
    ensures Words(Write8(m, a + 4 * k, v), a, n) == Words(m, a, n)[k := v % 256 * 0x100_0000]
  {
    hide Read8, Write8, Read32;
    var m' := Write8(m, a + 4 * k, v);
    Frame8(m, a + 4 * k, v);
    forall j | 0 <= j < n && j != k ensures Read32(m', a + 4 * j) == Read32(m, a + 4 * j) {
      SameRead32(m, m', a + 4 * j);
    }
    FirstByte(m, m', a + 4 * k, v);
  }

  lemma FirstByte(m: Memory, m': Memory, a: nat, v: nat)
    requires Read32(m, a) == 0 && Read8(m', a) == v % 256 && Same(m, m', a + 1, a + 4)
    ensures Read32(m', a) == v % 256 * 0x100_0000
  {
    hide Read8;
    assert Read8(m', a + 1) == Read8(m, a + 1);
    assert Read8(m', a + 2) == Read8(m, a + 2) && Read8(m', a + 3) == Read8(m, a + 3);
  }

  /** The memory itself, as the program's routines share and change it. */
  class Guest {
    var bytes: Memory

    constructor (bytes: Memory)
      ensures this.bytes == bytes
    {
      this.bytes := bytes;
    }
  }
}
