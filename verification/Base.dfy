/** Octets, big- and little-endian integers and flag bits: the vocabulary every codec shares. */
module Base {

  type octet = x: int | 0 <= x < 256

  type Bytes = seq<octet>

  datatype Option<+T> = None | Some(value: T)

  const TWO16: int := 65536
  const TWO32: int := 4294967296

  function Be16(n: nat): Bytes
    requires n < TWO16
  {
    [n / 256, n % 256]
  }

  /** The first two octets as a big-endian number; further octets are ignored. */
  function U16(b: Bytes): (n: nat)
    requires |b| >= 2
    ensures n < TWO16
  {
    b[0] as int * 256 + b[1]
  }

  function Be32(n: nat): Bytes
    requires n < TWO32
  {
    Be16(n / TWO16) + Be16(n % TWO16)
  }

  function U32(b: Bytes): (n: nat)
    requires |b| >= 4
    ensures n < TWO32
  {
    U16(b[..2]) * TWO16 + U16(b[2..4])
  }

  /** Host-order readers of netlink, on a little-endian host. */
  function Le16(b: Bytes): (n: nat)
    requires |b| >= 2
    ensures n < TWO16
  {
    b[1] as int * 256 + b[0]
  }

  function Le32(b: Bytes): (n: nat)
    requires |b| >= 4
    ensures n < TWO32
  {
    Le16(b[2..4]) * TWO16 + Le16(b[..2])
  }

  function ToLe16(n: nat): Bytes
    requires n < TWO16
  {
    [n % 256, n / 256]
  }

  function ToLe32(n: nat): Bytes
    requires n < TWO32
  {
    ToLe16(n % TWO16) + ToLe16(n / TWO16)
  }

  /** Big-endian and little-endian numbers, octet by octet. */
  lemma OctetWeights(b: Bytes)
    requires |b| >= 4
    ensures U16(b) == 256 * b[0] as int + b[1] as int
    ensures U32(b) == 16777216 * b[0] as int + 65536 * b[1] as int + 256 * b[2] as int + b[3] as int
    ensures Le16(b) == 256 * b[1] as int + b[0] as int
    ensures Le32(b) == 16777216 * b[3] as int + 65536 * b[2] as int + 256 * b[1] as int + b[0] as int
  {
  }

  lemma U32OfBe32(n: nat)
    requires n < TWO32
    ensures U32(Be32(n)) == n
  {
    var h, l := Be16(n / TWO16), Be16(n % TWO16);
    assert (h + l)[..2] == h && (h + l)[2..4] == l;
  }

  lemma Le32OfToLe32(n: nat)
    requires n < TWO32
    ensures Le32(ToLe32(n)) == n
  {
    var l, h := ToLe16(n % TWO16), ToLe16(n / TWO16);
    assert (l + h)[..2] == l && (l + h)[2..4] == h;
  }

  /** The two leading bits of a flag octet (mask 0xc0), as a number below four. */
  function ClassBits(flags: octet): nat {
    if flags < 64 then 0 else if flags < 128 then 1 else if flags < 192 then 2 else 3
  }

  /** The six low bits. */
  function LowBits(flags: octet): (r: nat)
    ensures r < 64
  {
    flags as int - 64 * ClassBits(flags)
  }

  /** The bit 0x20. */
  predicate PartialBit(flags: octet) {
    LowBits(flags) >= 32
  }

  /** The bit 0x10: extended length of an attribute, interruption of a dump. */
  predicate Bit10(flags: octet) {
    16 <= LowBits(flags) < 32 || LowBits(flags) >= 48
  }

  predicate ExtendedLength(flags: octet) {
    Bit10(flags)
  }

  /** The bit 0x80. */
  predicate OptionalBit(flags: octet) {
    flags >= 128
  }

  lemma Associative<T>(a: seq<T>, b: seq<T>, c: seq<T>)
    ensures (a + b) + c == a + (b + c)
  {
  }

  lemma EmptyUnit<T>(a: seq<T>)
    ensures a + [] == a && [] + a == a
  {
  }

  /** The elements of a sequence, as a set. */
  function Elements<T>(s: seq<T>): set<T> {
    set x | x in s
  }
}
