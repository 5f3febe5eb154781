/** Fixed-width words, network byte order and the small datatypes every module shares. */
module Words {

  type u8 = x: int | 0 <= x < 0x100
  type u16 = x: int | 0 <= x < 0x1_0000
  type u32 = x: int | 0 <= x < 0x1_0000_0000

  datatype Option<+T> = None | Some(value: T)

  type Octets4 = s: seq<u8> | |s| == 4 witness [0, 0, 0, 0]
  type Octets16 = s: seq<u8> | |s| == 16 witness [0, 0, 0, 0, 0, 0, 0, 0, 0, 0, 0, 0, 0, 0, 0, 0]

  /** A UDP endpoint. */
  datatype SocketAddr = V4(ip4: Octets4, port: u16) | V6(ip6: Octets16, port: u16)

  /** Wrapping arithmetic: the low bits of an unbounded result. */
  function Wrap16(x: int): u16 { x % 0x1_0000 }

  /** Truncation of a length to 16 bits. */
  function Low16(n: nat): u16 { if n < 0x1_0000 then n else Wrap16(n) }

  /** Wrapping addition and subtraction of words. */
  function Add16(a: u16, b: u16): u16
  {
    var r := (a as int) + b;
    if r < 0x1_0000 then r else r - 0x1_0000
  }

  function Sub16(a: u16, b: u16): u16
  {
    var r := (a as int) - b;
    if r < 0 then r + 0x1_0000 else r
  }

  function Add32(a: u32, b: u32): u32
  {
    var r := (a as int) + b;
    if r < 0x1_0000_0000 then r else r - 0x1_0000_0000
  }

  function Sub32(a: u32, b: u32): u32
  {
    var r := (a as int) - b;
    if r < 0 then r + 0x1_0000_0000 else r
  }

  lemma Wrap16Add(x: int, d: int)
    ensures Wrap16(Wrap16(x) + d) == Wrap16(x + d)
  {
  }

  function Be16(b: seq<u8>, at: nat): u16
    requires at + 2 <= |b|
  {
    var hi: int, lo: int := b[at], b[at + 1];
    hi * 0x100 + lo
  }

  function Be32(b: seq<u8>, at: nat): u32
    requires at + 4 <= |b|
  {
    var hi: int, lo: int := Be16(b, at), Be16(b, at + 2);
    hi * 0x1_0000 + lo
  }

  function Bytes16(x: u16): (b: seq<u8>)
    ensures |b| == 2 && Be16(b, 0) == x
  {
    [x / 0x100, x % 0x100]
  }

  function Bytes32(x: u32): (b: seq<u8>)
    ensures |b| == 4 && Be32(b, 0) == x
  {
    var hi, lo := Bytes16(x / 0x1_0000), Bytes16(x % 0x1_0000);
    var b := hi + lo;
    assert Be16(b, 0) == Be16(hi, 0) && Be16(b, 2) == Be16(lo, 0);
    b
  }

  /** Whether the leftmost bit of an octet is set. */
  predicate HighBit(b: u8) { b >= 0x80 }

  function Zeros(n: nat): (z: seq<u8>)
    ensures |z| == n
  {
    seq(n, _ => 0)
  }

  lemma Assoc<T>(a: seq<T>, b: seq<T>, c: seq<T>)
    ensures a + (b + c) == (a + b) + c
  {
  }

  function Pow2(k: nat): (p: int)
    ensures 0 < p
  {
    if k == 0 then 1 else 2 * Pow2(k - 1)
  }

  lemma {:induction false} Pow2Add(a: nat, b: nat)
    ensures Pow2(a + b) == Pow2(a) * Pow2(b)
  {
    if a > 0 {
      Pow2Add(a - 1, b);
    }
  }

  lemma Squared(a: nat, p: int)
    requires Pow2(a) == p
    ensures Pow2(2 * a) == p * p
  {
    Pow2Add(a, a);
  }

  lemma PowersOfWords()
    ensures Pow2(8) == 0x100 && Pow2(16) == 0x1_0000 && Pow2(32) == 0x1_0000_0000
  {
    assert Pow2(2) == 4;
    Squared(2, 4);
    Squared(4, 16);
    Squared(8, 0x100);
    Squared(16, 0x1_0000);
  }

  lemma WordPowers()
    ensures Pow2(64) == 0x1_0000_0000_0000_0000 && Pow2(18) == 0x40000
  {
    assert Pow2(2) == 4;
    PowersOfWords();
    Squared(32, 0x1_0000_0000);
    Pow2Add(16, 2);
  }

  /** The word operations are those of the integers modulo 2^16 and 2^32. */
  lemma WordsWrap(a: u16, b: u16, c: u32, d: u32)
    ensures Add16(a, b) == (a + b) % 0x1_0000 && Sub16(a, b) == (a - b) % 0x1_0000
    ensures Add32(c, d) == (c + d) % 0x1_0000_0000 && Sub32(c, d) == (c - d) % 0x1_0000_0000
  {
  }
}
