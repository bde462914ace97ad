/** Bytes, fixed-width unsigned numbers, big-endian fields, and the raw loads the source
    performs on either kind of host. */
module Bytes {
  type byte = x: int | 0 <= x < 0x100
  type u16 = x: int | 0 <= x < 0x1_0000
  type u32 = x: int | 0 <= x < 0x1_0000_0000
  type u64 = x: int | 0 <= x < 0x1_0000_0000_0000_0000

  datatype Host = LittleEndian | BigEndian

  /* ---------- big-endian reading and writing ---------- */

  function Be16(b: seq<byte>): u16
    requires |b| == 2
  {
    (b[0] as int) * 0x100 + b[1] as int
  }

  function Be32(b: seq<byte>): u32
    requires |b| == 4
  {
    Be16(b[..2]) * 0x1_0000 + Be16(b[2..])
  }

  function Be64(b: seq<byte>): u64
    requires |b| == 8
  {
    Be32(b[..4]) * 0x1_0000_0000 + Be32(b[4..])
  }

  function Put16(n: u16): (b: seq<byte>)
    ensures |b| == 2 && Be16(b) == n
  {
    [n / 0x100, n % 0x100]
  }

  function Put32(n: u32): (b: seq<byte>)
    ensures |b| == 4 && Be32(b) == n
  {
    Put16(n / 0x1_0000) + Put16(n % 0x1_0000)
  }

  function Put64(n: u64): (b: seq<byte>)
    ensures |b| == 8 && Be64(b) == n
  {
    Put32(n / 0x1_0000_0000) + Put32(n % 0x1_0000_0000)
  }

  lemma PutBe16(b: seq<byte>)
    requires |b| == 2
    ensures Put16(Be16(b)) == b
  {
    assert Put16(Be16(b))[0] == b[0] && Put16(Be16(b))[1] == b[1];
  }

  lemma PutBe32(b: seq<byte>)
    requires |b| == 4
    ensures Put32(Be32(b)) == b
  {
    PutBe16(b[..2]);
    PutBe16(b[2..]);
    assert Be32(b) / 0x1_0000 == Be16(b[..2]) && Be32(b) % 0x1_0000 == Be16(b[2..]);
    assert b == b[..2] + b[2..];
  }

  /** Where the parts of a two-byte, two-byte and longer field lie. */
  lemma FieldParts(a: seq<byte>, b: seq<byte>, c: seq<byte>)
    requires |a| == |b| == 2
    ensures (a + b + c)[..2] == a && (a + b + c)[2..4] == b
    ensures (a + b + c)[4..] == c && (a + b + c)[4..4 + |c|] == c
  {
  }

  /* ---------- host-order loads ---------- */

  function Swap16(n: u16): u16 {
    (n % 0x100) * 0x100 + n / 0x100
  }

  function Swap32(n: u32): u32 {
    Swap16(n % 0x1_0000) * 0x1_0000 + Swap16(n / 0x1_0000)
  }

  /** *reinterpret_cast<quint16*>(b) */
  function Load16(host: Host, b: seq<byte>): u16
    requires |b| == 2
  {
    if host.BigEndian? then Be16(b) else Be16([b[1], b[0]])
  }

  /** *reinterpret_cast<quint32*>(b) */
  function Load32(host: Host, b: seq<byte>): u32
    requires |b| == 4
  {
    if host.BigEndian? then Be32(b) else Be32([b[3], b[2], b[1], b[0]])
  }

  /** qFromBigEndian, which is also qToBigEndian */
  function FromBigEndian16(host: Host, n: u16): u16 {
    if host.BigEndian? then n else Swap16(n)
  }

  function FromBigEndian32(host: Host, n: u32): u32 {
    if host.BigEndian? then n else Swap32(n)
  }

  lemma SwapBe16(x: byte, y: byte)
    ensures Swap16(Be16([x, y])) == Be16([y, x])
  {
  }

  lemma SwapBe32(b: seq<byte>)
    requires |b| == 4
    ensures Swap32(Be32(b)) == Be32([b[3], b[2], b[1], b[0]])
  {
    var r := [b[3], b[2], b[1], b[0]];
    assert b[..2] == [b[0], b[1]] && b[2..] == [b[2], b[3]];
    assert r[..2] == [b[3], b[2]] && r[2..] == [b[1], b[0]];
    assert Be32(b) % 0x1_0000 == Be16(b[2..]) && Be32(b) / 0x1_0000 == Be16(b[..2]);
    SwapBe16(b[0], b[1]);
    SwapBe16(b[2], b[3]);
  }

  /** QByteArrayToInt reads the bytes as a big-endian number, whatever the host. */
  function ToInt16(host: Host, b: seq<byte>): (r: u16)
    requires |b| == 2
    ensures r == Be16(b)
  {
    FromBigEndian16(host, Load16(host, b))
  }

  function ToInt32(host: Host, b: seq<byte>): (r: u32)
    requires |b| == 4
    ensures r == Be32(b)
  {
    SwapBe32([b[3], b[2], b[1], b[0]]);
    assert [b[0], b[1], b[2], b[3]] == b;
    FromBigEndian32(host, Load32(host, b))
  }

  /* ---------- bitwise exclusive or ---------- */

  function Xor(a: nat, b: nat): nat {
    if a == 0 && b == 0 then 0 else (a + b) % 2 + 2 * Xor(a / 2, b / 2)
  }

  lemma XorBit(c: nat, d: nat)
    requires c < 2 && d < 2
    ensures Xor(c, d) == (c + d) % 2
  {
    assert Xor(0, 0) == 0;
  }

  /** The last bit and the others. */
  lemma XorStep(x: nat, y: nat, a: nat, b: nat)
    requires a == x / 2 && b == y / 2
    ensures Xor(x, y) == (x + y) % 2 + 2 * Xor(a, b)
  {
    if x == 0 && y == 0 { assert Xor(0, 0) == 0; }
  }

  lemma Parity(a: nat, b: nat, c: nat, d: nat)
    ensures (2 * a + c + (2 * b + d)) % 2 == (c + d) % 2
  {
    assert 2 * a + c + (2 * b + d) == (c + d) + 2 * (a + b);
  }

  lemma Xor2(a: nat, b: nat, c: nat, d: nat)
    requires c < 2 && d < 2
    ensures Xor(2 * a + c, 2 * b + d) == 2 * Xor(a, b) + Xor(c, d) && Xor(c, d) < 2
  {
    var x, y := 2 * a + c, 2 * b + d;
    assert x / 2 == a && y / 2 == b;
    calc {
      Xor(x, y);
      { XorStep(x, y, a, b); }
      (x + y) % 2 + 2 * Xor(a, b);
      { Parity(a, b, c, d); }
      (c + d) % 2 + 2 * Xor(a, b);
      { XorBit(c, d); }
      Xor(c, d) + 2 * Xor(a, b);
    }
    XorBit(c, d);
  }

  lemma XorBitTwice(c: nat, d: nat)
    requires c < 2 && d < 2
    ensures Xor(c, d) < 2 && Xor(Xor(c, d), d) == c
  {
    XorBit(c, d);
    XorBit((c + d) % 2, d);
  }

  lemma XorTwiceStep(a: nat, b: nat, c: nat, d: nat)
    requires c < 2 && d < 2 && Xor(Xor(a, b), b) == a
    ensures Xor(Xor(2 * a + c, 2 * b + d), 2 * b + d) == 2 * a + c
  {
    XorBitTwice(c, d);
    Xor2(a, b, c, d);
    Xor2(Xor(a, b), b, Xor(c, d), d);
  }

  /** Exclusive or with the same number twice changes nothing. */
  lemma {:induction false} XorTwice(a: nat, b: nat)
    ensures Xor(Xor(a, b), b) == a
  {
    if a != 0 || b != 0 {
      XorTwice(a / 2, b / 2);
      XorTwiceStep(a / 2, b / 2, a % 2, b % 2);
      assert 2 * (a / 2) + a % 2 == a && 2 * (b / 2) + b % 2 == b;
    }
  }

  lemma Xor4Digits(a: nat, b: nat, c1: nat, c0: nat, d1: nat, d0: nat)
    requires c1 < 2 && c0 < 2 && d1 < 2 && d0 < 2
    ensures Xor(4 * a + (2 * c1 + c0), 4 * b + (2 * d1 + d0))
         == 4 * Xor(a, b) + Xor(2 * c1 + c0, 2 * d1 + d0)
    ensures Xor(2 * c1 + c0, 2 * d1 + d0) < 4
  {
    assert 4 * a + (2 * c1 + c0) == 2 * (2 * a + c1) + c0;
    assert 4 * b + (2 * d1 + d0) == 2 * (2 * b + d1) + d0;
    Xor2(2 * a + c1, 2 * b + d1, c0, d0);
    Xor2(a, b, c1, d1);
    Xor2(c1, d1, c0, d0);
  }

  lemma Xor4(a: nat, b: nat, c: nat, d: nat)
    requires c < 4 && d < 4
    ensures Xor(4 * a + c, 4 * b + d) == 4 * Xor(a, b) + Xor(c, d)
    ensures Xor(c, d) < 4
  {
    Xor4Digits(a, b, c / 2, c % 2, d / 2, d % 2);
    assert c == 2 * (c / 2) + c % 2 && d == 2 * (d / 2) + d % 2;
  }

  lemma Xor16Digits(a: nat, b: nat, c1: nat, c0: nat, d1: nat, d0: nat)
    requires c1 < 4 && c0 < 4 && d1 < 4 && d0 < 4
    ensures Xor(16 * a + (4 * c1 + c0), 16 * b + (4 * d1 + d0))
         == 16 * Xor(a, b) + Xor(4 * c1 + c0, 4 * d1 + d0)
    ensures Xor(4 * c1 + c0, 4 * d1 + d0) < 16
  {
    assert 16 * a + (4 * c1 + c0) == 4 * (4 * a + c1) + c0;
    assert 16 * b + (4 * d1 + d0) == 4 * (4 * b + d1) + d0;
    Xor4(4 * a + c1, 4 * b + d1, c0, d0);
    Xor4(a, b, c1, d1);
    Xor4(c1, d1, c0, d0);
  }

  lemma Xor16(a: nat, b: nat, c: nat, d: nat)
    requires c < 16 && d < 16
    ensures Xor(16 * a + c, 16 * b + d) == 16 * Xor(a, b) + Xor(c, d)
    ensures Xor(c, d) < 16
  {
    Xor16Digits(a, b, c / 4, c % 4, d / 4, d % 4);
    assert c == 4 * (c / 4) + c % 4 && d == 4 * (d / 4) + d % 4;
  }

  lemma Xor256Digits(a: nat, b: nat, c1: nat, c0: nat, d1: nat, d0: nat)
    requires c1 < 16 && c0 < 16 && d1 < 16 && d0 < 16
    ensures Xor(0x100 * a + (16 * c1 + c0), 0x100 * b + (16 * d1 + d0))
         == 0x100 * Xor(a, b) + Xor(16 * c1 + c0, 16 * d1 + d0)
    ensures Xor(16 * c1 + c0, 16 * d1 + d0) < 0x100
  {
    assert 0x100 * a + (16 * c1 + c0) == 16 * (16 * a + c1) + c0;
    assert 0x100 * b + (16 * d1 + d0) == 16 * (16 * b + d1) + d0;
    Xor16(16 * a + c1, 16 * b + d1, c0, d0);
    Xor16(a, b, c1, d1);
    Xor16(c1, d1, c0, d0);
  }

  lemma Xor256(a: nat, b: nat, c: nat, d: nat)
    requires c < 0x100 && d < 0x100
    ensures Xor(0x100 * a + c, 0x100 * b + d) == 0x100 * Xor(a, b) + Xor(c, d)
    ensures Xor(c, d) < 0x100
  {
    Xor256Digits(a, b, c / 16, c % 16, d / 16, d % 16);
    assert c == 16 * (c / 16) + c % 16 && d == 16 * (d / 16) + d % 16;
  }

  lemma Xor65536Digits(a: nat, b: nat, c1: nat, c0: nat, d1: nat, d0: nat)
    requires c1 < 0x100 && c0 < 0x100 && d1 < 0x100 && d0 < 0x100
    ensures Xor(0x1_0000 * a + (0x100 * c1 + c0), 0x1_0000 * b + (0x100 * d1 + d0))
         == 0x1_0000 * Xor(a, b) + Xor(0x100 * c1 + c0, 0x100 * d1 + d0)
    ensures Xor(0x100 * c1 + c0, 0x100 * d1 + d0) < 0x1_0000
  {
    assert 0x1_0000 * a + (0x100 * c1 + c0) == 0x100 * (0x100 * a + c1) + c0;
    assert 0x1_0000 * b + (0x100 * d1 + d0) == 0x100 * (0x100 * b + d1) + d0;
    Xor256(0x100 * a + c1, 0x100 * b + d1, c0, d0);
    Xor256(a, b, c1, d1);
    Xor256(c1, d1, c0, d0);
  }

  lemma Xor65536(a: nat, b: nat, c: nat, d: nat)
    requires c < 0x1_0000 && d < 0x1_0000
    ensures Xor(0x1_0000 * a + c, 0x1_0000 * b + d) == 0x1_0000 * Xor(a, b) + Xor(c, d)
    ensures Xor(c, d) < 0x1_0000
  {
    Xor65536Digits(a, b, c / 0x100, c % 0x100, d / 0x100, d % 0x100);
    assert c == 0x100 * (c / 0x100) + c % 0x100 && d == 0x100 * (d / 0x100) + d % 0x100;
  }

  lemma {:induction false} XorSelf(a: nat)
    ensures Xor(a, a) == 0
  {
    if a != 0 { XorSelf(a / 2); }
  }

  /** Only exclusive or with 0 changes nothing. */
  lemma XorChanges(a: nat, b: nat)
    requires b != 0
    ensures Xor(a, b) != a
  {
    if Xor(a, b) == a {
      XorCommutes(a, b);
      XorTwice(b, a);
      XorSelf(a);
    }
  }

  lemma {:induction false} XorCommutes(a: nat, b: nat)
    ensures Xor(a, b) == Xor(b, a)
  {
    if a != 0 || b != 0 { XorCommutes(a / 2, b / 2); }
  }

  /** Exclusive or of two numbers of this width. */
  function XorU16(a: u16, b: u16): (r: u16)
    ensures r == Xor(a, b)
  {
    Xor65536(0, 0, a, b);
    Xor(a, b)
  }

  function XorU32(a: u32, b: u32): (r: u32)
    ensures r == Xor(a, b)
  {
    Xor65536(a / 0x1_0000, b / 0x1_0000, a % 0x1_0000, b % 0x1_0000);
    Xor65536(0, 0, a / 0x1_0000, b / 0x1_0000);
    Xor(a, b)
  }

  function XorByte(a: byte, b: byte): (r: byte)
    ensures r == Xor(a, b)
  {
    Xor256(0, 0, a, b);
    Xor(a, b)
  }

  function XorBytes(a: seq<byte>, b: seq<byte>): (r: seq<byte>)
    requires |a| == |b|
    ensures |r| == |a|
  {
    seq(|a|, i requires 0 <= i < |a| => XorByte(a[i], b[i]))
  }

  /** Exclusive or of big-endian numbers is bytewise. */
  lemma XorBe16(a: seq<byte>, b: seq<byte>)
    requires |a| == |b| == 2
    ensures Be16(XorBytes(a, b)) == XorU16(Be16(a), Be16(b))
  {
    Xor256(a[0], b[0], a[1], b[1]);
  }

  lemma XorBe32(a: seq<byte>, b: seq<byte>)
    requires |a| == |b| == 4
    ensures Be32(XorBytes(a, b)) == XorU32(Be32(a), Be32(b))
  {
    XorBe16(a[..2], b[..2]);
    XorBe16(a[2..], b[2..]);
    Xor65536(Be16(a[..2]), Be16(b[..2]), Be16(a[2..]), Be16(b[2..]));
    assert XorBytes(a, b)[..2] == XorBytes(a[..2], b[..2]);
    assert XorBytes(a, b)[2..] == XorBytes(a[2..], b[2..]);
  }
}
