/** Byte strings, optional values and big-endian numbers. */
module ByteStrings {

  type byte = x: int | 0 <= x < 256

  type Bytes = seq<byte>

  datatype Option<+T> = None | Some(value: T)

  function Zeros(n: nat): (z: Bytes)
    ensures |z| == n
  {
    seq(n, _ => 0)
  }

  /** The number written by `b`, most significant byte first. */
  function BigEndian(b: Bytes): nat
  {
    if b == [] then 0 else BigEndian(b[..|b| - 1]) * 256 + b[|b| - 1]
  }

  function Pow256(n: nat): (p: nat)
    ensures p >= 1
  {
    if n == 0 then 1 else 256 * Pow256(n - 1)
  }

  lemma {:induction false} BigEndianAppend(a: Bytes, b: Bytes)
    ensures BigEndian(a + b) == BigEndian(a) * Pow256(|b|) + BigEndian(b)
  {
    if b == [] {
      assert a + b == a;
    } else {
      var c := b[..|b| - 1];
      BigEndianAppend(a, c);
      assert (a + b)[..|a + b| - 1] == a + c;
      assert (BigEndian(a) * Pow256(|c|)) * 256 == BigEndian(a) * (256 * Pow256(|c|));
    }
  }

  lemma {:induction false} BigEndianBound(b: Bytes)
    ensures BigEndian(b) < Pow256(|b|)
  {
    if b != [] {
      BigEndianBound(b[..|b| - 1]);
    }
  }

  lemma {:induction false} BigEndianZeros(n: nat)
    ensures BigEndian(Zeros(n)) == 0
  {
    if n > 0 {
      BigEndianZeros(n - 1);
      assert Zeros(n)[..n - 1] == Zeros(n - 1);
    }
  }

  /** Leading zero bytes do not change the number. */
  lemma BigEndianPadding(n: nat, b: Bytes)
    ensures BigEndian(Zeros(n) + b) == BigEndian(b)
  {
    BigEndianAppend(Zeros(n), b);
    BigEndianZeros(n);
  }

  /** The three low bytes of a counter, as `binary.BigEndian.PutUint32` leaves them at 1..4. */
  function ThreeBytes(n: nat): (b: Bytes)
    ensures |b| == 3
  {
    [(n / 65536) % 256, (n / 256) % 256, n % 256]
  }

  lemma ThreeBytesValue(n: nat)
    requires n <= 0xffffff
    ensures BigEndian(ThreeBytes(n)) == n
  {
    var b := ThreeBytes(n);
    assert b[..2][..1] == [b[0]] && b[..2] == [b[0], b[1]];
    assert BigEndian([b[0]]) == b[0] by {
      assert [b[0]][..0] == [];
    }
    assert BigEndian(b[..2]) == (b[0] as int) * 256 + b[1];
    assert n / 65536 == n / 256 / 256;
  }

  /** A 32-bit number in four bytes, least significant first; larger numbers are truncated. */
  function FourBytes(n: nat): (b: Bytes)
    ensures |b| == 4
  {
    [n % 256, n / 256 % 256, n / 65536 % 256, n / 16777216 % 256]
  }

  /** The same number, most significant byte first. */
  function NetworkBytes(n: nat): (b: Bytes)
    ensures |b| == 4
  {
    [n / 16777216 % 256, n / 65536 % 256, n / 256 % 256, n % 256]
  }

  function LittleEndian(b: Bytes): nat
    requires |b| == 4
  {
    (b[0] as int) + 256 * (b[1] as int) + 65536 * (b[2] as int) + 16777216 * (b[3] as int)
  }

  lemma FourBytesValue(n: nat)
    ensures LittleEndian(FourBytes(n)) == n % 0x1_0000_0000
  {
    var a, b, c, d := n % 256, n / 256, n / 65536, n / 16777216;
    assert c == b / 256 && d == c / 256;
    assert n == a + 256 * (b % 256 + 256 * (c % 256 + 256 * d));
    assert d == d % 256 + 256 * (d / 256);
    assert n == (a + 256 * (b % 256) + 65536 * (c % 256) + 16777216 * (d % 256)) + 0x1_0000_0000 * (d / 256);
  }

  lemma Turned(n: nat)
    ensures var b := NetworkBytes(n); FourBytes(n) == [b[3], b[2], b[1], b[0]]
  {
  }

  function NetworkNumber(b: Bytes): nat
    requires |b| == 4
  {
    LittleEndian([b[3], b[2], b[1], b[0]])
  }

  lemma NetworkBytesValue(n: nat)
    requires n < 0x1_0000_0000
    ensures NetworkNumber(NetworkBytes(n)) == n
  {
    Turned(n);
    FourBytesValue(n);
  }

  lemma SameNumber(a: Bytes, b: Bytes)
    requires |a| == 4 && a == b
    ensures NetworkNumber(a) == NetworkNumber(b)
  {
  }

  /** Four bytes tell 32-bit numbers apart. */
  lemma NetworkBytesDiffer(m: nat, n: nat)
    requires m < 0x1_0000_0000 && n < 0x1_0000_0000 && NetworkBytes(m) == NetworkBytes(n)
    ensures m == n
  {
    NetworkBytesValue(m);
    NetworkBytesValue(n);
    SameNumber(NetworkBytes(m), NetworkBytes(n));
  }
}
