/**
 The raw layout of ECDSA signatures in internal/icc/crypto.go: two big-endian
 integers, each left-padded to a width computed from the public key.
 */
module EcdsaLayout {
  import opened ByteStrings

  /** `big.Int.Bytes`: big-endian without leading zero bytes. */
  function MinimalBytes(n: nat): Bytes
  {
    if n == 0 then [] else MinimalBytes(n / 256) + [n % 256]
  }

  lemma {:induction false} MinimalBytesFacts(n: nat)
    ensures BigEndian(MinimalBytes(n)) == n
    ensures n > 0 ==> |MinimalBytes(n)| > 0 && MinimalBytes(n)[0] > 0
  {
    if n > 0 {
      MinimalBytesFacts(n / 256);
      assert MinimalBytes(n)[..|MinimalBytes(n)| - 1] == MinimalBytes(n / 256);
    }
  }

  function KeyWidth(xBits: nat): nat
  {
    (xBits + 7) / 8 + 2
  }

  /** `padToKeySize`. */
  function PadToKeySize(xBits: nat, b: Bytes): (p: Bytes)
    ensures |p| == if |b| >= KeyWidth(xBits) then |b| else KeyWidth(xBits)
    ensures BigEndian(p) == BigEndian(b)
  {
    var k := KeyWidth(xBits);
    if |b| >= k then b else BigEndianPadding(k - |b|, b); Zeros(k - |b|) + b
  }

  /** The response body of a successful ECDSA signature. */
  function RawSignature(xBits: nat, r: nat, s: nat): Bytes
  {
    PadToKeySize(xBits, MinimalBytes(r)) + PadToKeySize(xBits, MinimalBytes(s))
  }

  /** Cutting `sig` in the middle gives `r` and `s`. */
  predicate SplitsInto(sig: Bytes, r: nat, s: nat)
  {
    && |sig| % 2 == 0
    && BigEndian(sig[..|sig| / 2]) == r
    && BigEndian(sig[|sig| / 2..]) == s
  }

  lemma {:induction false} FitsWidth(n: nat, k: nat)
    ensures |MinimalBytes(n)| <= k <==> n < Pow256(k)
  {
    if n > 0 && k > 0 {
      FitsWidth(n / 256, k - 1);
    }
  }

  lemma LeadingByte(b: Bytes)
    requires |b| > 0 && b[0] > 0
    ensures BigEndian(b) >= 1
  {
    assert b == [b[0]] + b[1..];
    BigEndianAppend([b[0]], b[1..]);
    assert [b[0]][..0] == [];
    assert BigEndian([b[0]]) == b[0];
    assert (b[0] as int) * Pow256(|b| - 1) >= 1;
  }

  lemma ScaledGrows(n: nat, k: nat)
    requires n > 0 && k > 0
    ensures n * Pow256(k) > n
  {
    assert Pow256(k) >= 2;
  }

  /** Dropping trailing bytes of a non-zero number makes it smaller. */
  lemma CutShrinks(b: Bytes, m: nat)
    requires m < |b| && BigEndian(b) > 0
    ensures BigEndian(b[..m]) < BigEndian(b)
  {
    assert b == b[..m] + b[m..];
    BigEndianAppend(b[..m], b[m..]);
    if BigEndian(b[..m]) > 0 {
      ScaledGrows(BigEndian(b[..m]), |b| - m);
    }
  }

  lemma TooLongFirst(xBits: nat, r: nat, s: nat)
    requires |PadToKeySize(xBits, MinimalBytes(r))| > |PadToKeySize(xBits, MinimalBytes(s))|
    ensures !SplitsInto(RawSignature(xBits, r, s), r, s)
  {
    var p, sig := PadToKeySize(xBits, MinimalBytes(r)), RawSignature(xBits, r, s);
    MinimalBytesFacts(r);
    assert sig[..|sig| / 2] == p[..|sig| / 2];
    CutShrinks(p, |sig| / 2);
  }

  lemma TooLongSecond(xBits: nat, r: nat, s: nat)
    requires |PadToKeySize(xBits, MinimalBytes(r))| < |PadToKeySize(xBits, MinimalBytes(s))|
    ensures !SplitsInto(RawSignature(xBits, r, s), r, s)
  {
    var p, q, sig := PadToKeySize(xBits, MinimalBytes(r)), PadToKeySize(xBits, MinimalBytes(s)), RawSignature(xBits, r, s);
    var m := |sig| / 2;
    MinimalBytesFacts(r);
    MinimalBytesFacts(s);
    if |sig| % 2 == 0 {
      var extra := q[..m - |p|];
      assert sig[..m] == p + extra;
      BigEndianAppend(p, extra);
      LeadingByte(extra);
      if r > 0 {
        ScaledGrows(r, |extra|);
      }
    }
  }

  /** Splitting in the middle recovers both numbers exactly when the two halves have one width. */
  lemma SplitRecovers(xBits: nat, r: nat, s: nat)
    ensures SplitsInto(RawSignature(xBits, r, s), r, s) <==>
            |PadToKeySize(xBits, MinimalBytes(r))| == |PadToKeySize(xBits, MinimalBytes(s))|
  {
    var p, q, sig := PadToKeySize(xBits, MinimalBytes(r)), PadToKeySize(xBits, MinimalBytes(s)), RawSignature(xBits, r, s);
    if |p| == |q| {
      assert sig[..|sig| / 2] == p && sig[|sig| / 2..] == q;
      MinimalBytesFacts(r);
      MinimalBytesFacts(s);
    } else if |p| > |q| {
      TooLongFirst(xBits, r, s);
    } else {
      TooLongSecond(xBits, r, s);
    }
  }

  /** In particular whenever both numbers fit the computed width; each half then has that width. */
  lemma FittingNumbersSplit(xBits: nat, r: nat, s: nat)
    requires r < Pow256(KeyWidth(xBits)) && s < Pow256(KeyWidth(xBits))
    ensures |RawSignature(xBits, r, s)| == 2 * KeyWidth(xBits)
    ensures SplitsInto(RawSignature(xBits, r, s), r, s)
  {
    FitsWidth(r, KeyWidth(xBits));
    FitsWidth(s, KeyWidth(xBits));
    SplitRecovers(xBits, r, s);
  }

  /** `sig` is two numbers of `width` bytes each. */
  predicate Halves(sig: Bytes, width: nat, r: nat, s: nat)
  {
    |sig| == 2 * width && BigEndian(sig[..width]) == r && BigEndian(sig[width..]) == s
  }

  /** Fitting numbers fill one half each, of the key's bytes and two more. */
  lemma FittingHalves(xBits: nat, r: nat, s: nat)
    requires var width := (xBits + 7) / 8 + 2; r < Pow256(width) && s < Pow256(width)
    ensures Halves(RawSignature(xBits, r, s), (xBits + 7) / 8 + 2, r, s)
  {
    FittingNumbersSplit(xBits, r, s);
  }

  lemma PaddedSize(xBits: nat, n: nat)
    requires |MinimalBytes(n)| <= (xBits + 7) / 8 + 2
    ensures |PadToKeySize(xBits, MinimalBytes(n))| == (xBits + 7) / 8 + 2
  {
  }

  /** For a 256-bit key that makes 68 bytes. */
  lemma P256Size(xBits: nat, r: nat, s: nat)
    requires xBits == 256 && |MinimalBytes(r)| <= 32 && |MinimalBytes(s)| <= 32
    ensures |RawSignature(xBits, r, s)| == 68
  {
    PaddedSize(xBits, r);
    PaddedSize(xBits, s);
  }}
