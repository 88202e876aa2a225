/**
 The encrypted envelope of internal/snvs: `iv || ciphertext || hmac`, with the
 key stream, the MAC and the key derivation left abstract.
 */
module Snvs {
  import opened ByteStrings

  type Octets = seq<bv8>

  /** AES-CTR key stream, HMAC-SHA256 and the hardware key derivation. */
  datatype Suite = Suite(
    keystream: (Octets, Octets, nat) -> bv8,
    mac: (Octets, Octets) -> Octets,
    derive: Octets -> Option<Octets>)

  const BLOCK_SIZE := 16
  const MAC_SIZE := 32

  ghost predicate Sound(c: Suite)
  {
    forall k: Octets, m: Octets :: |c.mac(k, m)| == MAC_SIZE
  }

  datatype Result = Ok(output: Octets) | NoKey | BadKey | BadLength | BadMac | Panics

  predicate AesKey(key: Octets)
  {
    |key| == 16 || |key| == 24 || |key| == 32
  }

  /** XOR with the key stream. */
  function Mask(c: Suite, key: Octets, iv: Octets, input: Octets): (m: Octets)
    ensures |m| == |input|
    ensures forall i :: 0 <= i < |input| ==> m[i] == input[i] ^ c.keystream(key, iv, i)
  {
    seq(|input|, i requires 0 <= i < |input| => input[i] ^ c.keystream(key, iv, i))
  }

  function Envelope(c: Suite, key: Octets, iv: Octets, input: Octets): Octets
  {
    var body := iv + Mask(c, key, iv, input);
    body + c.mac(key, body)
  }

  /** `encryptCTR`; a stream over a wrong IV length panics. */
  function EncryptCTR(c: Suite, key: Octets, iv: Octets, input: Octets): Result
  {
    if !AesKey(key) then BadKey
    else if |iv| != BLOCK_SIZE then Panics
    else Ok(Envelope(c, key, iv, input))
  }

  /** `decryptCTR`: the MAC is checked before the stream is used. */
  function DecryptCTR(c: Suite, key: Octets, iv: Octets, input: Octets): Result
  {
    if !AesKey(key) then BadKey
    else if |input| < MAC_SIZE then BadLength
    else
      var n := |input| - MAC_SIZE;
      if input[n..] != c.mac(key, iv + input[..n]) then BadMac
      else if |iv| != BLOCK_SIZE then Panics
      else Ok(Mask(c, key, iv, input[..n]))
  }

  function Overwrite(b: Octets, data: Octets): (r: Octets)
    requires |data| <= |b|
    ensures |r| == |b|
  {
    data + b[|data|..]
  }

  /** Go's `append` to the first `n` elements: in place while the capacity lasts, else in a new array with some more. */
  method Append(buf: array<bv8>, n: nat, tail: Octets, spare: nat) returns (out: array<bv8>)
    requires n <= buf.Length
    modifies buf
    ensures n + |tail| <= out.Length && out[..n + |tail|] == old(buf[..n]) + tail
    ensures out == buf <==> n + |tail| <= buf.Length
    ensures out == buf ==> buf[..] == Overwrite(old(buf[..]), old(buf[..n]) + tail)
    ensures out != buf ==> fresh(out) && buf[..] == old(buf[..])
  {
    if n + |tail| <= buf.Length {
      out := buf;
      for i := 0 to |tail|
        modifies buf
        invariant buf[..] == old(buf[..n]) + tail[..i] + old(buf[n + i..])
      {
        buf[n + i] := tail[i];
      }
      assert tail[..|tail|] == tail;
    } else {
      var all := buf[..n] + tail;
      out := new bv8[|all| + spare](i requires 0 <= i < |all| + spare => if i < |all| then all[i] else 0);
      assert out[..|all|] == all;
    }
  }

  /** `XORKeyStream` into the elements from `n` on. */
  method XorInto(c: Suite, key: Octets, iv: Octets, out: array<bv8>, n: nat, input: Octets)
    requires n + |input| <= out.Length
    modifies out
    ensures out[..] == old(out[..n]) + Mask(c, key, iv, input) + old(out[n + |input|..])
  {
    for i := 0 to |input|
      modifies out
      invariant out[..] == old(out[..n]) + Mask(c, key, iv, input)[..i] + old(out[n + i..])
    {
      out[n + i] := input[i] ^ c.keystream(key, iv, i);
    }
    assert Mask(c, key, iv, input)[..|input|] == Mask(c, key, iv, input);
  }

  /** What `encryptCTR` leaves in the array behind its IV: the IV, and as much of the output as the capacity allows. */
  function IvArrayAfter(c: Suite, key: Octets, b: Octets, n: nat, input: Octets): Octets
    requires n <= |b|
  {
    var body := b[..n] + Mask(c, key, b[..n], input);
    if !AesKey(key) || n != BLOCK_SIZE || |body| > |b| then b
    else if |body| + |c.mac(key, body)| > |b| then Overwrite(b, body)
    else Overwrite(b, body + c.mac(key, body))
  }

  /** Room for the ciphertext after the IV, filled in place. */
  method AppendMasked(c: Suite, key: Octets, buf: array<bv8>, n: nat, input: Octets, spare: nat) returns (out: array<bv8>)
    requires n <= buf.Length
    modifies buf
    ensures var body := old(buf[..n]) + Mask(c, key, old(buf[..n]), input);
            && |body| <= out.Length && out[..|body|] == body
            && (out == buf <==> |body| <= buf.Length)
            && (if out == buf then buf[..] == Overwrite(old(buf[..]), body) else fresh(out) && buf[..] == old(buf[..]))
  {
    ghost var was := buf[..];
    var iv := buf[..n];
    out := Append(buf, n, seq(|input|, _ => 0), spare);
    assert out[..n] == out[..n + |input|][..n] == iv;
    assert out == buf ==> out[n + |input|..] == was[n + |input|..];
    XorInto(c, key, iv, out, n, input);
  }

  /**
   `encryptCTR`: the output starts as the IV's own slice, here the first `n` elements of `buf`, so
   both appends may write into the rest of that array. The IV itself never changes.
   */
  method EncryptCtr(c: Suite, key: Octets, buf: array<bv8>, n: nat, input: Octets, spare: nat) returns (r: Result)
    requires n <= buf.Length
    modifies buf
    ensures r == EncryptCTR(c, key, old(buf[..n]), input)
    ensures buf[..] == IvArrayAfter(c, key, old(buf[..]), n, input)
    ensures buf[..n] == old(buf[..n])
  {
    ghost var was := buf[..];
    assert was[..n] == buf[..n];
    if !AesKey(key) {
      return BadKey;
    }
    if n != BLOCK_SIZE {
      return Panics;
    }
    var out := AppendMasked(c, key, buf, n, input, spare);
    var body := out[..n + |input|];
    var sum := c.mac(key, body);
    var all := Append(out, n + |input|, sum, spare);
    r := Ok(all[..n + |input| + |sum|]);
  }

  /** `decryptCTR` over a buffer. */
  method DecryptCtr(c: Suite, key: Octets, iv: Octets, input: Octets) returns (r: Result)
    ensures r == DecryptCTR(c, key, iv, input)
  {
    if !AesKey(key) {
      return BadKey;
    }
    var message := iv;
    if |input| < MAC_SIZE {
      return BadLength;
    }
    var n := |input| - MAC_SIZE;
    message := message + input[..n];
    if input[n..] != c.mac(key, message) {
      return BadMac;
    }
    if |iv| != BLOCK_SIZE {
      return Panics;
    }
    var output := new bv8[n];
    for i := 0 to n
      invariant forall k :: 0 <= k < i ==> output[k] == input[k] ^ c.keystream(key, iv, k)
    {
      output[i] := input[i] ^ c.keystream(key, iv, i);
    }
    assert output[..] == Mask(c, key, iv, input[..n]);
    return Ok(output[..]);
  }

  /** `Encrypt`: too short inputs are refused. */
  function Encrypt(c: Suite, input: Octets, diversifier: Octets, iv: Octets): Result
  {
    match c.derive(diversifier)
    case None => NoKey
    case Some(key) => if |input| < BLOCK_SIZE then BadLength else EncryptCTR(c, key, iv, input)
  }

  function Decrypt(c: Suite, input: Octets, diversifier: Octets): Result
  {
    match c.derive(diversifier)
    case None => NoKey
    case Some(key) =>
      if |input| < BLOCK_SIZE then BadLength
      else DecryptCTR(c, key, input[..BLOCK_SIZE], input[BLOCK_SIZE..])
  }

  lemma XorTwice(a: bv8, b: bv8)
    ensures (a ^ b) ^ b == a
  {
  }

  lemma MaskTwice(c: Suite, key: Octets, iv: Octets, input: Octets)
    ensures Mask(c, key, iv, Mask(c, key, iv, input)) == input
  {
    var m := Mask(c, key, iv, input);
    forall i | 0 <= i < |input|
      ensures Mask(c, key, iv, m)[i] == input[i]
    {
      XorTwice(input[i], c.keystream(key, iv, i));
    }
  }

  /** Decryption of `x` under `iv` yields `p` exactly when `iv || x` is the encryption of `p`. */
  lemma AcceptsExactlyTheImage(c: Suite, key: Octets, iv: Octets, x: Octets, p: Octets)
    requires Sound(c)
    ensures DecryptCTR(c, key, iv, x) == Ok(p) <==> EncryptCTR(c, key, iv, p) == Ok(iv + x)
  {
    if DecryptCTR(c, key, iv, x) == Ok(p) {
      DecryptedIsImage(c, key, iv, x);
    }
    if EncryptCTR(c, key, iv, p) == Ok(iv + x) {
      ImageDecrypts(c, key, iv, x, p);
    }
  }

  lemma DecryptedIsImage(c: Suite, key: Octets, iv: Octets, x: Octets)
    requires DecryptCTR(c, key, iv, x).Ok?
    ensures EncryptCTR(c, key, iv, DecryptCTR(c, key, iv, x).output) == Ok(iv + x)
  {
    var n := |x| - MAC_SIZE;
    MaskTwice(c, key, iv, x[..n]);
    assert x == x[..n] + x[n..];
    assert iv + x == (iv + x[..n]) + x[n..];
  }

  lemma ImageDecrypts(c: Suite, key: Octets, iv: Octets, x: Octets, p: Octets)
    requires Sound(c) && EncryptCTR(c, key, iv, p) == Ok(iv + x)
    ensures DecryptCTR(c, key, iv, x) == Ok(p)
  {
    var m := Mask(c, key, iv, p);
    var tag := c.mac(key, iv + m);
    assert iv + x == iv + m + tag;
    assert x == (iv + x)[|iv|..] == m + tag;
    assert x[..|m|] == m && x[|m|..] == tag;
    MaskTwice(c, key, iv, p);
  }

  /** Whatever `Encrypt` produces, `Decrypt` turns back into the input. */
  lemma EnvelopeRoundTrip(c: Suite, input: Octets, diversifier: Octets, iv: Octets)
    requires Sound(c) && Encrypt(c, input, diversifier, iv).Ok?
    ensures Decrypt(c, Encrypt(c, input, diversifier, iv).output, diversifier) == Ok(input)
  {
    var out := Encrypt(c, input, diversifier, iv).output;
    var key := c.derive(diversifier).value;
    assert out == iv + (Mask(c, key, iv, input) + c.mac(key, iv + Mask(c, key, iv, input)));
    assert out[..BLOCK_SIZE] == iv && out == iv + out[BLOCK_SIZE..];
    AcceptsExactlyTheImage(c, key, iv, out[BLOCK_SIZE..], input);
  }

  /** `Decrypt` succeeds with a full block of plaintext exactly on the outputs of `Encrypt`. */
  lemma DecryptAcceptsOnlyEnvelopes(c: Suite, input: Octets, diversifier: Octets, p: Octets)
    requires Sound(c)
    ensures Decrypt(c, input, diversifier) == Ok(p) && |p| >= BLOCK_SIZE <==>
            |input| >= BLOCK_SIZE && Encrypt(c, p, diversifier, input[..BLOCK_SIZE]) == Ok(input)
  {
    if |input| >= BLOCK_SIZE && c.derive(diversifier).Some? {
      assert input == input[..BLOCK_SIZE] + input[BLOCK_SIZE..];
      AcceptsExactlyTheImage(c, c.derive(diversifier).value, input[..BLOCK_SIZE], input[BLOCK_SIZE..], p);
    }
  }

  /** The envelope byte by byte: IV, masked input, and a MAC over both. */
  lemma EnvelopeLayout(c: Suite, input: Octets, diversifier: Octets, iv: Octets)
    ensures Encrypt(c, input, diversifier, iv).Ok? <==>
            c.derive(diversifier).Some? && |c.derive(diversifier).value| in {16, 24, 32} && |iv| == 16 && |input| >= 16
    ensures Encrypt(c, input, diversifier, iv).Ok? ==>
              var out, key, n := Encrypt(c, input, diversifier, iv).output, c.derive(diversifier).value, 16 + |input|;
              && |out| >= n && out[..16] == iv
              && (forall i :: 0 <= i < |input| ==> out[16 + i] == input[i] ^ c.keystream(key, iv, i))
              && out[n..] == c.mac(key, out[..n])
  {
    if Encrypt(c, input, diversifier, iv).Ok? {
      var out, key := Encrypt(c, input, diversifier, iv).output, c.derive(diversifier).value;
      var masked := Mask(c, key, iv, input);
      assert out[..16 + |input|] == iv + masked;
      assert out == iv + (masked + c.mac(key, iv + masked));
      forall i | 0 <= i < |input|
        ensures out[16 + i] == input[i] ^ c.keystream(key, iv, i)
      {
        assert out[16 + i] == masked[i];
      }
    }
  }

  /** Decryption succeeds exactly on a MAC over everything before it, and then unmasks what lies between. */
  lemma DecryptsExactly(c: Suite, input: Octets, diversifier: Octets)
    ensures Decrypt(c, input, diversifier).Ok? <==>
            && c.derive(diversifier).Some? && |c.derive(diversifier).value| in {16, 24, 32} && |input| >= 48
            && input[|input| - 32..] == c.mac(c.derive(diversifier).value, input[..|input| - 32])
    ensures Decrypt(c, input, diversifier).Ok? ==>
              var p, key := Decrypt(c, input, diversifier).output, c.derive(diversifier).value;
              |p| == |input| - 48 && forall i :: 0 <= i < |p| ==> p[i] == input[16 + i] ^ c.keystream(key, input[..16], i)
  {
    if c.derive(diversifier).Some? && AesKey(c.derive(diversifier).value) && |input| >= 48 {
      var n := |input| - 32;
      assert input[16..][..n - 16] == input[16..n] && input[16..][n - 16..] == input[n..];
      assert input[..16] + input[16..n] == input[..n];
    }
  }

  /** An envelope with another IV is accepted exactly if the MACs of the two messages agree. */
  lemma OtherIvIsRefused(c: Suite, key: Octets, iv: Octets, x: Octets, p: Octets, other: Octets)
    requires Sound(c) && EncryptCTR(c, key, iv, p) == Ok(iv + x) && |other| == 16
    ensures |x| >= 32
    ensures DecryptCTR(c, key, other, x).Ok? <==>
            c.mac(key, other + x[..|x| - 32]) == c.mac(key, iv + x[..|x| - 32])
  {
    ImageDecrypts(c, key, iv, x, p);
  }

  /** Which failure it is, in the order of the checks. */
  lemma FailsExactly(c: Suite, input: Octets, diversifier: Octets, iv: Octets)
    ensures var key := c.derive(diversifier);
            Encrypt(c, input, diversifier, iv).Ok?
            || Encrypt(c, input, diversifier, iv)
               == if key.None? then NoKey
                  else if |input| < 16 then BadLength
                  else if |key.value| !in {16, 24, 32} then BadKey
                  else Panics
    ensures var key := c.derive(diversifier);
            Decrypt(c, input, diversifier).Ok?
            || Decrypt(c, input, diversifier)
               == if key.None? then NoKey
                  else if |input| < 16 then BadLength
                  else if |key.value| !in {16, 24, 32} then BadKey
                  else if |input| < 48 then BadLength
                  else BadMac
  {
  }
}
