/** kmsp11/util/crypto_utils.cc: the fixed-width form of ECDSA signatures (section 2.3.1 of
    PKCS #11 Current Mechanisms v2.40) over unbounded big numbers. */
module Ecdsa {
  import opened Basics

  // ---------------------------------------------------------------------------------------
  // Big-endian numbers
  // ---------------------------------------------------------------------------------------

  /** BN_bin2bn. */
  function Value(b: Bytes): nat {
    if b == [] then 0 else 256 * Value(b[..|b| - 1]) + b[|b| - 1]
  }

  /** BN_bn2bin: no leading zeros. */
  function Bin(x: nat): Bytes {
    if x == 0 then [] else Bin(x / 256) + [x % 256]
  }

  function NumBytes(x: nat): nat { |Bin(x)| }

  function Power256(n: nat): nat { if n == 0 then 1 else 256 * Power256(n - 1) }

  function Zeros(n: nat): (z: Bytes)
    ensures |z| == n
  {
    seq(n, _ => 0)
  }

  lemma {:induction false} ValueOfBin(x: nat)
    ensures Value(Bin(x)) == x
  {
    if x > 0 {
      ValueOfBin(x / 256);
      assert Bin(x)[..|Bin(x)| - 1] == Bin(x / 256);
    }
  }

  /** `x` takes at most n bytes exactly if it is below 256 to the n. */
  lemma {:induction false} FitsExactly(x: nat, n: nat)
    ensures NumBytes(x) <= n <==> x < Power256(n)
  {
    if n > 0 && x > 0 {
      FitsExactly(x / 256, n - 1);
    } else if x == 0 {
      PowerPositive(n);
    }
  }

  lemma {:induction false} PowerPositive(n: nat)
    ensures Power256(n) > 0
  {
    if n > 0 {
      PowerPositive(n - 1);
    }
  }

  lemma {:induction false} ValueBounded(b: Bytes)
    ensures Value(b) < Power256(|b|)
  {
    if b != [] {
      ValueBounded(b[..|b| - 1]);
    }
  }

  lemma {:induction false} LeadingZeros(n: nat, b: Bytes)
    ensures Value(Zeros(n) + b) == Value(b)
  {
    var s := Zeros(n) + b;
    if b != [] {
      LeadingZeros(n, b[..|b| - 1]);
      assert s[..|s| - 1] == Zeros(n) + b[..|b| - 1];
    } else if n > 0 {
      LeadingZeros(n - 1, []);
      assert s[..|s| - 1] == Zeros(n - 1) + [];
    }
  }

  /** At one width there is one string for each number. */
  lemma {:induction false} ValueInjective(a: Bytes, b: Bytes)
    requires |a| == |b| && Value(a) == Value(b)
    ensures a == b
  {
    if a != [] {
      var n := |a| - 1;
      ValueInjective(a[..n], b[..n]);
      assert a == a[..n] + [a[n]] && b == b[..n] + [b[n]];
    }
  }

  // ---------------------------------------------------------------------------------------
  // Signatures
  // ---------------------------------------------------------------------------------------

  /** `x` at width n. */
  function Fixed(x: nat, n: nat): Bytes
    requires NumBytes(x) <= n
  {
    Zeros(n - NumBytes(x)) + Bin(x)
  }

  lemma FixedMeans(x: nat, n: nat)
    requires x < Power256(n)
    ensures NumBytes(x) <= n && |Fixed(x, n)| == n && Value(Fixed(x, n)) == x
  {
    FitsExactly(x, n);
    LeadingZeros(n - NumBytes(x), Bin(x));
    ValueOfBin(x);
  }

  /** EcdsaSigLengthP1363, from the order of the group. */
  function SigLength(order: nat): nat { 2 * NumBytes(order) }

  function Encode(r: nat, s: nat, n: nat): Bytes
    requires NumBytes(r) <= n && NumBytes(s) <= n
  {
    Fixed(r, n) + Fixed(s, n)
  }

  /** The parsing half of EcdsaVerifyP1363; None is CKR_SIGNATURE_LEN_RANGE. */
  function Decode(signature: Bytes, order: nat): Option<(nat, nat)> {
    if |signature| % 2 == 1 || |signature| > SigLength(order) then None
    else var n := |signature| / 2; Some((Value(signature[..n]), Value(signature[n..])))
  }

  /** The first byte has the largest weight. */
  function Weighted(b: Bytes): nat {
    if b == [] then 0 else b[0] * Power256(|b| - 1) + Weighted(b[1..])
  }

  lemma {:induction false} ValueWeighted(b: Bytes)
    ensures Value(b) == Weighted(b)
  {
    if b != [] {
      var n := |b| - 1;
      ValueWeighted(b[..n]);
      WeightedAppend(b[..n], b[n]);
      assert b[..n] + [b[n]] == b;
    }
  }

  lemma {:induction false} WeightedAppend(b: Bytes, x: byte)
    ensures Weighted(b + [x]) == 256 * Weighted(b) + x
  {
    if b == [] {
      assert ([] + [x])[1..] == [];
    } else {
      WeightedAppend(b[1..], x);
      assert (b + [x])[1..] == b[1..] + [x];
      assert Power256(|b|) == 256 * Power256(|b| - 1);
      assert b[0] * (256 * Power256(|b| - 1)) == 256 * (b[0] * Power256(|b| - 1));
    }
  }

  /** The verifier accepts signatures of an even length up to that of the group, and reads the first
      half as r and the second as s, both big-endian. */
  lemma DecodeReads(signature: Bytes, order: nat)
    ensures Decode(signature, order).Some? <==> |signature| % 2 == 0 && |signature| <= 2 * NumBytes(order)
    ensures Decode(signature, order).Some? ==>
              var (r, s), h := Decode(signature, order).value, |signature| / 2;
              r == Weighted(signature[..h]) && s == Weighted(signature[h..])
  {
    var h := |signature| / 2;
    ValueWeighted(signature[..h]);
    ValueWeighted(signature[h..]);
  }

  /** What the signer encodes, the verifier reads back. */
  lemma DecodeEncode(r: nat, s: nat, order: nat)
    requires var n := NumBytes(order); r < Power256(n) && s < Power256(n)
    ensures var n := NumBytes(order);
            && NumBytes(r) <= n && NumBytes(s) <= n && |Encode(r, s, n)| == SigLength(order)
            && Decode(Encode(r, s, n), order) == Some((r, s))
  {
    var n := NumBytes(order);
    FixedMeans(r, n);
    FixedMeans(s, n);
    assert Encode(r, s, n)[..n] == Fixed(r, n) && Encode(r, s, n)[n..] == Fixed(s, n);
  }

  /** Whatever the verifier reads can be encoded again, and is what it read but for leading zeros in
      each half; a signature of full length is reproduced. */
  lemma EncodeDecode(signature: Bytes, order: nat)
    requires Decode(signature, order).Some?
    ensures var (r, s), n, h := Decode(signature, order).value, NumBytes(order), |signature| / 2;
            && NumBytes(r) <= n && NumBytes(s) <= n
            && Encode(r, s, n) == Zeros(n - h) + signature[..h] + Zeros(n - h) + signature[h..]
            && (|signature| == SigLength(order) ==> Encode(r, s, n) == signature)
  {
    var n, h := NumBytes(order), |signature| / 2;
    HalfRestored(signature[..h], n);
    HalfRestored(signature[h..], n);
  }

  /** Width n is the only form of its value. */
  lemma FixedUnique(x: nat, n: nat, b: Bytes)
    requires |b| == n && Value(b) == x
    ensures NumBytes(x) <= n && Fixed(x, n) == b
  {
    ValueBounded(b);
    FixedMeans(x, n);
    ValueInjective(Fixed(x, n), b);
  }

  lemma HalfRestored(b: Bytes, n: nat)
    requires |b| <= n
    ensures NumBytes(Value(b)) <= n && Fixed(Value(b), n) == Zeros(n - |b|) + b
  {
    LeadingZeros(n - |b|, b);
    FixedUnique(Value(b), n, Zeros(n - |b|) + b);
  }

  // ---------------------------------------------------------------------------------------
  // Filling the buffers
  // ---------------------------------------------------------------------------------------

  /** Writes `src` right-aligned into dest[lo .. hi]; false is an OUT_OF_RANGE error. */
  method BignumToBinary(src: nat, dest: array<byte>, lo: nat, hi: nat) returns (ok: bool)
    requires lo <= hi <= dest.Length
    modifies dest
    ensures ok <==> src < Power256(hi - lo)
    ensures ok ==> NumBytes(src) <= hi - lo && dest[lo..hi] == Fixed(src, hi - lo)
    ensures forall i | 0 <= i < dest.Length && !(ok && lo <= i < hi) :: dest[i] == old(dest[i])
  {
    FitsExactly(src, hi - lo);
    var unpadded := Bin(src);
    if hi - lo < |unpadded| {
      return false;
    }
    var padSize := hi - lo - |unpadded|;
    forall i | 0 <= i < |unpadded| {
      dest[lo + padSize + i] := unpadded[i];
    }
    forall i | lo <= i < lo + padSize {
      dest[i] := 0;
    }
    ok := true;
    assert dest[lo..hi] == Fixed(src, hi - lo);
  }

  /** EcdsaSigAsn1ToP1363 on what the ASN.1 parser made of its input. */
  method EcdsaSigAsn1ToP1363(sig: Option<(nat, nat)>, order: nat) returns (result: Option<Bytes>)
    ensures var n := NumBytes(order);
            && (result.Some? <==> sig.Some? && sig.value.0 < Power256(n) && sig.value.1 < Power256(n))
            && (result.Some? ==>
                  && |result.value| == 2 * n && Decode(result.value, order) == sig
                  && Value(result.value[..n]) == sig.value.0 && Value(result.value[n..]) == sig.value.1)
  {
    if sig.None? {
      return None;
    }
    var (r, s) := sig.value;
    var sigLen := SigLength(order);
    var n := sigLen / 2;
    var buffer := new byte[sigLen];
    var ok := BignumToBinary(r, buffer, 0, n);
    if !ok {
      return None;
    }
    ghost var first := buffer[..n];
    ok := BignumToBinary(s, buffer, n, sigLen);
    if !ok {
      return None;
    }
    DecodeEncode(r, s, order);
    assert buffer[..n] == first && buffer[..] == buffer[..n] + buffer[n..sigLen];
    FixedMeans(r, n);
    FixedMeans(s, n);
    assert buffer[..][..n] == first && buffer[..][n..] == buffer[n..sigLen];
    result := Some(buffer[..]);
  }
}
