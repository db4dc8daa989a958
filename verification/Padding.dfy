/** kmsp11/util/padding.cc: PKCS #7 padding to 16-byte blocks (section 6.3 of RFC 5652). */
module Padding {
  import opened Basics

  const BLOCK: nat := 16

  function Repeat(value: byte, n: nat): (s: Bytes)
    ensures |s| == n && forall i :: 0 <= i < n ==> s[i] == value
  {
    seq(n, i => value)
  }

  function Pad(data: Bytes): Bytes {
    var n := BLOCK - |data| % BLOCK;
    data + Repeat(n, n)
  }

  /** None is the internal error "invalid plaintext padding". */
  function Unpad(data: Bytes): Option<Bytes>
    requires data != []
  {
    var n := data[|data| - 1];
    if n == 0 || n > |data| || n > BLOCK then None
    else if exists i :: |data| - n <= i < |data| && data[i] != n then None
    else Some(data[..|data| - n])
  }

  /** Up to the next multiple of 16 bytes. */
  lemma PadAligned(data: Bytes)
    ensures |Pad(data)| % 16 == 0 && |data| < |Pad(data)| <= |data| + 16
    ensures |data| % 16 == 0 ==> |Pad(data)| == |data| + 16
  {
  }

  /** The data, and then bytes that each say how many they are. */
  lemma PadBytes(data: Bytes)
    ensures |data| < |Pad(data)| && Pad(data)[..|data|] == data
    ensures forall i | |data| <= i < |Pad(data)| :: Pad(data)[i] == |Pad(data)| - |data|
  {
  }

  lemma UnpadPad(data: Bytes)
    ensures Unpad(Pad(data)) == Some(data)
  {
  }

  /** One byte is not a padding of anything, and Unpad accepts it. */
  lemma UnpadAcceptsMore()
    ensures Unpad([1]) == Some([]) && forall x :: Pad(x) != [1]
  {
    forall x ensures Pad(x) != [1] {
      PadAligned(x);
    }
  }

  /** Unpad accepts an input whose length is a multiple of the block size exactly when it is
      the padding of something, and then of one thing only. On any other length it also accepts
      inputs that are no padding: there what it returns never pads back to the input. */
  lemma UnpadExactlyPadded(data: Bytes)
    requires data != []
    ensures |data| % BLOCK == 0 ==> (Unpad(data).Some? <==> exists x :: data == Pad(x))
    ensures forall x :: data == Pad(x) ==> Unpad(data) == Some(x)
    ensures Unpad(data).Some? ==> (Pad(Unpad(data).value) == data <==> |data| % BLOCK == 0)
  {
    forall x | data == Pad(x) ensures Unpad(data) == Some(x) {
      UnpadPad(x);
    }
    if Unpad(data).Some? {
      var x, n := Unpad(data).value, data[|data| - 1];
      PadAligned(x);
      if |data| % BLOCK == 0 {
        assert |x| % BLOCK == (BLOCK - n) % BLOCK;
        assert data == x + Repeat(n, n);
        assert data == Pad(x);
      }
    }
  }
}
