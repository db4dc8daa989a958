/** kmsp11/main/bridge.cc over kmsp11/session.cc, as written: a session object whose operation is
    replaced, fed and released, writing to the caller's output buffers. Each entry point is
    proved to do exactly what `Session.Step` says. C_Encrypt* and C_Decrypt* have the same code
    and share a method here, selected by `kind`. */
module Bridge {
  import opened Basics
  import opened Crypters
  import S = Session
  import F = FindOp

  /** Caller memory behind a CK_ULONG_PTR. */
  class ULong {
    var value: nat
  }

  datatype Operation = Finding(find: F.FindOp) | Crypting(crypter: Crypter)

  ghost function OutArgument(out: array?<byte>, length: ULong?): S.Out
    reads length
  {
    if length == null then S.NoLength
    else if out == null then S.Query
    else S.Buffer(length.value)
  }

  /** The caller's output memory after a call with this outcome. The caller may have passed the IV
      buffer `iv` of its own AES-GCM operation as output buffer; then the output goes on top of
      what the operation left there. */
  twostate predicate Wrote(out: array?<byte>, length: ULong?, iv: array?<byte>, outcome: S.Outcome)
    reads out, length
  {
    && (length != null ==>
          length.value == if outcome.length.Some? then outcome.length.value else old(length.value))
    && (out != null ==>
          var before := if out == iv && outcome.iv.Some? then outcome.iv.value else old(out[..]);
          out[..] == if outcome.bytes.Some? then CopyOver(before, outcome.bytes.value) else before)
  }

  class Session {
    var op: Option<Operation>
    const client: KmsClient

    constructor (client: KmsClient)
      ensures Valid() && op.None? && this.client == client
    {
      this.client, op := client, None;
    }

    ghost function Footprint(): set<object>
      reads this
    {
      match op
      case None => {}
      case Some(Finding(find)) => {find}
      case Some(Crypting(crypter)) => {crypter, crypter.iv}
    }

    ghost predicate Valid()
      reads this, Footprint()
    {
      op.Some? && op.value.Finding? ==> op.value.find.offset <= |op.value.find.objects|
    }

    ghost function AbsOp(): Option<S.Operation>
      reads this, Footprint()
    {
      match op
      case None => None
      case Some(Finding(find)) => Some(S.Finding(find.objects, find.offset))
      case Some(Crypting(crypter)) => Some(S.Crypting(crypter.Abs()))
    }

    ghost function Abs(): S.SessionState
      reads this, client, Footprint()
    {
      S.SessionState(AbsOp(), client.Abs())
    }

    predicate Holds(kind: Kind)
      reads this
    {
      op.Some? && op.value.Crypting? && op.value.crypter.params.Kind() == kind
    }

    ghost function IvBuffer(kind: Kind): array?<byte>
      reads this
    {
      if Holds(kind) then op.value.crypter.iv else null
    }

    method ReleaseOperation()
      modifies this
      ensures op == None
    {
      op := None;
    }

    // C_Decrypt, C_Encrypt.
    method Crypt(kind: Kind, data: Option<Bytes>, out: array?<byte>, length: ULong?) returns (rv: Rv)
      requires Valid()
      requires out != null && length != null ==> length.value <= out.Length
      modifies this, client, Footprint(), out, length
      ensures Valid()
      ensures var (s', outcome) := S.Step(old(Abs()), S.Crypt(kind, data, old(OutArgument(out, length))));
              && Abs() == s' && rv == outcome.rv
              && Wrote(out, length, old(IvBuffer(kind)), outcome)
              && (outcome.iv.Some? ==>
                    var iv := old(IvBuffer(kind));
                    iv != null && ((iv == out && outcome.bytes.Some?) || iv[..] == outcome.iv.value))
    {
      if data.None? || length == null {
        ReleaseOperation();
        return ArgumentsBad;
      }
      if !Holds(kind) {
        ReleaseOperation();
        return OperationNotInitialized;
      }
      var result := op.value.crypter.OneShot(client, data.value, []);
      rv := HandOut(result, out, length);
    }

    // C_DecryptFinal, C_EncryptFinal.
    method CryptFinal(kind: Kind, out: array?<byte>, length: ULong?) returns (rv: Rv)
      requires Valid()
      requires out != null && length != null ==> length.value <= out.Length
      modifies this, client, Footprint(), out, length
      ensures Valid()
      ensures var (s', outcome) := S.Step(old(Abs()), S.CryptFinal(kind, old(OutArgument(out, length))));
              && Abs() == s' && rv == outcome.rv
              && Wrote(out, length, old(IvBuffer(kind)), outcome)
              && (outcome.iv.Some? ==>
                    var iv := old(IvBuffer(kind));
                    iv != null && ((iv == out && outcome.bytes.Some?) || iv[..] == outcome.iv.value))
    {
      if length == null {
        ReleaseOperation();
        return ArgumentsBad;
      }
      if !Holds(kind) {
        ReleaseOperation();
        return OperationNotInitialized;
      }
      var result := op.value.crypter.Final(client, []);
      rv := HandOut(result, out, length);
    }

    // C_DecryptUpdate, C_EncryptUpdate.
    method CryptUpdate(kind: Kind, part: Option<Bytes>, length: ULong?) returns (rv: Rv)
      requires Valid() && kind in {Decrypt, Encrypt}
      modifies this, Footprint(), length
      ensures Valid()
      ensures var (s', outcome) := S.Step(old(Abs()), S.CryptUpdate(kind, part, length != null));
              Abs() == s' && rv == outcome.rv && Wrote(null, length, null, outcome)
    {
      if length == null {
        ReleaseOperation();
        return ArgumentsBad;
      }
      rv := Feed(kind, part);
      if part.Some? {
        length.value := 0;
      }
    }

    // C_SignUpdate.
    method SignUpdate(part: Option<Bytes>) returns (rv: Rv)
      requires Valid()
      modifies this, Footprint()
      ensures Valid()
      ensures var (s', outcome) := S.Step(old(Abs()), S.SignUpdate(part)); Abs() == s' && rv == outcome.rv
    {
      rv := Feed(Kind.Sign, part);
    }

    // C_VerifyUpdate.
    method VerifyUpdate(part: Option<Bytes>) returns (rv: Rv)
      requires Valid()
      modifies this, Footprint()
      ensures Valid()
      ensures var (s', outcome) := S.Step(old(Abs()), S.VerifyUpdate(part)); Abs() == s' && rv == outcome.rv
    {
      rv := Feed(Kind.Verify, part);
    }

    /** Common to the Update calls. */
    method Feed(kind: Kind, part: Option<Bytes>) returns (rv: Rv)
      requires Valid()
      modifies this, Footprint()
      ensures Valid()
      ensures var (s', outcome) := S.DoUpdate(old(Abs()), kind, part, true); Abs() == s' && rv == outcome.rv
    {
      if part.None? {
        ReleaseOperation();
        return ArgumentsBad;
      }
      if !Holds(kind) {
        ReleaseOperation();
        return OperationNotInitialized;
      }
      rv := op.value.crypter.Update(part.value);
      if rv != Ok {
        ReleaseOperation();
      }
    }

    // C_Sign.
    method Sign(data: Option<Bytes>, out: array?<byte>, length: ULong?) returns (rv: Rv)
      requires Valid()
      requires out != null && length != null ==> length.value <= out.Length
      modifies this, client, Footprint(), out, length
      ensures Valid()
      ensures var (s', outcome) := S.Step(old(Abs()), S.SignCall(data, old(OutArgument(out, length))));
              Abs() == s' && rv == outcome.rv && Wrote(out, length, null, outcome)
    {
      if data.None? || length == null {
        ReleaseOperation();
        return ArgumentsBad;
      }
      var ready;
      rv, ready := CheckSignatureBuffer(out, length);
      if ready {
        var n := op.value.crypter.params.SignatureLength();
        var result := op.value.crypter.OneShot(client, data.value, []);
        rv := HandSignature(result, out, length, n);
      }
    }

    // C_SignFinal.
    method SignFinal(out: array?<byte>, length: ULong?) returns (rv: Rv)
      requires Valid()
      requires out != null && length != null ==> length.value <= out.Length
      modifies this, client, Footprint(), out, length
      ensures Valid()
      ensures var (s', outcome) := S.Step(old(Abs()), S.SignFinal(old(OutArgument(out, length))));
              Abs() == s' && rv == outcome.rv && Wrote(out, length, null, outcome)
    {
      if length == null {
        ReleaseOperation();
        return ArgumentsBad;
      }
      var ready;
      rv, ready := CheckSignatureBuffer(out, length);
      if ready {
        var n := op.value.crypter.params.SignatureLength();
        var result := op.value.crypter.Final(client, []);
        rv := HandSignature(result, out, length, n);
      }
    }

    /** The checks of C_Sign and C_SignFinal that come before signing. */
    method CheckSignatureBuffer(out: array?<byte>, length: ULong) returns (rv: Rv, ready: bool)
      requires Valid()
      modifies this, length
      ensures Valid()
      ensures ready ==> && old(Holds(Kind.Sign)) && op == old(op) && length.value == old(length.value)
                        && out != null && op.value.crypter.params.SignatureLength() <= length.value
      ensures !ready ==>
                if !old(Holds(Kind.Sign)) then
                  op == None && rv == OperationNotInitialized && length.value == old(length.value)
                else
                  && op == old(op)
                  && var n := op.value.crypter.params.SignatureLength();
                  && length.value == n
                  && rv == (if out == null then Ok else BufferTooSmall)
                  && (out == null || old(length.value) < n)
    {
      if !Holds(Kind.Sign) {
        ReleaseOperation();
        return OperationNotInitialized, false;
      }
      var n := op.value.crypter.params.SignatureLength();
      if out == null {
        length.value := n;
        return Ok, false;
      }
      if length.value < n {
        length.value := n;
        return BufferTooSmall, false;
      }
      rv, ready := Ok, true;
    }

    method HandSignature(result: Result, out: array<byte>, length: ULong, n: nat) returns (rv: Rv)
      modifies this, out, length
      ensures op == None
      ensures rv == (if result.Success? then Ok else result.rv)
      ensures length.value == (if result.Success? then n else old(length.value))
      ensures out[..] == if result.Success? then CopyOver(old(out[..]), result.bytes) else old(out[..])
    {
      ReleaseOperation();
      if result.Failure? {
        return result.rv;
      }
      CopyOut(result.bytes, out);
      length.value := n;
      rv := Ok;
    }

    // C_Verify.
    method Verify(data: Option<Bytes>, signature: Option<Bytes>) returns (rv: Rv)
      requires Valid()
      modifies this, client, Footprint()
      ensures Valid()
      ensures var (s', outcome) := S.Step(old(Abs()), S.VerifyCall(data, signature)); Abs() == s' && rv == outcome.rv
    {
      if data.None? || signature.None? {
        ReleaseOperation();
        return ArgumentsBad;
      }
      if !Holds(Kind.Verify) {
        ReleaseOperation();
        return OperationNotInitialized;
      }
      var result := op.value.crypter.OneShot(client, data.value, signature.value);
      ReleaseOperation();
      rv := if result.Success? then Ok else result.rv;
    }

    // C_VerifyFinal.
    method VerifyFinal(signature: Option<Bytes>) returns (rv: Rv)
      requires Valid()
      modifies this, client, Footprint()
      ensures Valid()
      ensures var (s', outcome) := S.Step(old(Abs()), S.VerifyFinal(signature)); Abs() == s' && rv == outcome.rv
    {
      if signature.None? {
        ReleaseOperation();
        return ArgumentsBad;
      }
      if !Holds(Kind.Verify) {
        ReleaseOperation();
        return OperationNotInitialized;
      }
      var result := op.value.crypter.Final(client, signature.value);
      ReleaseOperation();
      rv := if result.Success? then Ok else result.rv;
    }

    // C_DecryptInit, C_EncryptInit, C_SignInit, C_VerifyInit. `made` is what NewDecryptOp (and so
    // on) yields for the key and mechanism, and is not asked for when the checks before fail.
    method Init(kind: Kind, keyOk: bool, hasMechanism: bool, made: Crypter?) returns (rv: Rv)
      requires Valid()
      modifies this
      ensures Valid()
      ensures var spec := if made == null then None else Some(made.Abs());
              var (s', outcome) := S.Step(old(Abs()), S.Init(kind, keyOk, hasMechanism, spec));
              Abs() == s' && rv == outcome.rv
    {
      if !keyOk {
        return KeyHandleInvalid;
      }
      if !hasMechanism {
        return ArgumentsBad;
      }
      if op.Some? {
        return OperationActive;
      }
      if made == null {
        return MechanismInvalid;
      }
      op := Some(Crypting(made));
      rv := Ok;
    }

    // C_FindObjectsInit, with the handles that Token::FindObjects returned.
    method FindObjectsInit(matching: seq<Handle>) returns (rv: Rv)
      requires Valid()
      modifies this
      ensures Valid()
      ensures var (s', outcome) := S.Step(old(Abs()), S.FindObjectsInit(matching)); Abs() == s' && rv == outcome.rv
    {
      if op.Some? {
        return OperationActive;
      }
      var find := new F.FindOp(matching);
      op := Some(Finding(find));
      rv := Ok;
    }

    // C_FindObjects.
    method FindObjects(max: nat) returns (rv: Rv, handles: seq<Handle>)
      requires Valid()
      modifies this, Footprint()
      ensures Valid()
      ensures var (s', outcome) := S.Step(old(Abs()), S.FindObjects(max));
              Abs() == s' && rv == outcome.rv && handles == outcome.handles
    {
      if op.None? || !op.value.Finding? {
        return OperationNotInitialized, [];
      }
      handles := op.value.find.Next(max);
      rv := Ok;
    }

    // C_FindObjectsFinal.
    method FindObjectsFinal() returns (rv: Rv)
      requires Valid()
      modifies this
      ensures Valid()
      ensures var (s', outcome) := S.Step(old(Abs()), S.FindObjectsFinal); Abs() == s' && rv == outcome.rv
    {
      if op.None? || !op.value.Finding? {
        return OperationNotInitialized;
      }
      op := None;
      rv := Ok;
    }

    /** The tail of C_Decrypt, C_Encrypt and their Final forms. */
    method HandOut(result: Result, out: array?<byte>, length: ULong) returns (rv: Rv)
      requires Valid() && op.Some? && op.value.Crypting?
      requires out != null ==> length.value <= out.Length
      modifies this, out, length
      ensures Valid()
      ensures var done := Done(old(op.value.crypter.Abs()), client.Abs(), result);
              var (s', outcome) := S.Deliver(done, old(OutArgument(out, length)));
              && Abs() == s' && rv == outcome.rv
              && Wrote(out, length, null, outcome)
    {
      if result.Failure? {
        ReleaseOperation();
        return result.rv;
      }
      if out == null {
        length.value := |result.bytes|;
        return Ok;
      }
      if length.value < |result.bytes| {
        length.value := |result.bytes|;
        return BufferTooSmall;
      }
      CopyOut(result.bytes, out);
      length.value := |result.bytes|;
      ReleaseOperation();
      rv := Ok;
    }

    /** std::copy into the caller's buffer. */
    method CopyOut(src: Bytes, out: array<byte>)
      modifies out
      ensures out[..] == CopyOver(old(out[..]), src)
    {
      var n := if |src| <= out.Length then |src| else out.Length;
      for i := 0 to n
        invariant forall k :: 0 <= k < i ==> out[k] == src[k]
        invariant forall k :: i <= k < out.Length ==> out[k] == old(out[k])
      {
        out[i] := src[i];
      }
    }
  }
}
