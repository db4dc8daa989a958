/** What a caller of the PKCS #11 API gets, in terms of what Cloud KMS answers (kmsp11/main/bridge.cc
    over kmsp11/operation/): which request a call sends, and which answer makes it succeed. */
module Outcomes {
  import opened Basics
  import opened Padding
  import opened Crypters
  import opened Session

  /** Output of this many bytes, handed to the caller as the output argument asks. */
  predicate Delivers(out: Out, bytes: Bytes, outcome: Outcome) {
    && outcome.length == Some(|bytes|)
    && match out
       case NoLength => false
       case Query => outcome.rv == Ok && outcome.bytes == None
       case Buffer(size) =>
         if size < |bytes| then outcome.rv == BufferTooSmall && outcome.bytes == None
         else outcome.rv == Ok && outcome.bytes == Some(bytes)
  }

  predicate Fails(rv: Rv, outcome: Outcome) { outcome.rv == rv && outcome.bytes == None && outcome.length == None }

  /** The call has sent just this request. */
  ghost predicate Sent(kms: Kms, request: Request, kms': Kms) { kms'.respond == kms.respond && kms'.log == kms.log + [request] }

  // ---------------------------------------------------------------------------------------
  // Verification
  // ---------------------------------------------------------------------------------------

  /** The verdict on an answer from KMS. */
  predicate Judged(reply: Reply, rv: Rv) {
    && (rv == Ok <==> reply == Verified(true))
    && (rv == SignatureInvalid <==> reply == Verified(false))
    && (rv == DeviceError <==> !reply.Verified?)
  }

  /** C_Verify with an HMAC key. */
  lemma HmacVerifyOutcome(s: SessionState, name: string, length: nat, iv: Bytes, data: Bytes, signature: Bytes)
    requires s.op == Some(Crypting(State(HmacVerifier(name, length), iv, None)))
    ensures var (s', outcome) := Step(s, VerifyCall(Some(data), Some(signature)));
            var request := MacVerify(name, data, signature);
            && s'.op == None
            && if |data| > 65536 then outcome.rv == DataLenRange && s'.kms == s.kms
               else if |signature| != length then outcome.rv == GeneralError && s'.kms == s.kms
               else Sent(s.kms, request, s'.kms) && Judged(s.kms.respond(|s.kms.log|, request), outcome.rv)
  {
  }

  /** C_Verify with a digesting mechanism. */
  lemma DigestVerifyOutcome(
    s: SessionState, name: string, length: nat, digest: Bytes -> Bytes, iv: Bytes, data: Bytes, signature: Bytes)
    requires s.op == Some(Crypting(State(DigestingVerifier(name, length, digest), iv, None)))
    ensures var (s', outcome) := Step(s, VerifyCall(Some(data), Some(signature)));
            var request := InnerCall(name, digest(data), signature);
            s'.op == None && Sent(s.kms, request, s'.kms) && Judged(s.kms.respond(|s.kms.log|, request), outcome.rv)
  {
  }

  /** C_VerifyUpdate for every part, then C_VerifyFinal, with an HMAC key. */
  lemma HmacVerifyFinalOutcome(s: SessionState, name: string, length: nat, iv: Bytes, parts: seq<Bytes>, signature: Bytes)
    requires s.op == Some(Crypting(State(HmacVerifier(name, length), iv, None))) && parts != []
    ensures var (fed, rv) := FeedSession(s, Verify, parts);
            if |Concat(parts)| > 65536 then rv == DataLenRange && fed == s.(op := None)
            else
              var (s', outcome) := Step(fed, VerifyFinal(Some(signature)));
              var request := MacVerify(name, Concat(parts), signature);
              && rv == Ok && s'.op == None
              && if |signature| != length then outcome.rv == GeneralError && s'.kms == s.kms
                 else Sent(s.kms, request, s'.kms) && Judged(s.kms.respond(|s.kms.log|, request), outcome.rv)
  {
    var c := s.op.value.state;
    SessionChunking(s, c, parts, Query, signature);
    HmacVerifyOutcome(s, name, length, iv, Concat(parts), signature);
  }

  /** The same with a digesting mechanism. */
  lemma DigestVerifyFinalOutcome(
    s: SessionState, name: string, length: nat, digest: Bytes -> Bytes, iv: Bytes, parts: seq<Bytes>, signature: Bytes)
    requires s.op == Some(Crypting(State(DigestingVerifier(name, length, digest), iv, None))) && parts != []
    ensures var (fed, rv) := FeedSession(s, Verify, parts);
            var (s', outcome) := Step(fed, VerifyFinal(Some(signature)));
            var request := InnerCall(name, digest(Concat(parts)), signature);
            && rv == Ok && s'.op == None
            && Sent(s.kms, request, s'.kms) && Judged(s.kms.respond(|s.kms.log|, request), outcome.rv)
  {
    SessionChunking(s, s.op.value.state, parts, Query, signature);
    DigestVerifyOutcome(s, name, length, digest, iv, Concat(parts), signature);
  }

  // ---------------------------------------------------------------------------------------
  // Signing
  // ---------------------------------------------------------------------------------------

  /** A signature is asked for, and the output argument has room for it. */
  predicate SignatureRoom(out: Out, length: nat) { out.Buffer? && out.size >= length }

  /** What C_Sign gives when there is no room, and nothing is sent. */
  ghost predicate SignatureLengthOnly(s: SessionState, s': SessionState, out: Out, length: nat, outcome: Outcome) {
    && s' == s && outcome.length == Some(length) && outcome.bytes == None
    && outcome.rv == if out.Query? then Ok else BufferTooSmall
  }

  predicate Signs(reply: Reply, length: nat, outcome: Outcome) {
    if reply.Signed? then outcome.rv == Ok && outcome.bytes == Some(reply.signature) && outcome.length == Some(length)
    else Fails(DeviceError, outcome)
  }

  /** C_Sign with an HMAC key. */
  lemma HmacSignOutcome(s: SessionState, name: string, length: nat, iv: Bytes, data: Bytes, out: Out)
    requires s.op == Some(Crypting(State(HmacSigner(name, length), iv, None))) && !out.NoLength?
    ensures var (s', outcome) := Step(s, SignCall(Some(data), out));
            var request := MacSign(name, data);
            if !SignatureRoom(out, length) then SignatureLengthOnly(s, s', out, length, outcome)
            else if |data| > 65536 then Fails(DataLenRange, outcome) && s' == s.(op := None)
            else
              s'.op == None && Sent(s.kms, request, s'.kms) && Signs(s.kms.respond(|s.kms.log|, request), length, outcome)
  {
  }

  /** C_Sign with a digesting mechanism. */
  lemma DigestSignOutcome(s: SessionState, name: string, length: nat, digest: Bytes -> Bytes, iv: Bytes, data: Bytes, out: Out)
    requires s.op == Some(Crypting(State(DigestingSigner(name, length, digest), iv, None))) && !out.NoLength?
    ensures var (s', outcome) := Step(s, SignCall(Some(data), out));
            var request := InnerCall(name, digest(data), []);
            if !SignatureRoom(out, length) then SignatureLengthOnly(s, s', out, length, outcome)
            else
              s'.op == None && Sent(s.kms, request, s'.kms) && Signs(s.kms.respond(|s.kms.log|, request), length, outcome)
  {
  }

  // ---------------------------------------------------------------------------------------
  // Encryption and decryption
  // ---------------------------------------------------------------------------------------

  /** What AES encryption under a caller's IV does with an answer: KMS must have used that IV. */
  predicate EncryptsUnder(reply: Reply, iv: Bytes, out: Out, outcome: Outcome) {
    if !reply.Encrypted? then Fails(DeviceError, outcome)
    else if reply.iv != iv then Fails(GeneralError, outcome)
    else Delivers(out, reply.ciphertext, outcome)
  }

  /** C_Encrypt under CKM_AES_CBC, CKM_AES_CBC_PAD and CKM_AES_CTR. */
  lemma EncryptOutcome(s: SessionState, mode: AesMode, name: string, aad: Bytes, iv: Bytes, data: Bytes, out: Out)
    requires s.op == Some(Crypting(State(AesEncrypter(mode, name, aad), iv, None))) && !mode.Gcm? && !out.NoLength?
    ensures var (s', outcome) := Step(s, Crypt(Encrypt, Some(data), out));
            if |data| > 65536 || (mode == Cbc(false) && |data| % 16 != 0)
            then Fails(DataLenRange, outcome) && s' == s.(op := None)
            else
              var plaintext := match mode case Cbc(padded) => (if padded then Pad(data) else data) case _ => data;
              var request := RawEncrypt(name, plaintext, iv, []);
              Sent(s.kms, request, s'.kms) && EncryptsUnder(s.kms.respond(|s.kms.log|, request), iv, out, outcome)
  {
  }

  /** C_Encrypt under CKM_AES_GCM: the IV comes from KMS and ends up in the caller's IV buffer. */
  lemma GcmEncryptOutcome(s: SessionState, name: string, aad: Bytes, iv: Bytes, data: Bytes, out: Out)
    requires s.op == Some(Crypting(State(AesEncrypter(Gcm, name, aad), iv, None))) && !out.NoLength?
    ensures var (s', outcome) := Step(s, Crypt(Encrypt, Some(data), out));
            if |data| > 65536 then Fails(DataLenRange, outcome) && s' == s.(op := None)
            else
              var request := RawEncrypt(name, data, [], aad);
              var reply := s.kms.respond(|s.kms.log|, request);
              && Sent(s.kms, request, s'.kms)
              && if !reply.Encrypted? then Fails(DeviceError, outcome) && outcome.iv == Some(iv)
                 else Delivers(out, reply.ciphertext, outcome) && (|reply.iv| == |iv| ==> outcome.iv == Some(reply.iv))
  {
  }

  /** C_Decrypt under CKM_AES_CBC, CKM_AES_CTR and CKM_AES_GCM. */
  lemma DecryptOutcome(s: SessionState, mode: AesMode, name: string, aad: Bytes, iv: Bytes, data: Bytes, out: Out)
    requires s.op == Some(Crypting(State(AesDecrypter(mode, name, aad), iv, None))) && mode != Cbc(true) && !out.NoLength?
    ensures var (s', outcome) := Step(s, Crypt(Decrypt, Some(data), out));
            if |data| > 65552 then Fails(DataLenRange, outcome) && s' == s.(op := None)
            else
              var request := RawDecrypt(name, data, iv, if mode == Gcm then aad else []);
              var reply := s.kms.respond(|s.kms.log|, request);
              && Sent(s.kms, request, s'.kms)
              && if reply.Decrypted? then Delivers(out, reply.plaintext, outcome) else Fails(DeviceError, outcome)
  {
  }

  /** An answer that is a padding is delivered without it, and any other answer of whole blocks is
      refused. */
  ghost predicate DeliversUnpadded(plaintext: Bytes, out: Out, outcome: Outcome) {
    && (forall x | plaintext == Pad(x) :: Delivers(out, x, outcome))
    && (plaintext != [] && |plaintext| % 16 == 0 && (forall x :: Pad(x) != plaintext) ==> Fails(GeneralError, outcome))
  }

  lemma UnpadDelivers(plaintext: Bytes, out: Out, outcome: Outcome)
    requires plaintext != []
    requires match Unpad(plaintext) case Some(x) => Delivers(out, x, outcome) case None => Fails(GeneralError, outcome)
    ensures DeliversUnpadded(plaintext, out, outcome)
  {
    UnpadExactlyPadded(plaintext);
  }

  /** C_Decrypt under CKM_AES_CBC_PAD. */
  lemma PadDecryptOutcome(s: SessionState, name: string, aad: Bytes, iv: Bytes, data: Bytes, out: Out)
    requires s.op == Some(Crypting(State(AesDecrypter(Cbc(true), name, aad), iv, None))) && !out.NoLength?
    ensures var (s', outcome) := Step(s, Crypt(Decrypt, Some(data), out));
            if |data| > 65552 then Fails(DataLenRange, outcome) && s' == s.(op := None)
            else
              var request := RawDecrypt(name, data, iv, []);
              var reply := s.kms.respond(|s.kms.log|, request);
              && Sent(s.kms, request, s'.kms)
              && if reply.Decrypted? then DeliversUnpadded(reply.plaintext, out, outcome) else Fails(DeviceError, outcome)
  {
    var reply := s.kms.respond(|s.kms.log|, RawDecrypt(name, data, iv, []));
    var outcome := Step(s, Crypt(Decrypt, Some(data), out)).1;
    if |data| <= 65552 && reply.Decrypted? {
      if reply.plaintext != [] {
        UnpadDelivers(reply.plaintext, out, outcome);
      } else {
        PadNotEmpty();
      }
    }
  }

  lemma PadNotEmpty()
    ensures forall x :: Pad(x) != []
  {
    forall x ensures Pad(x) != [] {
      PadAligned(x);
    }
  }

  /** One-shot calls that KMS serves without buffering or digesting. */
  lemma SinglePartOutcome(s: SessionState, kind: Kind, name: string, length: nat, iv: Bytes, data: Bytes, out: Out, signature: Bytes)
    requires s.op == Some(Crypting(State(SinglePart(kind, name, length), iv, None))) && !out.NoLength?
    requires kind == Sign ==> SignatureRoom(out, length)
    ensures var (s', outcome) := Step(s, OnceCall(kind, data, out, signature));
            var request := InnerCall(name, data, if kind == Verify then signature else []);
            var reply := s.kms.respond(|s.kms.log|, request);
            && Sent(s.kms, request, s'.kms)
            && match kind
               case Verify => Judged(reply, outcome.rv)
               case Sign => Signs(reply, length, outcome)
               case Encrypt => if reply.Encrypted? then Delivers(out, reply.ciphertext, outcome) else Fails(DeviceError, outcome)
               case Decrypt => if reply.Decrypted? then Delivers(out, reply.plaintext, outcome) else Fails(DeviceError, outcome)
  {
  }

  // ---------------------------------------------------------------------------------------
  // Calls that are refused
  // ---------------------------------------------------------------------------------------

  predicate NullArgument(call: Call) {
    match call
    case Crypt(_, data, out) => data.None? || out.NoLength?
    case CryptUpdate(_, part, hasLength) => part.None? || !hasLength
    case CryptFinal(_, out) => out.NoLength?
    case SignCall(data, out) => data.None? || out.NoLength?
    case SignUpdate(part) => part.None?
    case SignFinal(out) => out.NoLength?
    case VerifyCall(data, signature) => data.None? || signature.None?
    case VerifyUpdate(part) => part.None?
    case VerifyFinal(signature) => signature.None?
    case _ => false
  }

  function KindOf(call: Call): Kind {
    match call
    case Crypt(kind, _, _) => kind
    case CryptUpdate(kind, _, _) => kind
    case CryptFinal(kind, _) => kind
    case VerifyCall(_, _) => Verify
    case VerifyUpdate(_) => Verify
    case VerifyFinal(_) => Verify
    case _ => Sign
  }

  /** A cryptographic call with a null argument, or without an operation of its own kind, is refused
      with the code that says which, ends whatever operation there is, and sends nothing. */
  lemma RefusedCalls(s: SessionState, call: Call)
    requires Consumes(call)
    requires NullArgument(call) || s.op.None? || s.op.value.Finding? || s.op.value.state.Kind() != KindOf(call)
    ensures var (s', outcome) := Step(s, call);
            && outcome.rv == (if NullArgument(call) then ArgumentsBad else OperationNotInitialized)
            && outcome.bytes == None && s' == s.(op := None)
  {
  }

  /** A multi-part operation is not ended by a one-shot call (but for AES decryption), nor a Final
      made without an Update; neither sends anything. */
  lemma MixedCalls(s: SessionState, c: State, data: Bytes, out: Out, signature: Bytes)
    requires s.op == Some(Crypting(c)) && !out.NoLength? && !c.params.SinglePart?
    requires c.Kind() == Sign ==> SignatureRoom(out, c.params.SignatureLength())
    ensures c.buffer.Some? && !c.params.AesDecrypter? ==>
              var (s', outcome) := Step(s, OnceCall(c.Kind(), data, out, signature));
              outcome.rv == FunctionFailed && s' == s.(op := None)
    ensures c.buffer.None? ==>
              var (s', outcome) := Step(s, FinalCall(c.Kind(), out, signature));
              outcome.rv == FunctionFailed && s' == s.(op := None)
  {
  }

  /** The Update calls: what the operation then holds, and that encryption and decryption deliver
      nothing yet. Operations that take their data in one part refuse them. */
  lemma UpdateOutcome(s: SessionState, c: State, part: Bytes)
    requires s.op == Some(Crypting(c))
    ensures var (s', outcome) := Step(s, UpdateCall(c.Kind(), part));
            var data := (if c.buffer.Some? then c.buffer.value else []) + part;
            && s'.kms == s.kms && outcome.bytes == None
            && outcome.length == (if c.Kind() == Encrypt || c.Kind() == Decrypt then Some(0) else None)
            && if c.params.SinglePart? then outcome.rv == FunctionFailed && s'.op == None
               else if c.params.Fits(|data|) then outcome.rv == Ok && s'.op == Some(Crypting(c.(buffer := Some(data))))
               else outcome.rv == DataLenRange && s'.op == None
  {
  }

  /** The most data an operation takes: 64 KiB to encrypt or to authenticate, 16 bytes more to decrypt,
      and any amount to digest. */
  lemma Limits(params: Params, n: nat)
    ensures params.Fits(n) <==>
              && ((params.AesEncrypter? || params.HmacSigner? || params.HmacVerifier?) ==> n <= 65536)
              && (params.AesDecrypter? ==> n <= 65552)
  {
  }

  /** The Init calls: the checks in their order. */
  lemma InitOutcome(s: SessionState, kind: Kind, keyOk: bool, hasMechanism: bool, made: Option<State>)
    ensures var (s', outcome) := Step(s, Init(kind, keyOk, hasMechanism, made));
            && (outcome.rv == KeyHandleInvalid <==> !keyOk)
            && (outcome.rv == ArgumentsBad <==> keyOk && !hasMechanism)
            && (outcome.rv == OperationActive <==> keyOk && hasMechanism && s.op.Some?)
            && (outcome.rv == MechanismInvalid <==> keyOk && hasMechanism && s.op.None? && made.None?)
            && (outcome.rv == Ok ==> made.Some? && s' == s.(op := Some(Crypting(made.value))))
            && (outcome.rv != Ok ==> s' == s)
  {
  }
}
