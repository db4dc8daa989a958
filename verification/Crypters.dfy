/** kmsp11/operation/: the multi-part encrypters, decrypters, signers and verifiers that send
    their work to Cloud KMS, as state functions, and the mutable object behind them.

    aes_cbc.cc, aes_ctr.cc, aes_gcm.cc, hmac.cc, kms_digesting_signer.cc and
    kms_digesting_verifier.cc each define their own class; they share one protocol and differ
    in limits, checks and the request they send, which is what `Params` selects. */
module Crypters {
  import opened Basics
  import opened Padding

  datatype Kind = Decrypt | Encrypt | Sign | Verify

  datatype Rv =
    | Ok | ArgumentsBad | BufferTooSmall | DataLenRange | DeviceError | FunctionFailed
    | GeneralError | KeyHandleInvalid | MechanismInvalid | OperationActive
    | OperationNotInitialized | SignatureInvalid | UndefinedBehaviour

  const MAX_PLAINTEXT: nat := 64 * 1024
  const MAX_CIPHERTEXT: nat := MAX_PLAINTEXT + 16
  const MAX_MAC_DATA: nat := 64 * 1024

  // ---------------------------------------------------------------------------------------
  // Cloud KMS
  // ---------------------------------------------------------------------------------------

  datatype Request =
    | RawEncrypt(name: string, plaintext: Bytes, iv: Bytes, aad: Bytes)
    | RawDecrypt(name: string, ciphertext: Bytes, iv: Bytes, aad: Bytes)
    | MacSign(name: string, data: Bytes)
    | MacVerify(name: string, data: Bytes, mac: Bytes)
    | InnerCall(name: string, input: Bytes, signature: Bytes)

  datatype Reply =
    | Failed | Encrypted(ciphertext: Bytes, iv: Bytes) | Decrypted(plaintext: Bytes)
    | Signed(signature: Bytes) | Verified(valid: bool)

  /** KMS answers may vary from call to call; `log` holds the requests made so far. */
  datatype Kms = Kms(respond: (nat, Request) -> Reply, log: seq<Request>) {
    function Answer(request: Request): Reply { respond(|log|, request) }

    function After(request: Request): Kms { Kms(respond, log + [request]) }
  }

  // ---------------------------------------------------------------------------------------
  // Crypters as values
  // ---------------------------------------------------------------------------------------

  datatype AesMode = Cbc(padded: bool) | Ctr | Gcm

  /** What is fixed when the operation starts. `digest` stands for the message digest,
      wrapped in a DigestInfo for raw RSA keys. */
  datatype Params =
    | AesEncrypter(mode: AesMode, name: string, aad: Bytes)
    | AesDecrypter(mode: AesMode, name: string, aad: Bytes)
    | HmacSigner(name: string, length: nat)
    | HmacVerifier(name: string, length: nat)
    | DigestingSigner(name: string, length: nat, digest: Bytes -> Bytes)
    | DigestingVerifier(name: string, length: nat, digest: Bytes -> Bytes)
    | SinglePart(kind: Kind, name: string, length: nat)
  {
    function Kind(): Kind {
      match this
      case AesEncrypter(_, _, _) => Encrypt
      case AesDecrypter(_, _, _) => Decrypt
      case HmacSigner(_, _) => Sign
      case DigestingSigner(_, _, _) => Sign
      case HmacVerifier(_, _) => Verify
      case DigestingVerifier(_, _, _) => Verify
      case SinglePart(kind, _, _) => kind
    }

    /** signature_length(); meaningful for signers and verifiers. */
    function SignatureLength(): nat {
      if AesEncrypter? || AesDecrypter? then 0 else length
    }

    /** The most bytes the operation takes in all; None if it streams. */
    function Limit(): Option<nat> {
      match this
      case AesEncrypter(_, _, _) => Some(MAX_PLAINTEXT)
      case AesDecrypter(_, _, _) => Some(MAX_CIPHERTEXT)
      case HmacSigner(_, _) => Some(MAX_MAC_DATA)
      case HmacVerifier(_, _) => Some(MAX_MAC_DATA)
      case _ => None
    }

    predicate Fits(n: nat) { Limit().Some? ==> n <= Limit().value }
  }

  /** `iv`: the initialization vector; for AES-GCM encryption, the caller's IV buffer.
      `buffer`: the data (or digest context) of a multi-part operation, once it has begun. */
  datatype State = State(params: Params, iv: Bytes, buffer: Option<Bytes>) {
    function Kind(): Kind { params.Kind() }

    function Buffered(): Bytes { if buffer.Some? then buffer.value else [] }
  }

  datatype Result = Success(bytes: Bytes) | Failure(rv: Rv)

  datatype Done = Done(state: State, kms: Kms, result: Result)

  /** std::copy of `src` over the front of a buffer holding `dest`, which KMS replies fit. */
  function CopyOver(dest: Bytes, src: Bytes): (r: Bytes)
    ensures |r| == |dest|
    ensures |src| == |dest| ==> r == src
  {
    if |src| <= |dest| then src + dest[|src|..] else src[..|dest|]
  }

  /** What is not written over stays. */
  lemma CopyOverMeans(dest: Bytes, src: Bytes)
    requires |src| <= |dest|
    ensures CopyOver(dest, src)[..|src|] == src && CopyOver(dest, src)[|src|..] == dest[|src|..]
  {
  }

  // EncryptUpdate, DecryptUpdate, SignUpdate, VerifyUpdate.
  function Absorb(s: State, part: Bytes): (State, Rv) {
    if s.params.SinglePart? then (s, FunctionFailed)
    else if !s.params.Fits(|part| + |s.Buffered()|) then (s.(buffer := Some(s.Buffered())), DataLenRange)
    else (s.(buffer := Some(s.Buffered() + part)), Ok)
  }

  /** The request the *Internal methods send for the whole of the data. */
  function RequestFor(s: State, data: Bytes, signature: Bytes): Request {
    match s.params
    case AesEncrypter(mode, name, aad) =>
      RawEncrypt(name, if mode == Cbc(true) then Pad(data) else data,
                 if mode.Gcm? then [] else s.iv, if mode.Gcm? then aad else [])
    case AesDecrypter(mode, name, aad) => RawDecrypt(name, data, s.iv, if mode.Gcm? then aad else [])
    case HmacSigner(name, _) => MacSign(name, data)
    case HmacVerifier(name, _) => MacVerify(name, data, signature)
    case DigestingSigner(name, _, digest) => InnerCall(name, digest(data), [])
    case DigestingVerifier(name, _, digest) => InnerCall(name, digest(data), signature)
    case SinglePart(_, name, _) => InnerCall(name, data, signature)
  }

  /** The checks the *Internal methods make before sending anything. */
  function Check(s: State, data: Bytes, signature: Bytes): Rv {
    match s.params
    case AesEncrypter(mode, _, _) =>
      if mode == Cbc(false) && |data| % BLOCK != 0 then DataLenRange
      else if mode.Ctr? && |data| > MAX_PLAINTEXT then DataLenRange
      else Ok
    case HmacVerifier(_, length) => if |signature| != length then GeneralError else Ok
    case _ => Ok
  }

  /** How a reply becomes the result and, for AES-GCM, what is left in the IV buffer. */
  function Interpret(s: State, reply: Reply): (State, Result) {
    match s.params
    case AesEncrypter(mode, _, _) =>
      if !reply.Encrypted? then (s, Failure(DeviceError))
      else if mode.Gcm? then (s.(iv := CopyOver(s.iv, reply.iv)), Success(reply.ciphertext))
      else if reply.iv != s.iv then (s, Failure(GeneralError))
      else (s, Success(reply.ciphertext))
    case AesDecrypter(mode, _, _) =>
      if !reply.Decrypted? then (s, Failure(DeviceError))
      else if mode != Cbc(true) then (s, Success(reply.plaintext))
      else if reply.plaintext == [] then (s, Failure(UndefinedBehaviour))
      else
        (s, match Unpad(reply.plaintext)
            case None => Failure(GeneralError)
            case Some(data) => Success(data))
    case _ =>
      if s.Kind() == Verify then
        (s, if reply == Verified(true) then Success([])
            else if reply.Verified? then Failure(SignatureInvalid)
            else Failure(DeviceError))
      else if s.Kind() == Sign then
        (s, if reply.Signed? then Success(reply.signature) else Failure(DeviceError))
      else if s.Kind() == Encrypt then
        (s, if reply.Encrypted? then Success(reply.ciphertext) else Failure(DeviceError))
      else
        (s, if reply.Decrypted? then Success(reply.plaintext) else Failure(DeviceError))
  }

  // EncryptInternal, DecryptInternal, SignInternal, VerifyInternal.
  function Complete(s: State, kms: Kms, data: Bytes, signature: Bytes): Done {
    if Check(s, data, signature) != Ok then Done(s, kms, Failure(Check(s, data, signature)))
    else
      var request := RequestFor(s, data, signature);
      var (s', result) := Interpret(s, kms.Answer(request));
      Done(s', kms.After(request), result)
  }

  // Encrypt, Decrypt, Sign, Verify. The AES decrypters, unlike the others, do not refuse to
  // end a multi-part operation this way.
  function RunOnce(s: State, kms: Kms, data: Bytes, signature: Bytes): Done {
    if s.buffer.Some? && !s.params.AesDecrypter? then Done(s, kms, Failure(FunctionFailed))
    else if !s.params.Fits(|data|) then Done(s, kms, Failure(DataLenRange))
    else Complete(s, kms, data, signature)
  }

  // EncryptFinal, DecryptFinal, SignFinal, VerifyFinal.
  function Finish(s: State, kms: Kms, signature: Bytes): Done {
    if s.params.SinglePart? || s.buffer.None? then Done(s, kms, Failure(FunctionFailed))
    else Complete(s, kms, s.buffer.value, signature)
  }

  // ---------------------------------------------------------------------------------------
  // Chunking independence
  // ---------------------------------------------------------------------------------------

  function Concat(parts: seq<Bytes>): Bytes {
    if parts == [] then [] else Concat(parts[..|parts| - 1]) + parts[|parts| - 1]
  }

  /** Feeding parts one after the other, stopping at the first that is refused. */
  function Feed(s: State, parts: seq<Bytes>): (State, Rv) {
    if parts == [] then (s, Ok)
    else
      var (before, rv) := Feed(s, parts[..|parts| - 1]);
      if rv != Ok then (before, rv) else Absorb(before, parts[|parts| - 1])
  }

  /** Feeding succeeds exactly when the concatenation is within the limit, and then leaves
      the concatenation buffered. */
  lemma {:induction false} FeedConcatenates(s: State, parts: seq<Bytes>)
    requires s.buffer.None? && !s.params.SinglePart? && parts != []
    ensures var (s', rv) := Feed(s, parts);
            if s.params.Fits(|Concat(parts)|)
            then rv == Ok && s' == s.(buffer := Some(Concat(parts)))
            else rv == DataLenRange
  {
    var init := parts[..|parts| - 1];
    if init == [] {
      assert Concat(parts) == parts[0];
    } else {
      FeedConcatenates(s, init);
    }
  }

  /** Feeding any non-empty list of parts and finishing makes the same request, with the same
      outcome, as the one-shot call on the concatenation; too much data is refused either way. */
  lemma ChunkingIndependence(s: State, kms: Kms, parts: seq<Bytes>, signature: Bytes)
    requires s.buffer.None? && !s.params.SinglePart? && parts != []
    ensures var (fed, rv) := Feed(s, parts);
            var once := RunOnce(s, kms, Concat(parts), signature);
            if s.params.Fits(|Concat(parts)|) then
              && rv == Ok
              && var done := Finish(fed, kms, signature);
              && done.kms == once.kms && done.result == once.result
              && done.state == once.state.(buffer := Some(Concat(parts)))
            else rv == DataLenRange && once == Done(s, kms, Failure(DataLenRange))
  {
    FeedConcatenates(s, parts);
    CompleteIgnoresBuffer(s, Some(Concat(parts)), kms, Concat(parts), signature);
  }

  lemma CompleteIgnoresBuffer(s: State, buffer: Option<Bytes>, kms: Kms, data: Bytes, signature: Bytes)
    ensures var done := Complete(s, kms, data, signature);
            Complete(s.(buffer := buffer), kms, data, signature) == done.(state := done.state.(buffer := buffer))
  {
  }

  // ---------------------------------------------------------------------------------------
  // Crypters as objects
  // ---------------------------------------------------------------------------------------

  class KmsClient {
    const respond: (nat, Request) -> Reply
    var log: seq<Request>

    constructor (respond: (nat, Request) -> Reply)
      ensures this.respond == respond && log == []
    {
      this.respond, log := respond, [];
    }

    ghost function Abs(): Kms
      reads this
    {
      Kms(respond, log)
    }

    method Call(request: Request) returns (reply: Reply)
      modifies this
      ensures Abs() == old(Abs()).After(request)
      ensures reply == old(Abs()).Answer(request)
    {
      reply := respond(|log|, request);
      log := log + [request];
    }
  }

  class Crypter {
    const params: Params
    const iv: array<byte>  // for AES-GCM encryption this is the caller's buffer
    var buffer: Option<Bytes>

    constructor (params: Params, iv: array<byte>)
      ensures this.params == params && this.iv == iv && buffer == None
    {
      this.params, this.iv, buffer := params, iv, None;
    }

    ghost function Abs(): State
      reads this, iv
    {
      State(params, iv[..], buffer)
    }

    method Update(part: Bytes) returns (rv: Rv)
      modifies this`buffer
      ensures (Abs(), rv) == Absorb(old(Abs()), part)
    {
      if params.SinglePart? {
        return FunctionFailed;
      }
      if buffer.None? {
        buffer := Some([]);
      }
      if !params.Fits(|part| + |buffer.value|) {
        return DataLenRange;
      }
      buffer := Some(buffer.value + part);
      rv := Ok;
    }

    method OneShot(client: KmsClient, data: Bytes, signature: Bytes) returns (result: Result)
      modifies client, iv
      ensures Done(Abs(), client.Abs(), result) == RunOnce(old(Abs()), old(client.Abs()), data, signature)
    {
      if buffer.Some? && !params.AesDecrypter? {
        return Failure(FunctionFailed);
      }
      if !params.Fits(|data|) {
        return Failure(DataLenRange);
      }
      result := Internal(client, data, signature);
    }

    method Final(client: KmsClient, signature: Bytes) returns (result: Result)
      modifies client, iv
      ensures Done(Abs(), client.Abs(), result) == Finish(old(Abs()), old(client.Abs()), signature)
    {
      if params.SinglePart? || buffer.None? {
        return Failure(FunctionFailed);
      }
      result := Internal(client, buffer.value, signature);
    }

    method Internal(client: KmsClient, data: Bytes, signature: Bytes) returns (result: Result)
      modifies client, iv
      ensures Done(Abs(), client.Abs(), result) == Complete(old(Abs()), old(client.Abs()), data, signature)
    {
      var s := State(params, iv[..], buffer);
      var rv := Check(s, data, signature);
      if rv != Ok {
        return Failure(rv);
      }
      var reply := client.Call(RequestFor(s, data, signature));
      if params.AesEncrypter? && params.mode.Gcm? && reply.Encrypted? {
        WriteIv(reply.iv);
      }
      result := Interpret(s, reply).1;
    }

    /** std::copy_n of the IV the server chose. */
    method WriteIv(src: Bytes)
      modifies iv
      ensures iv[..] == CopyOver(old(iv[..]), src)
    {
      var n := if |src| <= iv.Length then |src| else iv.Length;
      for i := 0 to n
        invariant forall k :: 0 <= k < i ==> iv[k] == src[k]
        invariant forall k :: i <= k < iv.Length ==> iv[k] == old(iv[k])
      {
        iv[i] := src[i];
      }
    }
  }
}
