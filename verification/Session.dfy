/** kmsp11/session.cc and kmsp11/main/bridge.cc: the one optional operation of a session, started
    by Init, fed by Update and ended by a completing call, an error, or not at all (length
    queries and buffers that are too small). Sections 5.2 and 5.8 to 5.12 of PKCS #11 Base v2.40. */
module Session {
  import opened Basics
  import opened Padding
  import opened Crypters
  import F = FindOp

  datatype Operation = Finding(objects: seq<Handle>, offset: nat) | Crypting(state: State)

  datatype SessionState = SessionState(op: Option<Operation>, kms: Kms)

  /** The output argument pair (pOut, pulOutLen): a null length pointer, a length query (null
      pOut), or a buffer together with the size the caller put in *pulOutLen. */
  datatype Out = NoLength | Query | Buffer(size: nat)

  /** The return value and what was written to the caller's memory. `iv` is what the
      operation's IV buffer holds afterwards, when a crypter was asked to complete. */
  datatype Outcome = Outcome(
    rv: Rv, length: Option<nat>, bytes: Option<Bytes>, iv: Option<Bytes>, handles: seq<Handle>)

  function Return(rv: Rv): Outcome { Outcome(rv, None, None, None, []) }

  /** One API call on a live session. Pointer arguments that are null are None. For Init, `keyOk`
      says whether the key handle resolved and `made` is what NewDecryptOp (and so on) returns. */
  datatype Call =
    | Init(kind: Kind, keyOk: bool, hasMechanism: bool, made: Option<State>)
    | Crypt(kind: Kind, data: Option<Bytes>, out: Out)
    | CryptUpdate(kind: Kind, part: Option<Bytes>, hasLength: bool)
    | CryptFinal(kind: Kind, out: Out)
    | SignCall(data: Option<Bytes>, out: Out)
    | SignUpdate(part: Option<Bytes>)
    | SignFinal(out: Out)
    | VerifyCall(data: Option<Bytes>, signature: Option<Bytes>)
    | VerifyUpdate(part: Option<Bytes>)
    | VerifyFinal(signature: Option<Bytes>)
    | FindObjectsInit(matching: seq<Handle>)
    | FindObjects(max: nat)
    | FindObjectsFinal

  // ---------------------------------------------------------------------------------------
  // Single calls
  // ---------------------------------------------------------------------------------------

  /** The session's operation if it is one of the given kind. */
  function Active(s: SessionState, kind: Kind): Option<State> {
    if s.op.Some? && s.op.value.Crypting? && s.op.value.state.Kind() == kind
    then Some(s.op.value.state) else None
  }

  function Release(s: SessionState, rv: Rv): (SessionState, Outcome) {
    (s.(op := None), Return(rv))
  }

  /** The tail of Encrypt, Decrypt and their Final forms. */
  function Deliver(done: Done, out: Out): (SessionState, Outcome) {
    var kept, gone := SessionState(Some(Crypting(done.state)), done.kms), SessionState(None, done.kms);
    var iv := Some(done.state.iv);
    match done.result
    case Failure(rv) => (gone, Outcome(rv, None, None, iv, []))
    case Success(bytes) =>
      if out.Query? then (kept, Outcome(Ok, Some(|bytes|), None, iv, []))
      else if out.Buffer? && out.size < |bytes| then (kept, Outcome(BufferTooSmall, Some(|bytes|), None, iv, []))
      else (gone, Outcome(Ok, Some(|bytes|), Some(bytes), iv, []))
  }

  function DoCrypt(s: SessionState, kind: Kind, data: Option<Bytes>, out: Out): (SessionState, Outcome) {
    if data.None? || out.NoLength? then Release(s, ArgumentsBad)
    else
      match Active(s, kind)
      case None => Release(s, OperationNotInitialized)
      case Some(c) => Deliver(RunOnce(c, s.kms, data.value, []), out)
  }

  function DoCryptFinal(s: SessionState, kind: Kind, out: Out): (SessionState, Outcome) {
    if out.NoLength? then Release(s, ArgumentsBad)
    else
      match Active(s, kind)
      case None => Release(s, OperationNotInitialized)
      case Some(c) => Deliver(Finish(c, s.kms, []), out)
  }

  /** Common to all Update calls; the length pointer exists only for encryption and decryption,
      where *pulPartLen is set to 0. */
  function DoUpdate(s: SessionState, kind: Kind, part: Option<Bytes>, hasLength: bool): (SessionState, Outcome) {
    if part.None? || !hasLength then Release(s, ArgumentsBad)
    else
      var length := if kind == Encrypt || kind == Decrypt then Some(0) else None;
      match Active(s, kind)
      case None => (s.(op := None), Outcome(OperationNotInitialized, length, None, None, []))
      case Some(c) =>
        var (c', rv) := Absorb(c, part.value);
        (s.(op := if rv == Ok then Some(Crypting(c')) else None), Outcome(rv, length, None, None, []))
  }

  /** The tail of Sign and SignFinal: the length is known before anything is signed. */
  function DeliverSignature(s: SessionState, done: Done, length: nat, out: Out): (SessionState, Outcome) {
    if out.Query? then (s, Outcome(Ok, Some(length), None, None, []))
    else if out.Buffer? && out.size < length then (s, Outcome(BufferTooSmall, Some(length), None, None, []))
    else
      (SessionState(None, done.kms),
       match done.result
       case Failure(rv) => Return(rv)
       case Success(bytes) => Outcome(Ok, Some(length), Some(bytes), None, []))
  }

  function DoSign(s: SessionState, data: Option<Bytes>, out: Out): (SessionState, Outcome) {
    if data.None? || out.NoLength? then Release(s, ArgumentsBad)
    else
      match Active(s, Sign)
      case None => Release(s, OperationNotInitialized)
      case Some(c) =>
        DeliverSignature(s, RunOnce(c, s.kms, data.value, []), c.params.SignatureLength(), out)
  }

  function DoSignFinal(s: SessionState, out: Out): (SessionState, Outcome) {
    if out.NoLength? then Release(s, ArgumentsBad)
    else
      match Active(s, Sign)
      case None => Release(s, OperationNotInitialized)
      case Some(c) => DeliverSignature(s, Finish(c, s.kms, []), c.params.SignatureLength(), out)
  }

  function Verdict(done: Done): (SessionState, Outcome) {
    (SessionState(None, done.kms), Return(match done.result case Failure(rv) => rv case Success(_) => Ok))
  }

  function DoVerify(s: SessionState, data: Option<Bytes>, signature: Option<Bytes>): (SessionState, Outcome) {
    if data.None? || signature.None? then Release(s, ArgumentsBad)
    else
      match Active(s, Verify)
      case None => Release(s, OperationNotInitialized)
      case Some(c) => Verdict(RunOnce(c, s.kms, data.value, signature.value))
  }

  function DoVerifyFinal(s: SessionState, signature: Option<Bytes>): (SessionState, Outcome) {
    if signature.None? then Release(s, ArgumentsBad)
    else
      match Active(s, Verify)
      case None => Release(s, OperationNotInitialized)
      case Some(c) => Verdict(Finish(c, s.kms, signature.value))
  }

  function DoInit(s: SessionState, keyOk: bool, hasMechanism: bool, made: Option<State>): (SessionState, Outcome) {
    if !keyOk then (s, Return(KeyHandleInvalid))
    else if !hasMechanism then (s, Return(ArgumentsBad))
    else if s.op.Some? then (s, Return(OperationActive))
    else if made.None? then (s, Return(MechanismInvalid))
    else (s.(op := Some(Crypting(made.value))), Return(Ok))
  }

  function DoFind(s: SessionState, max: nat): (SessionState, Outcome) {
    if s.op.None? || !s.op.value.Finding? || s.op.value.offset > |s.op.value.objects|
    then (s, Return(OperationNotInitialized))
    else
      var f := s.op.value;
      var end := F.NextEnd(f.objects, f.offset, max);
      (s.(op := Some(f.(offset := end))),
       Outcome(Ok, Some(end - f.offset), None, None, f.objects[f.offset..end]))
  }

  function Step(s: SessionState, call: Call): (SessionState, Outcome) {
    match call
    case Init(_, keyOk, hasMechanism, made) => DoInit(s, keyOk, hasMechanism, made)
    case Crypt(kind, data, out) => DoCrypt(s, kind, data, out)
    case CryptUpdate(kind, part, hasLength) => DoUpdate(s, kind, part, hasLength)
    case CryptFinal(kind, out) => DoCryptFinal(s, kind, out)
    case SignCall(data, out) => DoSign(s, data, out)
    case SignUpdate(part) => DoUpdate(s, Sign, part, true)
    case SignFinal(out) => DoSignFinal(s, out)
    case VerifyCall(data, signature) => DoVerify(s, data, signature)
    case VerifyUpdate(part) => DoUpdate(s, Verify, part, true)
    case VerifyFinal(signature) => DoVerifyFinal(s, signature)
    case FindObjectsInit(matching) =>
      if s.op.Some? then (s, Return(OperationActive))
      else (s.(op := Some(Finding(matching, 0))), Return(Ok))
    case FindObjects(max) => DoFind(s, max)
    case FindObjectsFinal =>
      if s.op.None? || !s.op.value.Finding? then (s, Return(OperationNotInitialized))
      else (s.(op := None), Return(Ok))
  }

  // ---------------------------------------------------------------------------------------
  // Operation lifetime
  // ---------------------------------------------------------------------------------------

  /** Neither an Init nor one of the find calls. */
  predicate Consumes(call: Call) {
    !call.Init? && !call.FindObjectsInit? && !call.FindObjects? && !call.FindObjectsFinal?
  }

  predicate IsUpdate(call: Call) { call.CryptUpdate? || call.SignUpdate? || call.VerifyUpdate? }

  predicate IsQuery(call: Call) {
    (call.Crypt? || call.CryptFinal? || call.SignCall? || call.SignFinal?) && call.out.Query?
  }

  /** A successful Update, a successful length query, or CKR_BUFFER_TOO_SMALL. */
  predicate Keeps(call: Call, outcome: Outcome) {
    (outcome.rv == Ok && (IsUpdate(call) || IsQuery(call))) || outcome.rv == BufferTooSmall
  }

  predicate WritesIv(params: Params) { params.AesEncrypter? && params.mode.Gcm? }

  /** `op'` is the operation `op`, with this buffer; only AES-GCM has touched its IV buffer. */
  ghost predicate SameOperation(op: Option<Operation>, op': Option<Operation>, buffer: Option<Bytes>) {
    && op.Some? && op.value.Crypting? && op'.Some? && op'.value.Crypting?
    && var c, c' := op.value.state, op'.value.state;
    && c' == c.(iv := c'.iv, buffer := buffer)
    && |c'.iv| == |c.iv| && (!WritesIv(c.params) ==> c'.iv == c.iv)
  }

  /** What `buffer` holds after a call that keeps the operation. */
  function BufferAfter(buffer: Option<Bytes>, call: Call): Option<Bytes> {
    if IsUpdate(call) && call.part.Some?
    then Some((if buffer.Some? then buffer.value else []) + call.part.value)
    else buffer
  }

  function IvOf(op: Option<Operation>): Bytes {
    if op.Some? && op.value.Crypting? then op.value.state.iv else []
  }

  function BufferOf(op: Option<Operation>): Option<Bytes> {
    if op.Some? && op.value.Crypting? then op.value.state.buffer else None
  }

  /** After any Decrypt, Encrypt, Sign or Verify call, Update or Final, an operation is active
      exactly if the call was a successful Update, a successful length query, or returned
      CKR_BUFFER_TOO_SMALL; and it is then the operation that was active before, which an Update
      has given its part and nothing else has changed but the IV buffer of AES-GCM. */
  lemma OperationLifetime(s: SessionState, call: Call)
    requires Consumes(call)
    ensures var (s', outcome) := Step(s, call);
            && (s'.op.Some? <==> Keeps(call, outcome))
            && (s'.op.Some? ==> SameOperation(s.op, s'.op, BufferAfter(BufferOf(s.op), call)))
  {
  }

  ghost predicate Run(ss: seq<SessionState>, calls: seq<Call>, outs: seq<Outcome>) {
    && |ss| == |calls| + 1 == |outs| + 1
    && forall i :: 0 <= i < |calls| ==> (ss[i + 1], outs[i]) == Step(ss[i], calls[i])
  }

  /** An Init succeeds only from idle; Inits and find calls never disturb an active operation. */
  lemma InitOnlyFromIdle(s: SessionState, call: Call)
    requires !Consumes(call)
    ensures var (s', outcome) := Step(s, call);
            && (s.op.Some? && s.op.value.Crypting? ==> s' == s && outcome.rv != Ok)
            && (call.Init? || call.FindObjectsInit? ==> (outcome.rv != Ok ==> s' == s) && (outcome.rv == Ok ==> s.op.None?))
  {
  }

  /** The parts that the calls from a to b have added to `buffer`. */
  function BufferAt(buffer: Option<Bytes>, calls: seq<Call>, a: nat, b: nat): Option<Bytes>
    requires b <= |calls|
  {
    if b <= a then buffer else BufferAfter(BufferAt(buffer, calls, a, b - 1), calls[b - 1])
  }

  /** At i the session still has the operation of a, holding all the parts it was given. */
  ghost predicate Lasts(ss: seq<SessionState>, calls: seq<Call>, a: nat, i: nat)
    requires |ss| == |calls| + 1 && a <= i < |ss|
  {
    SameOperation(ss[a].op, ss[i].op, BufferAt(BufferOf(ss[a].op), calls, a, i))
  }

  predicate Kept(call: Call, outcome: Outcome) { Consumes(call) ==> Keeps(call, outcome) }

  /** Over any run, an operation that is active at a is still the session's operation at every
      point up to b, holding all the parts it was given, exactly if every consuming call in
      between was one of the keeping ones. */
  lemma {:induction false} OperationSpan(ss: seq<SessionState>, calls: seq<Call>, outs: seq<Outcome>, a: nat, b: nat)
    requires Run(ss, calls, outs) && a <= b < |ss|
    requires ss[a].op.Some? && ss[a].op.value.Crypting?
    ensures (forall i :: a <= i <= b ==> Lasts(ss, calls, a, i))
       <==> (forall i :: a <= i < b ==> Kept(calls[i], outs[i]))
  {
    if a < b {
      OperationSpan(ss, calls, outs, a, b - 1);
      if Lasts(ss, calls, a, b - 1) {
        SpanNext(ss, calls, outs, a, b);
      }
    }
  }

  lemma SpanNext(ss: seq<SessionState>, calls: seq<Call>, outs: seq<Outcome>, a: nat, b: nat)
    requires Run(ss, calls, outs) && a < b < |ss| && Lasts(ss, calls, a, b - 1)
    ensures Lasts(ss, calls, a, b) <==> Kept(calls[b - 1], outs[b - 1])
  {
    SpanStep(ss[a].op, BufferAt(BufferOf(ss[a].op), calls, a, b - 1), ss[b - 1], calls[b - 1], ss[b], outs[b - 1]);
  }

  lemma SpanStep(
    first: Option<Operation>, buffer: Option<Bytes>, s: SessionState, call: Call, s': SessionState, outcome: Outcome)
    requires (s', outcome) == Step(s, call) && SameOperation(first, s.op, buffer)
    ensures SameOperation(first, s'.op, BufferAfter(buffer, call)) <==> Kept(call, outcome)
  {
    if Consumes(call) {
      OperationLifetime(s, call);
    } else {
      InitOnlyFromIdle(s, call);
    }
  }

  /** Where a find over `objects` is after the calls from a to b. */
  function OffsetAt(objects: seq<Handle>, offset: nat, calls: seq<Call>, a: nat, b: nat): nat
    requires b <= |calls|
  {
    if b <= a then offset
    else
      var before := OffsetAt(objects, offset, calls, a, b - 1);
      if calls[b - 1].FindObjects? then F.NextEnd(objects, before, calls[b - 1].max) else before
  }

  /** At i the session still has the find of a, moved on by the FindObjects calls in between. */
  ghost predicate FindLasts(ss: seq<SessionState>, calls: seq<Call>, a: nat, i: nat)
    requires |ss| == |calls| + 1 && a <= i < |ss| && ss[a].op.Some? && ss[a].op.value.Finding?
  {
    var find := ss[a].op.value;
    ss[i].op == Some(Finding(find.objects, OffsetAt(find.objects, find.offset, calls, a, i)))
  }

  predicate EndsFind(call: Call) { Consumes(call) || call.FindObjectsFinal? }

  lemma FindStep(s: SessionState, call: Call)
    requires s.op.Some? && s.op.value.Finding? && s.op.value.offset <= |s.op.value.objects|
    ensures var (s', outcome), f := Step(s, call), s.op.value;
            if EndsFind(call) then s'.op.None?
            else if call.FindObjects? then
              var end := F.NextEnd(f.objects, f.offset, call.max);
              && s'.op == Some(f.(offset := end)) && outcome.rv == Ok
              && outcome.handles == f.objects[f.offset..end] && outcome.length == Some(|outcome.handles|)
            else s'.op == s.op
  {
  }

  lemma {:induction false} OffsetInRange(objects: seq<Handle>, offset: nat, calls: seq<Call>, a: nat, b: nat)
    requires b <= |calls| && offset <= |objects|
    ensures OffsetAt(objects, offset, calls, a, b) <= |objects|
  {
    if a < b {
      OffsetInRange(objects, offset, calls, a, b - 1);
    }
  }

  /** Over any run, an open find stays the session's find if and only if no cryptographic call, of
      whatever kind and outcome, and no C_FindObjectsFinal comes in between. */
  lemma {:induction false} FindSpan(ss: seq<SessionState>, calls: seq<Call>, outs: seq<Outcome>, a: nat, b: nat)
    requires Run(ss, calls, outs) && a <= b < |ss|
    requires ss[a].op.Some? && ss[a].op.value.Finding? && ss[a].op.value.offset <= |ss[a].op.value.objects|
    ensures (forall i :: a <= i <= b ==> FindLasts(ss, calls, a, i)) <==> (forall i :: a <= i < b ==> !EndsFind(calls[i]))
  {
    if a < b {
      FindSpan(ss, calls, outs, a, b - 1);
      if FindLasts(ss, calls, a, b - 1) {
        FindNext(ss, calls, outs, a, b);
      }
    }
  }

  lemma FindNext(ss: seq<SessionState>, calls: seq<Call>, outs: seq<Outcome>, a: nat, b: nat)
    requires Run(ss, calls, outs) && a < b < |ss|
    requires ss[a].op.Some? && ss[a].op.value.Finding? && ss[a].op.value.offset <= |ss[a].op.value.objects|
    requires FindLasts(ss, calls, a, b - 1)
    ensures FindLasts(ss, calls, a, b) <==> !EndsFind(calls[b - 1])
  {
    OffsetInRange(ss[a].op.value.objects, ss[a].op.value.offset, calls, a, b - 1);
    FindStep(ss[b - 1], calls[b - 1]);
  }

  // ---------------------------------------------------------------------------------------
  // Whole operations: chunking, and repeated attempts
  // ---------------------------------------------------------------------------------------

  function UpdateCall(kind: Kind, part: Bytes): Call {
    match kind
    case Sign => SignUpdate(Some(part))
    case Verify => VerifyUpdate(Some(part))
    case _ => CryptUpdate(kind, Some(part), true)
  }

  function OnceCall(kind: Kind, data: Bytes, out: Out, signature: Bytes): Call {
    match kind
    case Sign => SignCall(Some(data), out)
    case Verify => VerifyCall(Some(data), Some(signature))
    case _ => Crypt(kind, Some(data), out)
  }

  function FinalCall(kind: Kind, out: Out, signature: Bytes): Call {
    match kind
    case Sign => SignFinal(out)
    case Verify => VerifyFinal(Some(signature))
    case _ => CryptFinal(kind, out)
  }

  /** One Update call per part, up to the first that fails. */
  function FeedSession(s: SessionState, kind: Kind, parts: seq<Bytes>): (SessionState, Rv) {
    if parts == [] then (s, Ok)
    else
      var (before, rv) := FeedSession(s, kind, parts[..|parts| - 1]);
      if rv != Ok then (before, rv)
      else
        var (s', outcome) := Step(before, UpdateCall(kind, parts[|parts| - 1]));
        (s', outcome.rv)
  }

  lemma {:induction false} FeedSessionFeeds(s: SessionState, c: State, parts: seq<Bytes>)
    requires s.op == Some(Crypting(c))
    ensures var (c', rv) := Feed(c, parts);
            && c'.params == c.params
            && FeedSession(s, c.Kind(), parts) == (s.(op := if rv == Ok then Some(Crypting(c')) else None), rv)
  {
    if parts != [] {
      FeedSessionFeeds(s, c, parts[..|parts| - 1]);
    }
  }

  /** Through the API: any number of Update calls and a Final call give KMS the same requests and
      the caller the same outcome as the one-shot call on the concatenation, and what remains of
      the operation differs only in its buffer. Data beyond the limit is refused by an Update
      call, which sends nothing; the one-shot call refuses it too, exactly unless it is a Sign
      call that asks for the length or comes with too small a buffer. */
  lemma SessionChunking(s: SessionState, c: State, parts: seq<Bytes>, out: Out, signature: Bytes)
    requires s.op == Some(Crypting(c)) && c.buffer.None? && !c.params.SinglePart?
    requires parts != [] && !out.NoLength?
    ensures var (fed, rv) := FeedSession(s, c.Kind(), parts);
            var (once, outcome) := Step(s, OnceCall(c.Kind(), Concat(parts), out, signature));
            if c.params.Fits(|Concat(parts)|) then
              && rv == Ok
              && var (done, outcome') := Step(fed, FinalCall(c.Kind(), out, signature));
              && outcome' == outcome && done.kms == once.kms
              && (done.op.Some? <==> once.op.Some?)
              && (once.op.Some? ==> SameOperation(once.op, done.op, Some(Concat(parts))) && IvOf(done.op) == IvOf(once.op))
            else
              && rv == DataLenRange && fed == s.(op := None)
              && once.kms == s.kms
              && (once.op.Some? ==> once == s)
              && (outcome.rv == DataLenRange <==> once.op.None?)
              && (once.op.Some? <==> c.Kind() == Sign && (out.Query? || out.size < c.params.SignatureLength()))
  {
    if c.params.Fits(|Concat(parts)|) {
      ChunkingFits(s, c, parts, out, signature);
    } else {
      ChunkingRefused(s, c, parts, out, signature);
    }
  }

  lemma ChunkingFits(s: SessionState, c: State, parts: seq<Bytes>, out: Out, signature: Bytes)
    requires s.op == Some(Crypting(c)) && c.buffer.None? && !c.params.SinglePart?
    requires parts != [] && !out.NoLength? && c.params.Fits(|Concat(parts)|)
    ensures var (fed, rv) := FeedSession(s, c.Kind(), parts);
            var (once, outcome) := Step(s, OnceCall(c.Kind(), Concat(parts), out, signature));
            var (done, outcome') := Step(fed, FinalCall(c.Kind(), out, signature));
            && rv == Ok && outcome' == outcome && done.kms == once.kms
            && (done.op.Some? <==> once.op.Some?)
            && (once.op.Some? ==> SameOperation(once.op, done.op, Some(Concat(parts))) && IvOf(done.op) == IvOf(once.op))
  {
    FeedSessionFeeds(s, c, parts);
    FeedConcatenates(c, parts);
    ChunkingIndependence(c, s.kms, parts, if c.Kind() == Verify then signature else []);
    OnceSettles(s, c, Concat(parts), out, signature);
    var fed := FeedSession(s, c.Kind(), parts).0;
    FinalSettles(fed, fed.op.value.state, out, signature);
  }

  lemma ChunkingRefused(s: SessionState, c: State, parts: seq<Bytes>, out: Out, signature: Bytes)
    requires s.op == Some(Crypting(c)) && c.buffer.None? && !c.params.SinglePart?
    requires parts != [] && !out.NoLength? && !c.params.Fits(|Concat(parts)|)
    ensures var (fed, rv) := FeedSession(s, c.Kind(), parts);
            var (once, outcome) := Step(s, OnceCall(c.Kind(), Concat(parts), out, signature));
            && rv == DataLenRange && fed == s.(op := None) && once.kms == s.kms
            && (once.op.Some? ==> once == s) && (outcome.rv == DataLenRange <==> once.op.None?)
            && (once.op.Some? <==> c.Kind() == Sign && (out.Query? || out.size < c.params.SignatureLength()))
  {
    FeedSessionFeeds(s, c, parts);
    FeedConcatenates(c, parts);
    OnceSettles(s, c, Concat(parts), out, signature);
  }

  /** How a completed run of a crypter is handed to the caller. */
  function Settle(s: SessionState, c: State, done: Done, out: Out): (SessionState, Outcome) {
    match c.Kind()
    case Sign => DeliverSignature(s, done, c.params.SignatureLength(), out)
    case Verify => Verdict(done)
    case _ => Deliver(done, out)
  }

  lemma OnceSettles(s: SessionState, c: State, data: Bytes, out: Out, signature: Bytes)
    requires s.op == Some(Crypting(c)) && !out.NoLength?
    ensures Step(s, OnceCall(c.Kind(), data, out, signature))
         == Settle(s, c, RunOnce(c, s.kms, data, if c.Kind() == Verify then signature else []), out)
  {
  }

  lemma FinalSettles(s: SessionState, c: State, out: Out, signature: Bytes)
    requires s.op == Some(Crypting(c)) && !out.NoLength?
    ensures Step(s, FinalCall(c.Kind(), out, signature))
         == Settle(s, c, Finish(c, s.kms, if c.Kind() == Verify then signature else []), out)
  {
  }

  // ---------------------------------------------------------------------------------------
  // AES-CBC-PAD end to end
  // ---------------------------------------------------------------------------------------

  /** Whatever is decrypted from `ct` under this key and IV is `plain` again. */
  ghost predicate Undone(respond: (nat, Request) -> Reply, name: string, plain: Bytes, iv: Bytes, ct: Bytes) {
    && |ct| == |plain|
    && forall u: nat :: respond(u, RawDecrypt(name, ct, iv, [])) in {Failed, Decrypted(plain)}
  }

  /** Under this key and IV, raw decryption inverts raw encryption and preserves the length; any
      RPC may fail. */
  ghost predicate Inverts(respond: (nat, Request) -> Reply, name: string, iv: Bytes) {
    forall t: nat, plain: Bytes ::
      respond(t, RawEncrypt(name, plain, iv, [])).Encrypted? ==>
        Undone(respond, name, plain, iv, respond(t, RawEncrypt(name, plain, iv, [])).ciphertext)
  }

  /** What EncryptFinal delivers under CKM_AES_CBC_PAD, cut into any other parts, is accepted by
      DecryptUpdate, and DecryptFinal gives back the plaintext unless its RPC fails. */
  lemma CbcPadRoundTrip(
    enc: SessionState, dec: SessionState, name: string, iv: Bytes,
    plainParts: seq<Bytes>, cipherParts: seq<Bytes>, size: nat, size': nat)
    requires plainParts != [] && cipherParts != [] && |Concat(plainParts)| <= size'
    requires enc.op == Some(Crypting(State(AesEncrypter(Cbc(true), name, []), iv, None)))
    requires dec.op == Some(Crypting(State(AesDecrypter(Cbc(true), name, []), iv, None)))
    requires enc.kms.respond == dec.kms.respond && Inverts(enc.kms.respond, name, iv)
    requires var (fed, rv) := FeedSession(enc, Encrypt, plainParts);
             rv == Ok && Step(fed, CryptFinal(Encrypt, Buffer(size))).1.bytes == Some(Concat(cipherParts))
    ensures var (fed, rv) := FeedSession(dec, Decrypt, cipherParts);
            var outcome := Step(fed, CryptFinal(Decrypt, Buffer(size'))).1;
            && rv == Ok
            && (outcome.rv == DeviceError || (outcome.rv == Ok && outcome.bytes == Some(Concat(plainParts))))
  {
    var plain, ct := Concat(plainParts), Concat(cipherParts);
    CbcCiphertext(enc, name, iv, plainParts, ct, size);
    assert Undone(enc.kms.respond, name, Pad(plain), iv, ct);
    PadAligned(plain);
    var d := dec.op.value.state;
    FeedSessionFeeds(dec, d, cipherParts);
    FeedConcatenates(d, cipherParts);
    UnpadPad(plain);
    assert dec.kms.Answer(RawDecrypt(name, ct, iv, [])) in {Failed, Decrypted(Pad(plain))};
  }

  /** The ciphertext that the encrypting session delivers is that of the padded plaintext. */
  lemma CbcCiphertext(enc: SessionState, name: string, iv: Bytes, parts: seq<Bytes>, ct: Bytes, size: nat)
    requires parts != []
    requires enc.op == Some(Crypting(State(AesEncrypter(Cbc(true), name, []), iv, None)))
    requires var (fed, rv) := FeedSession(enc, Encrypt, parts);
             rv == Ok && Step(fed, CryptFinal(Encrypt, Buffer(size))).1.bytes == Some(ct)
    ensures enc.kms.Answer(RawEncrypt(name, Pad(Concat(parts)), iv, [])) == Encrypted(ct, iv)
    ensures |Concat(parts)| <= MAX_PLAINTEXT
  {
    var e := enc.op.value.state;
    FeedSessionFeeds(enc, e, parts);
    FeedConcatenates(e, parts);
  }

  // ---------------------------------------------------------------------------------------
  // Repeatable output
  // ---------------------------------------------------------------------------------------

  /** The encrypt or decrypt call that is attempted again and again. */
  datatype Target = Whole(kind: Kind, data: Bytes) | Rest(kind: Kind) {
    function Call(out: Out): Call {
      match this
      case Whole(kind, data) => Crypt(kind, Some(data), out)
      case Rest(kind) => CryptFinal(kind, out)
    }

    function Data(c: State): Bytes {
      match this
      case Whole(_, data) => data
      case Rest(_) => c.Buffered()
    }

    function Run(c: State, kms: Kms): Done {
      match this
      case Whole(_, data) => RunOnce(c, kms, data, [])
      case Rest(_) => Finish(c, kms, [])
    }
  }

  lemma TargetStep(s: SessionState, c: State, target: Target, out: Out)
    requires s.op == Some(Crypting(c))
    ensures Step(s, target.Call(out))
         == if out.NoLength? then Release(s, ArgumentsBad)
            else if target.kind != c.Kind() then Release(s, OperationNotInitialized)
            else Deliver(target.Run(c, s.kms), out)
  {
  }

  /** Completing makes at most the one request, and touches nothing else but a GCM IV buffer. */
  lemma TargetRun(c: State, kms: Kms, target: Target)
    ensures var done := target.Run(c, kms);
            var request := RequestFor(c, target.Data(c), []);
            && done.state == c.(iv := done.state.iv) && |done.state.iv| == |c.iv|
            && done.kms.respond == kms.respond
            && (!WritesIv(c.params) ==> done.state == c)
            && (done.result.Success? ==>
                  && done.kms == kms.After(request) && !kms.Answer(request).Failed?
                  && (done.state, done.result) == Interpret(c, kms.Answer(request)))
  {
  }

  /** The session after attempting `target` with each output argument in turn. */
  function Attempts(s: SessionState, target: Target, outs: seq<Out>): SessionState {
    if outs == [] then s
    else Step(Attempts(s, target, outs[..|outs| - 1]), target.Call(outs[|outs| - 1])).0
  }

  /** Length queries and too small buffers leave the operation as it was, except that AES-GCM
      has rewritten the caller's IV buffer. */
  lemma {:induction false} AttemptsAreHarmless(s: SessionState, c: State, target: Target, outs: seq<Out>)
    requires s.op == Some(Crypting(c)) && Attempts(s, target, outs).op.Some?
    ensures var s' := Attempts(s, target, outs);
            && s'.kms.respond == s.kms.respond && s'.op.value.Crypting?
            && s'.op.value.state == c.(iv := s'.op.value.state.iv)
            && |s'.op.value.state.iv| == |c.iv|
            && (!WritesIv(c.params) ==> s'.op.value.state == c)
  {
    if outs != [] {
      var init, out := outs[..|outs| - 1], outs[|outs| - 1];
      var before := Attempts(s, target, init);
      OperationLifetime(before, target.Call(out));
      AttemptsAreHarmless(s, c, target, init);
      var c' := before.op.value.state;
      TargetStep(before, c', target, out);
      TargetRun(c', before.kms, target);
    }
  }

  /** KMS gives one answer to `request`, whenever it answers at all. */
  ghost predicate Deterministic(respond: (nat, Request) -> Reply, request: Request) {
    forall t: nat, u: nat :: respond(t, request).Failed? || respond(u, request).Failed? || respond(t, request) == respond(u, request)
  }

  /** For deterministic modes the bytes finally delivered do not depend on the attempts before. */
  lemma RepeatableOutput(s: SessionState, c: State, target: Target, outs: seq<Out>, outs': seq<Out>, size: nat, size': nat)
    requires s.op == Some(Crypting(c)) && !WritesIv(c.params)
    requires Attempts(s, target, outs).op.Some? && Attempts(s, target, outs').op.Some?
    requires Deterministic(s.kms.respond, RequestFor(c, target.Data(c), []))
    ensures var first := Step(Attempts(s, target, outs), target.Call(Buffer(size))).1;
            var second := Step(Attempts(s, target, outs'), target.Call(Buffer(size'))).1;
            first.bytes.Some? && second.bytes.Some? ==> first.bytes == second.bytes
  {
    if Step(Attempts(s, target, outs), target.Call(Buffer(size))).1.bytes.Some? {
      var t := CompletedBytes(s, c, target, outs, size);
      if Step(Attempts(s, target, outs'), target.Call(Buffer(size'))).1.bytes.Some? {
        var u := CompletedBytes(s, c, target, outs', size');
      }
    }
  }

  lemma CompletedBytes(s: SessionState, c: State, target: Target, outs: seq<Out>, size: nat) returns (t: nat)
    requires s.op == Some(Crypting(c)) && !WritesIv(c.params)
    requires Attempts(s, target, outs).op.Some?
    requires Step(Attempts(s, target, outs), target.Call(Buffer(size))).1.bytes.Some?
    ensures var reply := s.kms.respond(t, RequestFor(c, target.Data(c), []));
            var bytes := Step(Attempts(s, target, outs), target.Call(Buffer(size))).1.bytes.value;
            !reply.Failed? && Interpret(c, reply).1 == Success(bytes)
  {
    AttemptsAreHarmless(s, c, target, outs);
    var before := Attempts(s, target, outs);
    TargetStep(before, c, target, Buffer(size));
    TargetRun(c, before.kms, target);
    t := |before.kms.log|;
  }

  /** For AES-GCM, whatever attempts came before, the IV left in the caller's buffer and the
      ciphertext delivered are those of one and the same reply. */
  lemma GcmIvMatchesCiphertext(s: SessionState, c: State, target: Target, outs: seq<Out>, size: nat)
    requires s.op == Some(Crypting(c)) && WritesIv(c.params)
    requires Attempts(s, target, outs).op.Some?
    requires var (_, outcome) := Step(Attempts(s, target, outs), target.Call(Buffer(size))); outcome.bytes.Some?
    ensures var request := RequestFor(c, target.Data(c), []);
            var (s', outcome) := Step(Attempts(s, target, outs), target.Call(Buffer(size)));
            var n := |s'.kms.log|;
            && n > 0 && s'.kms.log[n - 1] == request
            && var reply := s.kms.respond(n - 1, request);
            && reply.Encrypted? && outcome.bytes == Some(reply.ciphertext)
            && (|reply.iv| == |c.iv| ==> outcome.iv == Some(reply.iv))
  {
    AttemptsAreHarmless(s, c, target, outs);
  }
}
