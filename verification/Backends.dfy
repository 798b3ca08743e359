/** The two backends behind one API: the one-session service, which asks the token every
    time, and the pooled service with per-worker handle caches, a public key cache and
    in-process verification. On one token the fast one answers as the simple one does.

    Randomness (the IV and the signing nonce) is drawn before the call and given to both. */
module Backends {
  import opened Basics
  import opened Jobs
  import opened Crypto
  import HandleCache
  import opened KeyCache
  import opened Service

  /** A token whose objects do not change: which exist, what their operations return, and how
      each session numbers them. */
  datatype Hsm = Hsm(
    f: Primitives,
    present: (KeyKind, Label) -> bool,
    handleOf: (HandleCache.Session, KeyKind, Label) -> HandleCache.Handle,
    resolve: (HandleCache.Session, HandleCache.Handle) -> Option<(KeyKind, Label)>,
    publicKey: Label -> PublicKeyMaterial,
    encodeSpki: PublicKeyMaterial -> Bytes,
    sign: (Label, SignAlgorithm, Bytes, nat) -> Result<Bytes, Rv>,
    encrypt: (Label, Bytes, Bytes, Bytes) -> Result<Bytes, Rv>,
    decrypt: (Label, Bytes, Bytes, Bytes) -> Result<Bytes, Rv>,
    gcmParams: (Bytes, Bytes) -> bool)

  /** The laws of the libraries underneath: handles resolve in the session that found them,
      SPKI encoding is invertible, SHA-256 has 32 octets. */
  ghost predicate Lawful(h: Hsm) {
    && IsSha256(h.f.sha)
    && (forall s, kind, key | h.present(kind, key) :: h.resolve(s, h.handleOf(s, kind, key)) == Some((kind, key)))
    && (forall m: PublicKeyMaterial | !m.Exotic? :: h.f.decodeSpki(h.encodeSpki(m)) == Some(m))
  }

  datatype Rpc =
    | SignRpc(key: Label, mechanism: int, input: Option<SigningInput>)
    | VerifyRpc(key: Label, mechanism: int, input: Option<SigningInput>, signature: Bytes)
    | EncryptRpc(key: Label, mechanism: int, plaintext: Bytes, aad: Bytes)
    | DecryptRpc(key: Label, mechanism: int, ciphertext: Bytes, iv: Bytes, aad: Bytes)
    | GetPublicKeyRpc(key: Label)

  datatype Payload =
    | Signed(signature: Bytes, key: Label)
    | Checked(valid: bool)
    | Encrypted(ciphertext: Bytes, iv: Bytes)
    | Decrypted(plaintext: Bytes)
    | Exported(spki: Bytes, keyType: KeyType)

  type Response = Result<Payload, Code>

  datatype Draw = Draw(iv: Bytes, nonce: nat)

  const GCM_IV_LEN := 12
  const AES_GCM := 1
  const OBJECT_HANDLE_INVALID := OtherRv(0x82)

  // ----- PKCS#11 calls -----

  function Find(h: Hsm, s: HandleCache.Session, kind: KeyKind, key: Label): Option<HandleCache.Handle> {
    if h.present(kind, key) then Some(h.handleOf(s, kind, key)) else None
  }

  /** The object a handle means in a session, if it has the class the call needs. */
  function ObjectOf(h: Hsm, s: HandleCache.Session, handle: HandleCache.Handle, kind: KeyKind): Option<Label> {
    match h.resolve(s, handle)
    case Some((k, key)) => if k == kind then Some(key) else None
    case None => None
  }

  ghost function Call(h: Hsm, nonce: nat, s: HandleCache.Session, handle: HandleCache.Handle, request: JobRequest): Result<Bytes, Rv>
    requires IsSha256(h.f.sha)
  {
    match ObjectOf(h, s, handle, KindOf(request))
    case None => Err(OBJECT_HANDLE_INVALID)
    case Some(key) =>
      match request
      case Sign(_, algorithm, payload) => h.sign(key, algorithm, payload, nonce)
      case Verify(_, algorithm, payload, signature) =>
        (match TokenVerify(h.f, h.publicKey(key), Prepared(algorithm, payload), signature)
         case Ok(_) => Ok([])
         case Err(rv) => Err(rv))
      case Encrypt(_, plaintext, aad, iv) => h.encrypt(key, plaintext, aad, iv)
      case Decrypt(_, ciphertext, aad, iv) => h.decrypt(key, ciphertext, aad, iv)
      case GetPublicKey(_) => Err(OBJECT_HANDLE_INVALID)
  }

  function KeyTypeOf(m: PublicKeyMaterial): Option<KeyType> {
    match m
    case EcP256(_) => Some(Ec)
    case RsaKey(_, _) => Some(RsaType)
    case Exotic(_) => None
  }

  function ExportKey(h: Hsm, s: HandleCache.Session, handle: HandleCache.Handle): Option<(Bytes, KeyType)> {
    match ObjectOf(h, s, handle, Public)
    case None => None
    case Some(key) =>
      match KeyTypeOf(h.publicKey(key))
      case Some(keyType) => Some((h.encodeSpki(h.publicKey(key)), keyType))
      case None => None
  }

  // ----- The one-session backend -----

  /** Look the object up, make the call, and let `finish` read its result. */
  ghost function WithObject(h: Hsm, draw: Draw, s: HandleCache.Session, request: JobRequest, params: bool,
                            finish: Result<Bytes, Rv> -> Response): Response
    requires IsSha256(h.f.sha)
  {
    match Find(h, s, KindOf(request), request.key)
    case None => Err(NotFoundCode)
    case Some(handle) =>
      if !params then Err(InvalidArgument)
      else finish(Call(h, draw.nonce, s, handle, request))
  }

  function FinishVerify(r: Result<Bytes, Rv>): Response {
    match r
    case Ok(_) => Ok(Checked(true))
    case Err(SignatureInvalid) => Ok(Checked(false))
    case Err(SignatureLenRange) => Ok(Checked(false))
    case Err(_) => Err(InternalCode)
  }

  function FinishDecrypt(r: Result<Bytes, Rv>): Response {
    match r
    case Ok(bytes) => Ok(Decrypted(bytes))
    case Err(EncryptedDataInvalid) => Err(InvalidArgument)
    case Err(EncryptedDataLenRange) => Err(InvalidArgument)
    case Err(_) => Err(InternalCode)
  }

  function FinishSign(key: Label): Result<Bytes, Rv> -> Response {
    (r: Result<Bytes, Rv>) => if r.Ok? then Ok(Signed(r.value, key)) else Err(InternalCode)
  }

  function FinishEncrypt(iv: Bytes): Result<Bytes, Rv> -> Response {
    (r: Result<Bytes, Rv>) => if r.Ok? then Ok(Encrypted(r.value, iv)) else Err(InternalCode)
  }

  ghost function Single(h: Hsm, s: HandleCache.Session, rpc: Rpc, draw: Draw): Response
    requires IsSha256(h.f.sha)
  {
    match rpc
    case SignRpc(key, mechanism, input) =>
      if input.None? then Err(InvalidArgument)
      else (match Prepare(h.f.sha, mechanism, input.value)
            case Err(_) => Err(InvalidArgument)
            case Ok(p) => WithObject(h, draw, s, Sign(key, p.algorithm, p.payload), true, FinishSign(key)))
    case VerifyRpc(key, mechanism, input, signature) =>
      if input.None? then Err(InvalidArgument)
      else (match Prepare(h.f.sha, mechanism, input.value)
            case Err(_) => Err(InvalidArgument)
            case Ok(p) => WithObject(h, draw, s, Verify(key, p.algorithm, p.payload, signature), true, FinishVerify))
    case EncryptRpc(key, mechanism, plaintext, aad) =>
      if mechanism != AES_GCM then Err(InvalidArgument)
      else WithObject(h, draw, s, Encrypt(key, plaintext, aad, draw.iv), h.gcmParams(draw.iv, aad), FinishEncrypt(draw.iv))
    case DecryptRpc(key, mechanism, ciphertext, iv, aad) =>
      if mechanism != AES_GCM then Err(InvalidArgument)
      else if |iv| != GCM_IV_LEN then Err(InvalidArgument)
      else WithObject(h, draw, s, Decrypt(key, ciphertext, aad, iv), h.gcmParams(iv, aad), FinishDecrypt)
    case GetPublicKeyRpc(key) =>
      (match Find(h, s, Public, key)
       case None => Err(NotFoundCode)
       case Some(handle) =>
         match ExportKey(h, s, handle)
         case Some((spki, keyType)) => Ok(Exported(spki, keyType))
         case None => Err(InternalCode))
  }

  // ----- What the API promises -----

  /** The response in terms of the token's objects alone: a signature is made with the private
      key of that label, verification and export concern the public key, and encryption and
      decryption the secret key. Sessions and handles do not occur. */
  ghost function Expected(h: Hsm, rpc: Rpc, draw: Draw): Response
    requires IsSha256(h.f.sha)
  {
    match rpc
    case SignRpc(key, mechanism, input) =>
      if input.None? || !WellFormed(mechanism, input.value) then Err(InvalidArgument)
      else if !h.present(Private, key) then Err(NotFoundCode)
      else
        var p := ToSign(h.f.sha, mechanism, input.value);
        (match h.sign(key, p.algorithm, p.payload, draw.nonce)
         case Ok(signature) => Ok(Signed(signature, key))
         case Err(_) => Err(InternalCode))
    case VerifyRpc(key, mechanism, input, signature) =>
      if input.None? || !WellFormed(mechanism, input.value) then Err(InvalidArgument)
      else if !h.present(Public, key) then Err(NotFoundCode)
      else
        (match TokenVerify(h.f, h.publicKey(key), ToSign(h.f.sha, mechanism, input.value), signature)
         case Ok(_) => Ok(Checked(true))
         case Err(SignatureInvalid) => Ok(Checked(false))
         case Err(SignatureLenRange) => Ok(Checked(false))
         case Err(_) => Err(InternalCode))
    case EncryptRpc(key, mechanism, plaintext, aad) =>
      if mechanism != 1 then Err(InvalidArgument)
      else if !h.present(Secret, key) then Err(NotFoundCode)
      else if !h.gcmParams(draw.iv, aad) then Err(InvalidArgument)
      else
        (match h.encrypt(key, plaintext, aad, draw.iv)
         case Ok(ciphertext) => Ok(Encrypted(ciphertext, draw.iv))
         case Err(_) => Err(InternalCode))
    case DecryptRpc(key, mechanism, ciphertext, iv, aad) =>
      if mechanism != 1 || |iv| != 12 then Err(InvalidArgument)
      else if !h.present(Secret, key) then Err(NotFoundCode)
      else if !h.gcmParams(iv, aad) then Err(InvalidArgument)
      else
        (match h.decrypt(key, ciphertext, aad, iv)
         case Ok(plaintext) => Ok(Decrypted(plaintext))
         case Err(EncryptedDataInvalid) => Err(InvalidArgument)
         case Err(EncryptedDataLenRange) => Err(InvalidArgument)
         case Err(_) => Err(InternalCode))
    case GetPublicKeyRpc(key) =>
      if !h.present(Public, key) then Err(NotFoundCode)
      else
        (match h.publicKey(key)
         case EcP256(_) => Ok(Exported(h.encodeSpki(h.publicKey(key)), Ec))
         case RsaKey(_, _) => Ok(Exported(h.encodeSpki(h.publicKey(key)), RsaType))
         case Exotic(_) => Err(InternalCode))
  }

  /** The one-session backend keeps that promise on every session. */
  lemma SingleIsExpected(h: Hsm, s: HandleCache.Session, rpc: Rpc, draw: Draw)
    requires Lawful(h)
    ensures Single(h, s, rpc, draw) == Expected(h, rpc, draw)
  {
    match rpc {
      case SignRpc(key, mechanism, input) =>
        if input.Some? { PrepareOkExactly(h.f.sha, mechanism, input.value); }
        if h.present(Private, key) { assert ObjectOf(h, s, h.handleOf(s, Private, key), Private) == Some(key); }
      case VerifyRpc(key, mechanism, input, signature) =>
        if input.Some? { PrepareOkExactly(h.f.sha, mechanism, input.value); }
        if h.present(Public, key) { assert ObjectOf(h, s, h.handleOf(s, Public, key), Public) == Some(key); }
      case GetPublicKeyRpc(key) =>
        if h.present(Public, key) { assert ObjectOf(h, s, h.handleOf(s, Public, key), Public) == Some(key); }
      case EncryptRpc(key, _, _, _) =>
        if h.present(Secret, key) { assert ObjectOf(h, s, h.handleOf(s, Secret, key), Secret) == Some(key); }
      case DecryptRpc(key, _, _, _, _) =>
        if h.present(Secret, key) { assert ObjectOf(h, s, h.handleOf(s, Secret, key), Secret) == Some(key); }
    }
  }

  // ----- The pooled backend -----

  /** The workers' sessions and handle caches, and the public key cache. */
  datatype Pooled = Pooled(cores: seq<HandleCache.Core>, keys: map<Label, Lookup>)

  /** Which worker takes the job, how a session reopen would go, and which cached public keys
      have expired or been evicted by then. */
  datatype Chance = Chance(worker: nat, login: HandleCache.Login, second: Result<HandleCache.Session, Rv>, gone: set<Label>)

  function TokenOf(h: Hsm): HandleCache.Token {
    HandleCache.Token((s, kind, key) => Find(h, s, kind, key))
  }

  function ParamsOk(h: Hsm, request: JobRequest): bool {
    match request
    case Encrypt(_, _, aad, iv) => h.gcmParams(iv, aad)
    case Decrypt(_, _, aad, iv) => h.gcmParams(iv, aad)
    case _ => true
  }

  ghost function EnvOf(h: Hsm, draw: Draw, chance: Chance, request: JobRequest): HandleCache.Env
    requires IsSha256(h.f.sha)
  {
    HandleCache.Env(false, ParamsOk(h, request),
      (s, handle, r) => Call(h, draw.nonce, s, handle, r),
      (s, handle) => ExportKey(h, s, handle),
      chance.login, chance.second)
  }

  ghost function SubmitJob(h: Hsm, p: Pooled, request: JobRequest, draw: Draw, chance: Chance): (Pooled, JobResult)
    requires IsSha256(h.f.sha) && chance.worker < |p.cores|
  {
    var e := HandleCache.Execute(TokenOf(h), p.cores[chance.worker], request, EnvOf(h, draw, chance, request));
    (p.(cores := p.cores[chance.worker := e.core]), e.result)
  }

  /** `public_key`: the cached lookup, or a load through the pool that is stored on success. */
  ghost function PublicKeyOf(h: Hsm, p: Pooled, key: Label, draw: Draw, chance: Chance): (Pooled, Result<Lookup, Code>)
    requires IsSha256(h.f.sha) && chance.worker < |p.cores|
  {
    if key in p.keys then (p, Ok(p.keys[key]))
    else
      var (p', answer) := SubmitJob(h, p, GetPublicKey(key), draw, chance);
      match LoadPublicKey(answer)
      case Ok(lookup) => (p'.(keys := p'.keys[key := lookup]), Ok(lookup))
      case Err(_) => (p', Err(ToStatus(Internal)))
  }

  function FinishJob(rpc: Rpc, draw: Draw, answer: JobResult): Response {
    match answer
    case Err(e) => Err(ToStatus(e))
    case Ok(response) =>
      match (rpc, response)
      case (SignRpc(key, _, _), Signature(bytes)) => Ok(Signed(bytes, key))
      case (EncryptRpc(_, _, _, _), Ciphertext(bytes)) => Ok(Encrypted(bytes, draw.iv))
      case (DecryptRpc(_, _, _, _, _), Plaintext(bytes)) => Ok(Decrypted(bytes))
      case _ => Err(InternalCode)
  }

  ghost function ServeDirect(h: Hsm, p: Pooled, rpc: Rpc, request: JobRequest, draw: Draw, chance: Chance): (Pooled, Response)
    requires IsSha256(h.f.sha) && chance.worker < |p.cores|
  {
    var (p', answer) := SubmitJob(h, p, request, draw, chance);
    (p', FinishJob(rpc, draw, answer))
  }

  ghost function FinishInProcess(h: Hsm, lookup: Lookup, mechanism: int, input: SigningInput, signature: Bytes): Response
    requires IsSha256(h.f.sha)
  {
    match lookup
    case NotFound => Err(NotFoundCode)
    case Found(spki, _) =>
      match VerifyPublic(h.f, spki, mechanism, input, signature)
      case Ok(valid) => Ok(Checked(valid))
      case Err(_) => Err(InternalCode)
  }

  /** What Verify and GetPublicKey make of a public key lookup. */
  ghost function FinishLookup(h: Hsm, rpc: Rpc, lookup: Lookup): Response
    requires IsSha256(h.f.sha) && (rpc.GetPublicKeyRpc? || (rpc.VerifyRpc? && rpc.input.Some?))
  {
    if rpc.VerifyRpc? then FinishInProcess(h, lookup, rpc.mechanism, rpc.input.value, rpc.signature)
    else match lookup
      case NotFound => Err(NotFoundCode)
      case Found(spki, keyType) => Ok(Exported(spki, keyType))
  }

  /** An admitted request on the pooled backend. */
  ghost function Serve(h: Hsm, p0: Pooled, rpc: Rpc, draw: Draw, chance: Chance): (Pooled, Response)
    requires IsSha256(h.f.sha) && chance.worker < |p0.cores|
  {
    var p := p0.(keys := p0.keys - chance.gone);
    match rpc
    case SignRpc(key, mechanism, input) =>
      if input.None? then (p, Err(InvalidArgument))
      else (match Prepare(h.f.sha, mechanism, input.value)
            case Err(_) => (p, Err(InvalidArgument))
            case Ok(prep) => ServeDirect(h, p, rpc, Sign(key, prep.algorithm, prep.payload), draw, chance))
    case VerifyRpc(key, mechanism, input, signature) =>
      if input.None? then (p, Err(InvalidArgument))
      else
        var (p', found) := PublicKeyOf(h, p, key, draw, chance);
        (match found
         case Err(code) => (p', Err(code))
         case Ok(lookup) => (p', FinishLookup(h, rpc, lookup)))
    case EncryptRpc(key, mechanism, plaintext, aad) =>
      if mechanism != AES_GCM then (p, Err(InvalidArgument))
      else ServeDirect(h, p, rpc, Encrypt(key, plaintext, aad, draw.iv), draw, chance)
    case DecryptRpc(key, mechanism, ciphertext, iv, aad) =>
      if mechanism != AES_GCM then (p, Err(InvalidArgument))
      else if |iv| != GCM_IV_LEN then (p, Err(InvalidArgument))
      else ServeDirect(h, p, rpc, Decrypt(key, ciphertext, aad, iv), draw, chance)
    case GetPublicKeyRpc(key) =>
      var (p', found) := PublicKeyOf(h, p, key, draw, chance);
      (match found
       case Err(code) => (p', Err(code))
       case Ok(lookup) => (p', FinishLookup(h, rpc, lookup)))
  }

  // ----- The caches agree with the token -----

  /** What the token has under a label, as the cache would remember it. */
  ghost predicate IsLookup(h: Hsm, key: Label, lookup: Lookup) {
    match lookup
    case NotFound => !h.present(Public, key)
    case Found(spki, keyType) =>
      && h.present(Public, key)
      && spki == h.encodeSpki(h.publicKey(key))
      && KeyTypeOf(h.publicKey(key)) == Some(keyType)
  }

  ghost predicate Agrees(h: Hsm, p: Pooled) {
    && (forall w | 0 <= w < |p.cores| :: HandleCache.Coherent(TokenOf(h), p.cores[w]))
    && (forall key | key in p.keys :: IsLookup(h, key, p.keys[key]))
  }

  /** The uncached answer on any session with the same objects. */
  ghost function Plain(h: Hsm, s: HandleCache.Session, request: JobRequest, draw: Draw, chance: Chance): JobResult
    requires IsSha256(h.f.sha)
  {
    HandleCache.ExecuteUncached(TokenOf(h), s, request, EnvOf(h, draw, chance, request)).1
  }

  lemma ExecuteIsPlain(h: Hsm, core: HandleCache.Core, request: JobRequest, draw: Draw, chance: Chance)
    requires IsSha256(h.f.sha) && HandleCache.Coherent(TokenOf(h), core)
    ensures HandleCache.Execute(TokenOf(h), core, request, EnvOf(h, draw, chance, request)).result ==
            Plain(h, core.session, request, draw, chance)
  {
    var env := EnvOf(h, draw, chance, request);
    HandleCache.ExecuteRefinesUncached(TokenOf(h), core, request, env);
    HandleCache.ObservedSame(core, request, env);
  }

  lemma JobIsPlain(h: Hsm, p: Pooled, request: JobRequest, draw: Draw, chance: Chance)
    requires IsSha256(h.f.sha) && Agrees(h, p) && chance.worker < |p.cores|
    ensures Agrees(h, SubmitJob(h, p, request, draw, chance).0)
    ensures SubmitJob(h, p, request, draw, chance).1 == Plain(h, p.cores[chance.worker].session, request, draw, chance)
  {
    var core, env := p.cores[chance.worker], EnvOf(h, draw, chance, request);
    HandleCache.ExecuteKeepsCoherence(TokenOf(h), core, request, env);
    ExecuteIsPlain(h, core, request, draw, chance);
  }

  /** No two sessions can be told apart by what a job answers. */
  lemma SessionsAlike(h: Hsm, s: HandleCache.Session, t: HandleCache.Session, request: JobRequest, draw: Draw, chance: Chance)
    requires Lawful(h)
    ensures Plain(h, s, request, draw, chance) == Plain(h, t, request, draw, chance)
  {
    var kind, key := KindOf(request), request.key;
    if h.present(kind, key) {
      assert ObjectOf(h, s, h.handleOf(s, kind, key), kind) == Some(key);
      assert ObjectOf(h, t, h.handleOf(t, kind, key), kind) == Some(key);
    }
  }

  /** What a worker answers, in terms of the token's objects alone. */
  ghost function ExpectedAnswer(h: Hsm, request: JobRequest, nonce: nat): JobResult
    requires IsSha256(h.f.sha)
  {
    match request
    case Sign(key, algorithm, payload) =>
      if !h.present(Private, key) then Err(KeyNotFound(key))
      else (match h.sign(key, algorithm, payload, nonce)
            case Ok(bytes) => Ok(Signature(bytes))
            case Err(rv) => Err(PoolError.Hsm(rv)))
    case Verify(key, algorithm, payload, signature) =>
      if !h.present(Public, key) then Err(KeyNotFound(key))
      else (match TokenVerify(h.f, h.publicKey(key), Prepared(algorithm, payload), signature)
            case Ok(_) => Ok(Verified(true))
            case Err(SignatureInvalid) => Ok(Verified(false))
            case Err(SignatureLenRange) => Ok(Verified(false))
            case Err(rv) => Err(PoolError.Hsm(rv)))
    case Encrypt(key, plaintext, aad, iv) =>
      if !h.present(Secret, key) then Err(KeyNotFound(key))
      else if !h.gcmParams(iv, aad) then Err(InvalidRequest)
      else (match h.encrypt(key, plaintext, aad, iv)
            case Ok(bytes) => Ok(Ciphertext(bytes))
            case Err(rv) => Err(PoolError.Hsm(rv)))
    case Decrypt(key, ciphertext, aad, iv) =>
      if !h.present(Secret, key) then Err(KeyNotFound(key))
      else if !h.gcmParams(iv, aad) then Err(InvalidRequest)
      else (match h.decrypt(key, ciphertext, aad, iv)
            case Ok(bytes) => Ok(Plaintext(bytes))
            case Err(EncryptedDataInvalid) => Err(InvalidRequest)
            case Err(EncryptedDataLenRange) => Err(InvalidRequest)
            case Err(rv) => Err(PoolError.Hsm(rv)))
    case GetPublicKey(key) =>
      if !h.present(Public, key) then Err(KeyNotFound(key))
      else (match h.publicKey(key)
            case EcP256(_) => Ok(PublicKey(h.encodeSpki(h.publicKey(key)), Ec))
            case RsaKey(_, _) => Ok(PublicKey(h.encodeSpki(h.publicKey(key)), RsaType))
            case Exotic(_) => Err(Internal))
  }

  /** A worker keeps to that whatever its cache holds, on every session and through resets. */
  lemma WorkerAnswersExactly(h: Hsm, core: HandleCache.Core, request: JobRequest, draw: Draw, chance: Chance)
    requires Lawful(h) && HandleCache.Coherent(TokenOf(h), core)
    ensures HandleCache.Execute(TokenOf(h), core, request, EnvOf(h, draw, chance, request)).result ==
            ExpectedAnswer(h, request, draw.nonce)
  {
    ExecuteIsPlain(h, core, request, draw, chance);
    PlainIsExpected(h, core.session, request, draw, chance);
  }

  lemma PlainIsExpected(h: Hsm, s: HandleCache.Session, request: JobRequest, draw: Draw, chance: Chance)
    requires Lawful(h)
    ensures Plain(h, s, request, draw, chance) == ExpectedAnswer(h, request, draw.nonce)
  {
    var kind, key := KindOf(request), request.key;
    if h.present(kind, key) {
      assert ObjectOf(h, s, h.handleOf(s, kind, key), kind) == Some(key);
    }
  }

  lemma DirectIsPlain(h: Hsm, p: Pooled, rpc: Rpc, request: JobRequest, draw: Draw, chance: Chance, s: HandleCache.Session)
    requires Lawful(h) && Agrees(h, p) && chance.worker < |p.cores|
    ensures Agrees(h, ServeDirect(h, p, rpc, request, draw, chance).0)
    ensures |ServeDirect(h, p, rpc, request, draw, chance).0.cores| == |p.cores|
    ensures ServeDirect(h, p, rpc, request, draw, chance).1 == FinishJob(rpc, draw, Plain(h, s, request, draw, chance))
  {
    JobIsPlain(h, p, request, draw, chance);
    SessionsAlike(h, p.cores[chance.worker].session, s, request, draw, chance);
  }

  lemma SignAgrees(h: Hsm, s: HandleCache.Session, rpc: Rpc, prep: Prepared, draw: Draw, chance: Chance)
    requires Lawful(h) && rpc.SignRpc?
    ensures var request := Sign(rpc.key, prep.algorithm, prep.payload);
            FinishJob(rpc, draw, Plain(h, s, request, draw, chance)) ==
            WithObject(h, draw, s, request, true, FinishSign(rpc.key))
  {
  }

  lemma EncryptAgrees(h: Hsm, s: HandleCache.Session, rpc: Rpc, draw: Draw, chance: Chance)
    requires Lawful(h) && rpc.EncryptRpc?
    ensures var request := Encrypt(rpc.key, rpc.plaintext, rpc.aad, draw.iv);
            FinishJob(rpc, draw, Plain(h, s, request, draw, chance)) ==
            WithObject(h, draw, s, request, h.gcmParams(draw.iv, rpc.aad), FinishEncrypt(draw.iv))
  {
  }

  lemma DecryptAgrees(h: Hsm, s: HandleCache.Session, rpc: Rpc, draw: Draw, chance: Chance)
    requires Lawful(h) && rpc.DecryptRpc?
    ensures var request := Decrypt(rpc.key, rpc.ciphertext, rpc.aad, rpc.iv);
            FinishJob(rpc, draw, Plain(h, s, request, draw, chance)) ==
            WithObject(h, draw, s, request, h.gcmParams(rpc.iv, rpc.aad), FinishDecrypt)
  {
  }

  /** What a load or a cached entry yields: exactly what the token has. */
  lemma LookupIsTrue(h: Hsm, p: Pooled, key: Label, draw: Draw, chance: Chance)
    requires Lawful(h) && Agrees(h, p) && chance.worker < |p.cores|
    ensures var (p', found) := PublicKeyOf(h, p, key, draw, chance);
            && Agrees(h, p') && |p'.cores| == |p.cores|
            && (found.Ok? <==> !(h.present(Public, key) && h.publicKey(key).Exotic?))
            && (found.Ok? ==> IsLookup(h, key, found.value))
            && (found.Err? ==> found.error == InternalCode)
  {
    if key !in p.keys {
      JobIsPlain(h, p, GetPublicKey(key), draw, chance);
      var s := p.cores[chance.worker].session;
      if h.present(Public, key) {
        assert ObjectOf(h, s, h.handleOf(s, Public, key), Public) == Some(key);
      }
    } else {
      assert IsLookup(h, key, p.keys[key]);
    }
  }

  /** The in-process answer for a well-formed request against the token's own. */
  lemma VerifyAgrees(h: Hsm, s: HandleCache.Session, lookup: Lookup, rpc: Rpc, draw: Draw)
    requires Lawful(h) && rpc.VerifyRpc? && rpc.input.Some? && IsLookup(h, rpc.key, lookup)
    requires Prepare(h.f.sha, rpc.mechanism, rpc.input.value).Ok?
    ensures FinishInProcess(h, lookup, rpc.mechanism, rpc.input.value, rpc.signature) == Single(h, s, rpc, draw)
  {
    if lookup.Found? {
      var m := h.publicKey(rpc.key);
      VerifyAgreesWithToken(h.f, lookup.spki, m, rpc.mechanism, rpc.input.value, rpc.signature);
      assert ObjectOf(h, s, h.handleOf(s, Public, rpc.key), Public) == Some(rpc.key);
    }
  }

  /** Can the token itself answer a Verify on a key the proxy cannot encode? */
  ghost predicate TokenOnlyVerify(h: Hsm, rpc: Rpc)
    requires IsSha256(h.f.sha) && rpc.VerifyRpc? && rpc.input.Some? && WellFormed(rpc.mechanism, rpc.input.value)
  {
    PrepareOkExactly(h.f.sha, rpc.mechanism, rpc.input.value);
    && h.present(Public, rpc.key) && h.publicKey(rpc.key).Exotic?
    && match TokenVerify(h.f, h.publicKey(rpc.key), Prepare(h.f.sha, rpc.mechanism, rpc.input.value).value, rpc.signature)
       case Ok(_) => true
       case Err(rv) => rv == SignatureInvalid || rv == SignatureLenRange
  }

  /** The requests on which the backends agree: all but a Verify whose input is set and is
      malformed, or names a key only the token can use. */
  ghost predicate Equivalent(h: Hsm, rpc: Rpc)
    requires IsSha256(h.f.sha)
  {
    rpc.VerifyRpc? && rpc.input.Some? ==> WellFormed(rpc.mechanism, rpc.input.value) && !TokenOnlyVerify(h, rpc)
  }

  lemma VerifyServedExactly(h: Hsm, p: Pooled, rpc: Rpc, draw: Draw, chance: Chance, s: HandleCache.Session)
    requires Lawful(h) && Agrees(h, p) && chance.worker < |p.cores| && rpc.VerifyRpc? && rpc.input.Some?
    ensures var (p', found) := PublicKeyOf(h, p, rpc.key, draw, chance);
            var response := match found {
              case Err(code) => Err(code)
              case Ok(lookup) => FinishInProcess(h, lookup, rpc.mechanism, rpc.input.value, rpc.signature)
            };
            response == Single(h, s, rpc, draw) <==> Equivalent(h, rpc)
  {
    LookupIsTrue(h, p, rpc.key, draw, chance);
    PrepareOkExactly(h.f.sha, rpc.mechanism, rpc.input.value);
    var found := PublicKeyOf(h, p, rpc.key, draw, chance).1;
    var prep := Prepare(h.f.sha, rpc.mechanism, rpc.input.value);
    if prep.Err? {
      if found.Ok? && found.value.Found? {
        PrepareAcceptsExactly(h.f, found.value.spki, rpc.mechanism, rpc.input.value, rpc.signature, prep.error);
      }
    } else if found.Ok? {
      VerifyAgrees(h, s, found.value, rpc, draw);
    } else {
      assert ObjectOf(h, s, h.handleOf(s, Public, rpc.key), Public) == Some(rpc.key);
    }
  }

  lemma DropKeeps(h: Hsm, p: Pooled, gone: set<Label>)
    requires Agrees(h, p)
    ensures Agrees(h, p.(keys := p.keys - gone))
  {
  }

  /** One request: whatever the caches hold, whichever worker serves it, whichever entries
      have expired and however a session reopen goes, the pooled backend returns the status
      and payload of the one-session backend exactly on the equivalent requests. */
  lemma ServeAgreesExactly(h: Hsm, p0: Pooled, rpc: Rpc, draw: Draw, chance: Chance, s: HandleCache.Session)
    requires Lawful(h) && Agrees(h, p0) && chance.worker < |p0.cores|
    ensures Agrees(h, Serve(h, p0, rpc, draw, chance).0)
    ensures |Serve(h, p0, rpc, draw, chance).0.cores| == |p0.cores|
    ensures Serve(h, p0, rpc, draw, chance).1 == Single(h, s, rpc, draw) <==> Equivalent(h, rpc)
  {
    DropKeeps(h, p0, chance.gone);
    var p := p0.(keys := p0.keys - chance.gone);
    match rpc {
      case SignRpc(key, mechanism, input) =>
        if input.Some? && Prepare(h.f.sha, mechanism, input.value).Ok? {
          var prep := Prepare(h.f.sha, mechanism, input.value).value;
          DirectIsPlain(h, p, rpc, Sign(key, prep.algorithm, prep.payload), draw, chance, s);
          SignAgrees(h, s, rpc, prep, draw, chance);
        }
      case VerifyRpc(key, mechanism, input, signature) =>
        if input.Some? {
          LookupIsTrue(h, p, key, draw, chance);
          VerifyServedExactly(h, p, rpc, draw, chance, s);
        }
      case EncryptRpc(key, mechanism, plaintext, aad) =>
        DirectIsPlain(h, p, rpc, Encrypt(key, plaintext, aad, draw.iv), draw, chance, s);
        EncryptAgrees(h, s, rpc, draw, chance);
      case DecryptRpc(key, mechanism, ciphertext, iv, aad) =>
        DirectIsPlain(h, p, rpc, Decrypt(key, ciphertext, aad, iv), draw, chance, s);
        DecryptAgrees(h, s, rpc, draw, chance);
      case GetPublicKeyRpc(key) =>
        LookupIsTrue(h, p, key, draw, chance);
        if h.present(Public, key) {
          assert ObjectOf(h, s, h.handleOf(s, Public, key), Public) == Some(key);
        }
    }
  }

  /** The two backends against the promise: the one-session backend always keeps it, the
      pooled one exactly on the equivalent requests. */
  lemma ServesAsPromised(h: Hsm, p: Pooled, rpc: Rpc, draw: Draw, chance: Chance)
    requires Lawful(h) && Agrees(h, p) && chance.worker < |p.cores|
    ensures Serve(h, p, rpc, draw, chance).1 == Expected(h, rpc, draw) <==> Equivalent(h, rpc)
  {
    ServeAgreesExactly(h, p, rpc, draw, chance, 0);
    SingleIsExpected(h, 0, rpc, draw);
  }

  /** The request says enough to be carried out, whatever the token holds. */
  predicate IsValid(rpc: Rpc) {
    match rpc
    case SignRpc(_, mechanism, input) => input.Some? && WellFormed(mechanism, input.value)
    case VerifyRpc(_, mechanism, input, _) => input.Some? && WellFormed(mechanism, input.value)
    case EncryptRpc(_, mechanism, _, _) => mechanism == 1
    case DecryptRpc(_, mechanism, _, iv, _) => mechanism == 1 && |iv| == 12
    case GetPublicKeyRpc(_) => true
  }

  /** Does the token hold the object the request needs? */
  predicate HasObject(h: Hsm, rpc: Rpc) {
    match rpc
    case SignRpc(key, _, _) => h.present(Private, key)
    case VerifyRpc(key, _, _, _) => h.present(Public, key)
    case EncryptRpc(key, _, _, _) => h.present(Secret, key)
    case DecryptRpc(key, _, _, _, _) => h.present(Secret, key)
    case GetPublicKeyRpc(key) => h.present(Public, key)
  }

  /** Both backends say "not found" to a valid request exactly if the token lacks the object of
      the class its operation needs. */
  lemma NotFoundExactly(h: Hsm, p: Pooled, rpc: Rpc, draw: Draw, chance: Chance, s: HandleCache.Session)
    requires Lawful(h) && Agrees(h, p) && chance.worker < |p.cores| && IsValid(rpc)
    ensures Single(h, s, rpc, draw) == Err(NotFoundCode) <==> !HasObject(h, rpc)
    ensures Serve(h, p, rpc, draw, chance).1 == Err(NotFoundCode) <==> !HasObject(h, rpc)
  {
    SingleIsExpected(h, s, rpc, draw);
    if Equivalent(h, rpc) {
      ServesAsPromised(h, p, rpc, draw, chance);
    } else {
      DropKeeps(h, p, chance.gone);
      LookupIsTrue(h, p.(keys := p.keys - chance.gone), rpc.key, draw, chance);
    }
  }

  // ----- Sequences of requests -----

  datatype Request = Request(rpc: Rpc, draw: Draw, chance: Chance)

  ghost predicate WorkersExist(n: nat, requests: seq<Request>) {
    forall i | 0 <= i < |requests| :: requests[i].chance.worker < n
  }

  ghost function StateAfter(h: Hsm, p: Pooled, requests: seq<Request>): (r: Pooled)
    requires IsSha256(h.f.sha) && WorkersExist(|p.cores|, requests)
    ensures |r.cores| == |p.cores|
  {
    if requests == [] then p
    else
      var last := Last(requests);
      Serve(h, StateAfter(h, p, Front(requests)), last.rpc, last.draw, last.chance).0
  }

  ghost function Responses(h: Hsm, p: Pooled, requests: seq<Request>): seq<Response>
    requires IsSha256(h.f.sha) && WorkersExist(|p.cores|, requests)
  {
    if requests == [] then []
    else
      var last := Last(requests);
      Responses(h, p, Front(requests)) + [Serve(h, StateAfter(h, p, Front(requests)), last.rpc, last.draw, last.chance).1]
  }

  ghost function SingleResponses(h: Hsm, s: HandleCache.Session, requests: seq<Request>): seq<Response>
    requires IsSha256(h.f.sha)
  {
    if requests == [] then []
    else SingleResponses(h, s, Front(requests)) + [Single(h, s, Last(requests).rpc, Last(requests).draw)]
  }

  lemma {:induction false} StateAgrees(h: Hsm, p: Pooled, requests: seq<Request>)
    requires Lawful(h) && Agrees(h, p) && WorkersExist(|p.cores|, requests)
    ensures Agrees(h, StateAfter(h, p, requests))
  {
    if requests != [] {
      var front, last := Front(requests), Last(requests);
      StateAgrees(h, p, front);
      ServeAgreesExactly(h, StateAfter(h, p, front), last.rpc, last.draw, last.chance, 0);
    }
  }

  lemma AppendedEqual<T>(a: seq<T>, x: T, b: seq<T>, y: T)
    ensures a + [x] == b + [y] <==> a == b && x == y
  {
    if a + [x] == b + [y] {
      assert a == Front(a + [x]) && x == Last(a + [x]);
      assert b == Front(b + [y]) && y == Last(b + [y]);
    }
  }

  lemma OneMoreResponse(h: Hsm, p: Pooled, s: HandleCache.Session, requests: seq<Request>)
    requires Lawful(h) && Agrees(h, p) && WorkersExist(|p.cores|, requests) && requests != []
    ensures Responses(h, p, requests) == SingleResponses(h, s, requests) <==>
            && Responses(h, p, Front(requests)) == SingleResponses(h, s, Front(requests))
            && Equivalent(h, Last(requests).rpc)
  {
    var front, last := Front(requests), Last(requests);
    StateAgrees(h, p, front);
    var mine, theirs := Serve(h, StateAfter(h, p, front), last.rpc, last.draw, last.chance).1, Single(h, s, last.rpc, last.draw);
    ServeAgreesExactly(h, StateAfter(h, p, front), last.rpc, last.draw, last.chance, s);
    AppendedEqual(Responses(h, p, front), mine, SingleResponses(h, s, front), theirs);
  }

  /** Every sequence of equivalent requests gets the same answers from both backends, on any
      schedule of workers, evictions and session reopens; and the answers differ as soon as
      one request of the sequence is not equivalent. */
  lemma {:induction false} PooledRefinesSingle(h: Hsm, p: Pooled, s: HandleCache.Session, requests: seq<Request>)
    requires Lawful(h) && Agrees(h, p) && WorkersExist(|p.cores|, requests)
    ensures Responses(h, p, requests) == SingleResponses(h, s, requests) <==>
            forall i | 0 <= i < |requests| :: Equivalent(h, requests[i].rpc)
  {
    if requests != [] {
      PooledRefinesSingle(h, p, s, Front(requests));
      OneMoreResponse(h, p, s, requests);
      assert forall i | 0 <= i < |requests| - 1 :: requests[i] == Front(requests)[i];
    }
  }
}
