/** The unit of work handed to a pool worker, its answer, and the ways it can fail. */
module Jobs {
  import opened Basics

  type Label = string

  datatype KeyKind = Private | Public | Secret

  datatype SignAlgorithm = Ecdsa | RsaPkcs | Sha256RsaPkcs | RsaPkcsPss | Sha256RsaPkcsPss

  datatype KeyType = Ec | RsaType

  datatype JobRequest =
    | Sign(key: Label, algorithm: SignAlgorithm, payload: Bytes)
    | Verify(key: Label, algorithm: SignAlgorithm, payload: Bytes, signature: Bytes)
    | Encrypt(key: Label, plaintext: Bytes, aad: Bytes, iv: Bytes)
    | Decrypt(key: Label, ciphertext: Bytes, aad: Bytes, iv: Bytes)
    | GetPublicKey(key: Label)

  datatype JobResponse =
    | Signature(signature: Bytes)
    | Verified(valid: bool)
    | Ciphertext(ciphertext: Bytes)
    | Plaintext(plaintext: Bytes)
    | PublicKey(spki: Bytes, keyType: KeyType)

  /** The PKCS#11 return values the proxy tells apart. */
  datatype Rv =
    | SignatureInvalid | SignatureLenRange
    | EncryptedDataInvalid | EncryptedDataLenRange
    | SessionHandleInvalid | SessionClosed | DeviceError | DeviceRemoved | TokenNotPresent | UserNotLoggedIn
    | OtherRv(code: nat)

  datatype PoolError =
    | KeyNotFound(key: Label)
    | InvalidRequest
    | Overloaded
    | Timeout
    | ShuttingDown
    | Hsm(source: Rv)
    | Internal

  type JobResult = Result<JobResponse, PoolError>

  /** Which class of object an operation needs. */
  function KindOf(request: JobRequest): KeyKind {
    match request
    case Sign(_, _, _) => Private
    case Verify(_, _, _, _) => Public
    case Encrypt(_, _, _, _) => Secret
    case Decrypt(_, _, _, _) => Secret
    case GetPublicKey(_) => Public
  }

  /** The response variant a handler expects for a request. */
  predicate Matches(request: JobRequest, response: JobResponse) {
    match request
    case Sign(_, _, _) => response.Signature?
    case Verify(_, _, _, _) => response.Verified?
    case Encrypt(_, _, _, _) => response.Ciphertext?
    case Decrypt(_, _, _, _) => response.Plaintext?
    case GetPublicKey(_) => response.PublicKey?
  }

  predicate SessionFatal(rv: Rv) {
    rv in {SessionHandleInvalid, SessionClosed, DeviceError, DeviceRemoved, TokenNotPresent, UserNotLoggedIn}
  }
}
