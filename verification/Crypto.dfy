/** Wire mechanisms and key material in PKCS#11 terms: what is handed to `C_Sign`, how the
    digest is recovered from it, in-process verification, and the EC point unwrap.

    SHA-256 and the signature primitives are parameters. */
module Crypto {
  import opened Basics
  import opened Jobs

  const SHA256_LEN := 32

  const DIGEST_INFO_PREFIX: Bytes :=
    [0x30, 0x31, 0x30, 0x0d, 0x06, 0x09, 0x60, 0x86, 0x48, 0x01, 0x65, 0x03, 0x04, 0x02, 0x01, 0x05, 0x00, 0x04, 0x20]

  datatype SigningInput = Message(bytes: Bytes) | Digest(bytes: Bytes)

  datatype Mechanism = Unspecified | EcdsaSha256 | RsaPkcsSha256 | RsaPssSha256

  datatype CryptoError = UnknownMechanism | UnspecifiedMechanism | BadDigestLength(got: nat) | NotDigestInfo

  datatype Prepared = Prepared(algorithm: SignAlgorithm, payload: Bytes)

  ghost predicate IsSha256(sha: Bytes -> Bytes) {
    forall m :: |sha(m)| == SHA256_LEN
  }

  function MechanismOf(wire: int): Option<Mechanism> {
    match wire
    case 0 => Some(Unspecified)
    case 1 => Some(EcdsaSha256)
    case 2 => Some(RsaPkcsSha256)
    case 3 => Some(RsaPssSha256)
    case _ => None
  }

  function CheckedDigest(digest: Bytes): Result<Bytes, CryptoError> {
    if |digest| == SHA256_LEN then Ok(digest) else Err(BadDigestLength(|digest|))
  }

  function PrepareDigest(algorithm: SignAlgorithm, prefix: Bytes, digest: Bytes): Result<Prepared, CryptoError> {
    match CheckedDigest(digest)
    case Ok(d) => Ok(Prepared(algorithm, prefix + d))
    case Err(e) => Err(e)
  }

  function Prepare(sha: Bytes -> Bytes, wire: int, input: SigningInput): Result<Prepared, CryptoError> {
    match MechanismOf(wire)
    case None => Err(UnknownMechanism)
    case Some(mechanism) =>
      match (mechanism, input)
      case (Unspecified, _) => Err(UnspecifiedMechanism)
      case (EcdsaSha256, Message(m)) => Ok(Prepared(Ecdsa, sha(m)))
      case (EcdsaSha256, Digest(d)) => PrepareDigest(Ecdsa, [], d)
      case (RsaPkcsSha256, Message(m)) => Ok(Prepared(Sha256RsaPkcs, m))
      case (RsaPkcsSha256, Digest(d)) => PrepareDigest(RsaPkcs, DIGEST_INFO_PREFIX, d)
      case (RsaPssSha256, Message(m)) => Ok(Prepared(Sha256RsaPkcsPss, m))
      case (RsaPssSha256, Digest(d)) => PrepareDigest(RsaPkcsPss, [], d)
  }

  /** The requests that can be signed or verified at all: a mechanism the protocol names, on a
      message or on a digest of the right length. */
  predicate WellFormed(wire: int, input: SigningInput) {
    wire in {1, 2, 3} && (input.Message? || |input.bytes| == SHA256_LEN)
  }

  /** What the token is asked to sign, by the mechanism's number in the protocol: 1 is ECDSA,
      2 is PKCS#1 v1.5, 3 is PSS. The RSA mechanisms hash a message themselves; for a digest
      their bare forms are used, and PKCS#1 v1.5 then needs the DigestInfo. */
  function ToSign(sha: Bytes -> Bytes, wire: int, input: SigningInput): Prepared
    requires WellFormed(wire, input)
  {
    if wire == 1 then Prepared(Ecdsa, if input.Message? then sha(input.bytes) else input.bytes)
    else if wire == 2 then
      if input.Message? then Prepared(Sha256RsaPkcs, input.bytes) else Prepared(RsaPkcs, DIGEST_INFO_PREFIX + input.bytes)
    else
      Prepared(if input.Message? then Sha256RsaPkcsPss else RsaPkcsPss, input.bytes)
  }

  /** `prepare` accepts exactly these, and each other request has its own error. */
  lemma PrepareOkExactly(sha: Bytes -> Bytes, wire: int, input: SigningInput)
    ensures Prepare(sha, wire, input).Ok? <==> WellFormed(wire, input)
    ensures WellFormed(wire, input) ==> Prepare(sha, wire, input) == Ok(ToSign(sha, wire, input))
    ensures Prepare(sha, wire, input) == Err(UnspecifiedMechanism) <==> wire == 0
    ensures Prepare(sha, wire, input) == Err(UnknownMechanism) <==> !(0 <= wire <= 3)
    ensures Prepare(sha, wire, input) == Err(BadDigestLength(|input.bytes|)) <==>
            1 <= wire <= 3 && input.Digest? && |input.bytes| != SHA256_LEN
  {
    assert [] + input.bytes == input.bytes;
  }

  function DigestOf(sha: Bytes -> Bytes, input: SigningInput): Result<Bytes, CryptoError> {
    match input
    case Message(m) => Ok(sha(m))
    case Digest(d) => CheckedDigest(d)
  }

  function VerificationDigest(sha: Bytes -> Bytes, p: Prepared): Result<Bytes, CryptoError> {
    match p.algorithm
    case Ecdsa => Ok(p.payload)
    case RsaPkcsPss => Ok(p.payload)
    case Sha256RsaPkcs => Ok(sha(p.payload))
    case Sha256RsaPkcsPss => Ok(sha(p.payload))
    case RsaPkcs =>
      var n := |DIGEST_INFO_PREFIX|;
      if |p.payload| != n + SHA256_LEN || !(DIGEST_INFO_PREFIX <= p.payload)
      then Err(NotDigestInfo)
      else Ok(p.payload[n..])
  }

  /** Undoing `prepare` yields the digest the caller meant, for every accepted request. */
  lemma DigestRoundTrip(sha: Bytes -> Bytes, wire: int, input: SigningInput)
    requires Prepare(sha, wire, input).Ok?
    ensures DigestOf(sha, input).Ok?
    ensures VerificationDigest(sha, Prepare(sha, wire, input).value) == DigestOf(sha, input)
  {
    if input.Digest? {
      assert [] + input.bytes == input.bytes;
      assert (DIGEST_INFO_PREFIX + input.bytes)[|DIGEST_INFO_PREFIX|..] == input.bytes;
    }
  }

  // ----- DER, as X.690 defines it -----

  /** Big-endian base-256 digits without leading zeros. */
  function Base256(n: nat): Bytes {
    if n == 0 then [] else Base256(n / 256) + [n % 256]
  }

  /** Length octets (section 8.1.3 of X.690): short form below 128, else the shortest long form. */
  function DerLength(n: nat): Bytes
    requires |Base256(n)| <= 126
  {
    if n < 128 then [n] else [0x80 + |Base256(n)|] + Base256(n)
  }

  function Tlv(tag: Byte, content: Bytes): Bytes
    requires |Base256(|content|)| <= 126
  {
    [tag] + DerLength(|content|) + content
  }

  /** The leading octets of an OID arc carry the continuation bit. */
  function ArcHigh(n: nat): Bytes {
    if n < 128 then [n + 128] else ArcHigh(n / 128) + [n % 128 + 128]
  }

  function Arc(n: nat): Bytes {
    if n < 128 then [n] else ArcHigh(n / 128) + [n % 128]
  }

  /** The contents octets of id-sha256, 2.16.840.1.101.3.4.2.1; the first two arcs share an octet. */
  function Sha256Oid(): Bytes {
    Arc(2 * 40 + 16) + Arc(840) + Arc(1) + Arc(101) + Arc(3) + Arc(4) + Arc(2) + Arc(1)
  }

  lemma Sha256OidOctets()
    ensures Sha256Oid() == [0x60, 0x86, 0x48, 0x01, 0x65, 0x03, 0x04, 0x02, 0x01]
  {
    assert ArcHigh(6) == [0x86];
    assert Arc(840) == [0x86, 0x48];
  }

  lemma {:induction false} SmallBase256(n: nat)
    ensures n < 256 ==> |Base256(n)| <= 1 && (0 < n ==> Base256(n) == [n])
    ensures 256 <= n ==> |Base256(n)| >= 2
  {
    if n >= 256 {
      SmallBase256(n / 256);
    } else if n > 0 {
      assert Base256(n / 256) == [];
    }
  }

  /** A TLV of at most 127 content octets has a two-octet header. */
  lemma ShortTlv(tag: Byte, content: Bytes)
    requires |content| < 128
    ensures |Base256(|content|)| <= 126
    ensures Tlv(tag, content) == [tag, |content|] + content
  {
    SmallBase256(|content|);
  }

  /** AlgorithmIdentifier { id-sha256, NULL }. */
  function AlgorithmIdentifier(): Bytes {
    Sha256OidOctets();
    ShortTlv(0x06, Sha256Oid());
    ShortTlv(0x05, []);
    var fields := Tlv(0x06, Sha256Oid()) + Tlv(0x05, []);
    ShortTlv(0x30, fields);
    Tlv(0x30, fields)
  }

  lemma AlgorithmIdentifierOctets()
    ensures AlgorithmIdentifier() ==
            [0x30, 0x0d, 0x06, 0x09, 0x60, 0x86, 0x48, 0x01, 0x65, 0x03, 0x04, 0x02, 0x01, 0x05, 0x00]
  {
    Sha256OidOctets();
    ShortTlv(0x06, Sha256Oid());
    ShortTlv(0x05, []);
    var fields := Tlv(0x06, Sha256Oid()) + Tlv(0x05, []);
    assert fields == [0x06, 9] + Sha256Oid() + [0x05, 0];
    ShortTlv(0x30, fields);
  }

  /** DigestInfo of section 9.2 of RFC 8017 for a SHA-256 digest. */
  function DigestInfo(digest: Bytes): Bytes
    requires |digest| == SHA256_LEN
  {
    AlgorithmIdentifierOctets();
    ShortTlv(0x04, digest);
    var body := AlgorithmIdentifier() + Tlv(0x04, digest);
    ShortTlv(0x30, body);
    Tlv(0x30, body)
  }

  lemma DigestInfoShape(digest: Bytes)
    requires |digest| == SHA256_LEN
    ensures DigestInfo(digest) == [0x30, 0x31] + (AlgorithmIdentifier() + ([0x04, 0x20] + digest))
  {
    AlgorithmIdentifierOctets();
    ShortTlv(0x04, digest);
    ShortTlv(0x30, AlgorithmIdentifier() + Tlv(0x04, digest));
  }

  /** The constant prefix is exactly the DER header of every SHA-256 DigestInfo. */
  lemma PrefixIsDer(digest: Bytes)
    requires |digest| == SHA256_LEN
    ensures DigestInfo(digest) == DIGEST_INFO_PREFIX + digest
  {
    DigestInfoShape(digest);
    AlgorithmIdentifierOctets();
    var prefix: Bytes := [0x30, 0x31] + AlgorithmIdentifier() + [0x04, 0x20];
    assert DIGEST_INFO_PREFIX == prefix;
  }

  /** A payload for the raw RSA mechanism is accepted back exactly when it is the DigestInfo
      of the digest that comes out. */
  lemma StripAcceptsExactlyDigestInfo(sha: Bytes -> Bytes, payload: Bytes, digest: Bytes)
    ensures VerificationDigest(sha, Prepared(RsaPkcs, payload)) == Ok(digest) <==>
            |digest| == SHA256_LEN && payload == DigestInfo(digest)
  {
    if |digest| == SHA256_LEN {
      PrefixIsDer(digest);
      assert (DIGEST_INFO_PREFIX + digest)[|DIGEST_INFO_PREFIX|..] == digest;
    }
    var n := |DIGEST_INFO_PREFIX|;
    if |payload| == n + SHA256_LEN && DIGEST_INFO_PREFIX <= payload {
      assert payload == DIGEST_INFO_PREFIX + payload[n..];
    }
  }

  /** EMSA-PKCS1-v1_5 padding of an already encoded T (section 9.2 of RFC 8017, steps 3 to 5). */
  function Pad(emLen: nat, t: Bytes): Option<Bytes> {
    if emLen < |t| + 11 then None
    else Some([0x00, 0x01] + seq(emLen - |t| - 3, _ => 0xff) + [0x00] + t)
  }

  /** The block the token exponentiates: `CKM_RSA_PKCS` pads what it is given,
      `CKM_SHA256_RSA_PKCS` hashes and wraps it first. */
  ghost function Pkcs1Block(sha: Bytes -> Bytes, emLen: nat, p: Prepared): Option<Bytes>
    requires IsSha256(sha) && (p.algorithm == RsaPkcs || p.algorithm == Sha256RsaPkcs)
  {
    if p.algorithm == RsaPkcs then Pad(emLen, p.payload) else Pad(emLen, DigestInfo(sha(p.payload)))
  }

  /** Signing a message and signing its digest put the same block under the private key, so
      deterministic PKCS#1 v1.5 gives the same signature bytes. */
  lemma MessageAndDigestSignAlike(sha: Bytes -> Bytes, emLen: nat, message: Bytes)
    requires IsSha256(sha)
    ensures var m, d := Prepare(sha, 2, Message(message)), Prepare(sha, 2, Digest(sha(message)));
            && m.Ok? && d.Ok?
            && m.value.algorithm == Sha256RsaPkcs && d.value.algorithm == RsaPkcs
            && Pkcs1Block(sha, emLen, m.value) == Pkcs1Block(sha, emLen, d.value)
  {
    PrefixIsDer(sha(message));
  }

  // ----- Verification -----

  datatype PublicKeyMaterial =
    | EcP256(point: Bytes)
    | RsaKey(modulus: Bytes, exponent: Bytes)
    | Exotic(id: nat)

  /** The signature equations, and the SubjectPublicKeyInfo decoder. `exoticVerify` is what
      the token does with keys the proxy cannot encode. */
  datatype Primitives = Primitives(
    sha: Bytes -> Bytes,
    ecdsaValid: (Bytes, Bytes, Bytes) -> bool,
    pkcs1Valid: (PublicKeyMaterial, Bytes, Bytes) -> bool,
    pssValid: (PublicKeyMaterial, Bytes, Bytes) -> bool,
    exoticVerify: (nat, SignAlgorithm, Bytes, Bytes) -> Result<(), Rv>,
    decodeSpki: Bytes -> Option<PublicKeyMaterial>)

  datatype VerifyError = BadRequest(why: CryptoError) | BadKey

  function Answer(valid: bool): Result<(), Rv> {
    if valid then Ok(()) else Err(SignatureInvalid)
  }

  const KEY_TYPE_INCONSISTENT := OtherRv(0x63)

  /** `C_Verify` on the token. */
  ghost function TokenVerify(f: Primitives, key: PublicKeyMaterial, p: Prepared, signature: Bytes): Result<(), Rv>
    requires IsSha256(f.sha)
  {
    match key
    case EcP256(point) =>
      if p.algorithm == Ecdsa then Answer(f.ecdsaValid(point, p.payload, signature)) else Err(KEY_TYPE_INCONSISTENT)
    case RsaKey(_, _) =>
      (match p.algorithm
       case RsaPkcs => Answer(f.pkcs1Valid(key, p.payload, signature))
       case Sha256RsaPkcs => Answer(f.pkcs1Valid(key, DigestInfo(f.sha(p.payload)), signature))
       case RsaPkcsPss => Answer(f.pssValid(key, p.payload, signature))
       case Sha256RsaPkcsPss => Answer(f.pssValid(key, f.sha(p.payload), signature))
       case Ecdsa => Err(KEY_TYPE_INCONSISTENT))
    case Exotic(id) => f.exoticVerify(id, p.algorithm, p.payload, signature)
  }

  ghost function VerifyEcdsa(f: Primitives, spki: Bytes, digest: Bytes, signature: Bytes): Result<bool, VerifyError> {
    match f.decodeSpki(spki)
    case Some(EcP256(point)) => Ok(f.ecdsaValid(point, digest, signature))
    case _ => Err(BadKey)
  }

  ghost function VerifyRsa(f: Primitives, spki: Bytes, digest: Bytes, signature: Bytes, pss: bool): Result<bool, VerifyError>
    requires |digest| == SHA256_LEN
  {
    match f.decodeSpki(spki)
    case Some(RsaKey(n, e)) =>
      if pss then Ok(f.pssValid(RsaKey(n, e), digest, signature))
      else Ok(f.pkcs1Valid(RsaKey(n, e), DigestInfo(digest), signature))
    case _ => Err(BadKey)
  }

  /** In-process verification; `ring` hashes the message itself, the other paths take a digest. */
  ghost function VerifyPublic(f: Primitives, spki: Bytes, wire: int, input: SigningInput, signature: Bytes)
    : Result<bool, VerifyError>
    requires IsSha256(f.sha)
  {
    match MechanismOf(wire)
    case None => Err(BadRequest(UnknownMechanism))
    case Some(Unspecified) => Err(BadRequest(UnspecifiedMechanism))
    case Some(EcdsaSha256) =>
      (match input
       case Message(m) => VerifyEcdsa(f, spki, f.sha(m), signature)
       case Digest(d) =>
         (match CheckedDigest(d)
          case Ok(digest) => VerifyEcdsa(f, spki, digest, signature)
          case Err(e) => Err(BadRequest(e))))
    case Some(RsaPkcsSha256) =>
      (match DigestOf(f.sha, input)
       case Ok(digest) => VerifyRsa(f, spki, digest, signature, false)
       case Err(e) => Err(BadRequest(e)))
    case Some(RsaPssSha256) =>
      (match DigestOf(f.sha, input)
       case Ok(digest) => VerifyRsa(f, spki, digest, signature, true)
       case Err(e) => Err(BadRequest(e)))
  }

  /** Signing and in-process verification accept exactly the same (mechanism, input) pairs,
      and reject the others for the same reason, whatever the key and the signature. */
  lemma PrepareAcceptsExactly(f: Primitives, spki: Bytes, wire: int, input: SigningInput, signature: Bytes, why: CryptoError)
    requires IsSha256(f.sha)
    ensures Prepare(f.sha, wire, input) == Err(why) <==>
            VerifyPublic(f, spki, wire, input, signature) == Err(BadRequest(why))
  {
  }

  /** On a key whose SPKI decodes, in-process verification gives the token's own answer. */
  lemma VerifyAgreesWithToken(f: Primitives, spki: Bytes, key: PublicKeyMaterial, wire: int, input: SigningInput, signature: Bytes)
    requires IsSha256(f.sha) && f.decodeSpki(spki) == Some(key) && !key.Exotic?
    requires Prepare(f.sha, wire, input).Ok?
    ensures VerifyPublic(f, spki, wire, input, signature) ==
            match TokenVerify(f, key, Prepare(f.sha, wire, input).value, signature) {
              case Ok(_) => Ok(true)
              case Err(SignatureInvalid) => Ok(false)
              case Err(_) => Err(BadKey)
            }
  {
    if input.Digest? {
      assert [] + input.bytes == input.bytes;
      PrefixIsDer(input.bytes);
    }
  }

  /** The two input forms verify alike under every mechanism, known or not. */
  lemma InputFormsVerifyAlike(f: Primitives, spki: Bytes, wire: int, message: Bytes, signature: Bytes)
    requires IsSha256(f.sha)
    ensures VerifyPublic(f, spki, wire, Message(message), signature) ==
            VerifyPublic(f, spki, wire, Digest(f.sha(message)), signature)
  {
  }

  // ----- CKA_EC_POINT -----

  datatype UnwrapError = NeitherForm | LengthEncoding | Truncated

  function Slice(bytes: Bytes, offset: nat, len: nat): Result<Bytes, UnwrapError> {
    if offset + len <= |bytes| then Ok(bytes[offset..offset + len]) else Err(Truncated)
  }

  function Unwrap(bytes: Bytes): Result<Bytes, UnwrapError> {
    if |bytes| == 65 && bytes[0] == 0x04 then Ok(bytes)
    else if |bytes| == 0 || bytes[0] != 0x04 then Err(NeitherForm)
    else if |bytes| == 1 then Err(LengthEncoding)
    else if bytes[1] < 0x80 then Slice(bytes, 2, bytes[1])
    else if bytes[1] == 0x81 then (if |bytes| == 2 then Err(Truncated) else Slice(bytes, 3, bytes[2]))
    else Err(LengthEncoding)
  }

  predicate IsBarePoint(bytes: Bytes) {
    |bytes| == 65 && bytes[0] == 0x04
  }

  /** `bytes` starts with an OCTET STRING header for `content` followed by `content`. The
      one-octet long form need not be minimal, and what follows is ignored. */
  predicate StartsWithOctetString(bytes: Bytes, content: Bytes) {
    || (|content| < 128 && [0x04, |content|] + content <= bytes)
    || (|content| < 256 && [0x04, 0x81, |content|] + content <= bytes)
  }

  /** The unwrap succeeds with `r` exactly on a bare point, or on an OCTET STRING of `r`. */
  lemma UnwrapAcceptsExactly(bytes: Bytes, r: Bytes)
    ensures Unwrap(bytes) == Ok(r) <==>
            if IsBarePoint(bytes) then r == bytes else StartsWithOctetString(bytes, r)
  {
    if !IsBarePoint(bytes) {
      if Unwrap(bytes) == Ok(r) {
        var o := if bytes[1] < 0x80 then 2 else 3;
        assert bytes[..o + |r|] == bytes[..o] + r;
        assert bytes[..o] == if o == 2 then [0x04, |r|] else [0x04, 0x81, |r|];
      }
      if |r| < 128 && [0x04, |r|] + r <= bytes {
        assert bytes[2..2 + |r|] == ([0x04, |r|] + r)[2..] == r;
        assert bytes[0] == 0x04 && bytes[1] == |r|;
      } else if |r| < 256 && [0x04, 0x81, |r|] + r <= bytes {
        assert bytes[3..3 + |r|] == ([0x04, 0x81, |r|] + r)[3..] == r;
        assert bytes[0] == 0x04 && bytes[1] == 0x81 && bytes[2] == |r|;
      }
    }
  }

  lemma LongTlv(content: Bytes)
    requires 128 <= |content| && |Base256(|content|)| <= 126
    ensures |Tlv(0x04, content)| > 65
    ensures Tlv(0x04, content)[0] == 0x04
    ensures |content| < 256 ==> Tlv(0x04, content) == [0x04, 0x81, |content|] + content
    ensures |content| >= 256 ==> Tlv(0x04, content)[1] > 0x81
  {
    SmallBase256(|content|);
  }

  /** The unwrap undoes DER for exactly the payloads of 0 to 255 octets other than 63: there
      the encoding is 65 octets long and is taken for a bare point. */
  lemma UnwrapInvertsDer(payload: Bytes)
    requires |Base256(|payload|)| <= 126
    ensures Unwrap(Tlv(0x04, payload)) == Ok(payload) <==> |payload| <= 255 && |payload| != 63
  {
    if |payload| < 128 {
      ShortTlv(0x04, payload);
    } else {
      LongTlv(payload);
    }
    UnwrapAcceptsExactly(Tlv(0x04, payload), payload);
  }

  /** Both forms in which modules return a P-256 point unwrap to the same octets. */
  lemma BareAndWrappedPointsAgree(point: Bytes)
    requires IsBarePoint(point)
    ensures |Base256(|point|)| <= 126
    ensures Unwrap(point) == Unwrap(Tlv(0x04, point)) == Ok(point)
  {
    ShortTlv(0x04, point);
    UnwrapInvertsDer(point);
  }
}
