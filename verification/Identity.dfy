/** Deriving the caller's identity from its certificate, and the bounded memo over it. */
module Identity {
  import opened Basics

  datatype GeneralName = Uri(uri: string) | OtherName

  datatype Extension = SubjectAlternativeName(names: seq<GeneralName>) | OtherExtension

  datatype CommonName = Text(text: string) | Undecodable

  /** A parsed certificate: the parts that carry identity. */
  datatype Certificate = Certificate(extensions: seq<Extension>, commonNames: seq<CommonName>)

  predicate UriAt(cert: Certificate, e: int, n: int) {
    && 0 <= e < |cert.extensions|
    && cert.extensions[e].SubjectAlternativeName?
    && 0 <= n < |cert.extensions[e].names|
    && cert.extensions[e].names[n].Uri?
  }

  /** The first URI, in the order of extensions and of names within one. */
  ghost predicate FirstUriAt(cert: Certificate, e: int, n: int) {
    && UriAt(cert, e, n)
    && forall e', n' | UriAt(cert, e', n') :: e < e' || (e == e' && n <= n')
  }

  /** The first URI at or after name `n` of extension `e`. */
  function UriFrom(cert: Certificate, e: nat, n: nat): Option<string>
    decreases |cert.extensions| - e, if e < |cert.extensions| && cert.extensions[e].SubjectAlternativeName? then |cert.extensions[e].names| - n else 0
  {
    if e >= |cert.extensions| then None
    else if !cert.extensions[e].SubjectAlternativeName? || n >= |cert.extensions[e].names| then UriFrom(cert, e + 1, 0)
    else if cert.extensions[e].names[n].Uri? then Some(cert.extensions[e].names[n].uri)
    else UriFrom(cert, e, n + 1)
  }

  /** The URI name is authoritative; the first common name counts only without any URI. */
  function IdentityIn(cert: Certificate): Option<string> {
    if UriFrom(cert, 0, 0).Some? then UriFrom(cert, 0, 0)
    else if cert.commonNames != [] && cert.commonNames[0].Text? then Some(cert.commonNames[0].text)
    else None
  }

  /** `(e', n')` is at or after `(e, n)` in the order of the certificate. */
  predicate NotBefore(e: int, n: int, e': int, n': int) {
    e < e' || (e == e' && n <= n')
  }

  lemma {:induction false} UriFromIsFirst(cert: Certificate, e: nat, n: nat)
    ensures UriFrom(cert, e, n).Some? ==>
            exists e', n' :: UriAt(cert, e', n') && NotBefore(e, n, e', n') &&
              UriFrom(cert, e, n) == Some(cert.extensions[e'].names[n'].uri) &&
              forall e'', n'' | UriAt(cert, e'', n'') && NotBefore(e, n, e'', n'') :: NotBefore(e', n', e'', n'')
    ensures UriFrom(cert, e, n).None? ==> forall e', n' | UriAt(cert, e', n') :: !NotBefore(e, n, e', n')
    decreases |cert.extensions| - e, if e < |cert.extensions| && cert.extensions[e].SubjectAlternativeName? then |cert.extensions[e].names| - n else 0
  {
    if e < |cert.extensions| {
      if !cert.extensions[e].SubjectAlternativeName? || n >= |cert.extensions[e].names| {
        UriFromIsFirst(cert, e + 1, 0);
        assert forall e', n' | UriAt(cert, e', n') :: NotBefore(e, n, e', n') <==> NotBefore(e + 1, 0, e', n');
      } else if !cert.extensions[e].names[n].Uri? {
        UriFromIsFirst(cert, e, n + 1);
        assert forall e', n' | UriAt(cert, e', n') :: NotBefore(e, n, e', n') <==> NotBefore(e, n + 1, e', n');
      } else {
        assert UriAt(cert, e, n);
      }
    }
  }

  /** If the certificate holds a URI name, the first in order is the identity whatever the
      common names say; only without any does the first common name count. */
  lemma UriIsAuthoritative(cert: Certificate)
    ensures (exists e, n :: UriAt(cert, e, n)) ==>
            exists e, n :: FirstUriAt(cert, e, n) && IdentityIn(cert) == Some(cert.extensions[e].names[n].uri)
    ensures !(exists e, n :: UriAt(cert, e, n)) ==>
            IdentityIn(cert) == if cert.commonNames != [] && cert.commonNames[0].Text?
                                then Some(cert.commonNames[0].text) else None
  {
    UriFromIsFirst(cert, 0, 0);
    assert forall e, n | UriAt(cert, e, n) :: NotBefore(0, 0, e, n);
    if UriFrom(cert, 0, 0).Some? {
      var e, n :| UriAt(cert, e, n) && UriFrom(cert, 0, 0) == Some(cert.extensions[e].names[n].uri) &&
        forall e', n' | UriAt(cert, e', n') && NotBefore(0, 0, e', n') :: NotBefore(e, n, e', n');
      assert FirstUriAt(cert, e, n);
    }
  }

  method IdentityOf(cert: Certificate) returns (identity: Option<string>)
    ensures identity == IdentityIn(cert)
  {
    for e := 0 to |cert.extensions|
      invariant UriFrom(cert, 0, 0) == UriFrom(cert, e, 0)
    {
      if cert.extensions[e].SubjectAlternativeName? {
        var names := cert.extensions[e].names;
        for n := 0 to |names|
          invariant UriFrom(cert, 0, 0) == UriFrom(cert, e, n)
        {
          if names[n].Uri? {
            return Some(names[n].uri);
          }
        }
      }
    }
    if cert.commonNames != [] && cert.commonNames[0].Text? {
      return Some(cert.commonNames[0].text);
    }
    identity := None;
  }

  /** What `identify` computes on a memo miss; `decode` is the X.509 parser. */
  function Parse(decode: Bytes -> Option<Certificate>, der: Bytes): Option<string> {
    match decode(der)
    case None => None
    case Some(cert) => IdentityIn(cert)
  }

  // ----- The memo -----

  const MAX_CACHED := 1024

  type Memo = map<Bytes, string>

  function Remember(cache: Memo, der: Bytes, identity: string): Memo {
    (if |cache| >= MAX_CACHED then map[] else cache)[der := identity]
  }

  /** Everything memoized is what the parser gives, and there is never too much of it. */
  ghost predicate Sound(decode: Bytes -> Option<Certificate>, cache: Memo) {
    && |cache| <= MAX_CACHED
    && forall der | der in cache :: Parse(decode, der) == Some(cache[der])
  }

  lemma RememberSound(decode: Bytes -> Option<Certificate>, cache: Memo, der: Bytes, identity: string)
    requires Sound(decode, cache) && Parse(decode, der) == Some(identity)
    ensures Sound(decode, Remember(cache, der, identity))
  {
    var base: Memo := if |cache| >= MAX_CACHED then map[] else cache;
    assert base[der := identity].Keys == base.Keys + {der};
  }

  class IdentityExtractor {
    var cache: Memo

    constructor ()
      ensures cache == map[]
    {
      cache := map[];
    }

    /** The section under the read lock: a hit is what parsing the certificate would give. */
    method Peek(ghost decode: Bytes -> Option<Certificate>, der: Bytes) returns (hit: Option<string>)
      requires Sound(decode, cache)
      ensures hit.Some? <==> der in cache
      ensures hit.Some? ==> hit == Parse(decode, der)
    {
      hit := if der in cache then Some(cache[der]) else None;
    }

    /** The section under the write lock. */
    method Insert(der: Bytes, identity: string)
      modifies this
      ensures cache == Remember(old(cache), der, identity)
      ensures cache == if |old(cache)| < 1024 then old(cache)[der := identity] else map[der := identity]
    {
      if |cache| >= MAX_CACHED {
        cache := map[];
      }
      cache := cache[der := identity];
    }

    /** One whole call without interference. */
    method Identify(decode: Bytes -> Option<Certificate>, chain: Option<seq<Bytes>>) returns (identity: Option<string>)
      requires Sound(decode, cache)
      modifies this
      ensures Sound(decode, cache)
      ensures identity == if chain.Some? && chain.value != [] then Parse(decode, chain.value[0]) else None
    {
      if chain.None? || chain.value == [] {
        return None;
      }
      var der := chain.value[0];
      identity := Peek(decode, der);
      if identity.None? {
        var cert := decode(der);
        if cert.Some? {
          identity := IdentityOf(cert.value);
        }
        if identity.Some? {
          RememberSound(decode, cache, der, identity.value);
          Insert(der, identity.value);
        }
      }
    }
  }

  // ----- Concurrent calls -----

  /** `Look` is the read section followed by the parse on a miss; `Store` the write section. */
  datatype Step = Look(c: nat, der: Bytes) | Store(c: nat)

  datatype Call = Parsed(der: Bytes, identity: string) | Returned(der: Bytes, result: Option<string>)

  datatype State = State(cache: Memo, calls: map<nat, Call>)

  predicate Enabled(s: State, step: Step) {
    match step
    case Look(c, _) => c !in s.calls
    case Store(c) => c in s.calls && s.calls[c].Parsed?
  }

  function Next(decode: Bytes -> Option<Certificate>, s: State, step: Step): State
    requires Enabled(s, step)
  {
    match step
    case Look(c, der) =>
      if der in s.cache then s.(calls := s.calls[c := Returned(der, Some(s.cache[der]))])
      else (match Parse(decode, der)
            case Some(identity) => s.(calls := s.calls[c := Parsed(der, identity)])
            case None => s.(calls := s.calls[c := Returned(der, None)]))
    case Store(c) =>
      State(Remember(s.cache, s.calls[c].der, s.calls[c].identity),
            s.calls[c := Returned(s.calls[c].der, Some(s.calls[c].identity))])
  }

  ghost predicate CallRight(decode: Bytes -> Option<Certificate>, call: Call) {
    Parse(decode, call.der) == match call { case Parsed(_, id) => Some(id) case Returned(_, r) => r }
  }

  ghost predicate CallsRight(decode: Bytes -> Option<Certificate>, s: State) {
    forall c | c in s.calls :: CallRight(decode, s.calls[c])
  }

  lemma MemoStep(decode: Bytes -> Option<Certificate>, s: State, step: Step)
    requires Enabled(s, step) && Sound(decode, s.cache) && CallsRight(decode, s)
    ensures Sound(decode, Next(decode, s, step).cache) && CallsRight(decode, Next(decode, s, step))
  {
    var s' := Next(decode, s, step);
    if step.Store? {
      assert CallRight(decode, s.calls[step.c]);
      RememberSound(decode, s.cache, s.calls[step.c].der, s.calls[step.c].identity);
    }
    forall c | c in s'.calls ensures CallRight(decode, s'.calls[c]) {
      assert c in s.calls ==> CallRight(decode, s.calls[c]);
    }
  }

  /** In every interleaving of read and write sections each call returns what the parser
      gives for its own certificate; failures are never stored and the memo stays bounded. */
  lemma {:induction false} MemoIsTransparent(decode: Bytes -> Option<Certificate>, states: seq<State>, steps: seq<Step>, i: nat)
    requires |states| == |steps| + 1 && states[0] == State(map[], map[])
    requires forall k | 0 <= k < |steps| :: Enabled(states[k], steps[k]) && states[k + 1] == Next(decode, states[k], steps[k])
    requires i < |states|
    ensures Sound(decode, states[i].cache) && CallsRight(decode, states[i])
  {
    if i > 0 {
      MemoIsTransparent(decode, states, steps, i - 1);
      assert Enabled(states[i - 1], steps[i - 1]) && states[i] == Next(decode, states[i - 1], steps[i - 1]);
      MemoStep(decode, states[i - 1], steps[i - 1]);
    }
  }
}
