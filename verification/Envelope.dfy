/**
 vault/envelope.go: the associated data that ties an envelope to one credential, and the two-layer
 envelope over an abstract AEAD. A sealed value carries the key, nonce and associated data it was
 made with; opening succeeds exactly under that key and that data and gives the plaintext back.
 */
module Envelope {
  import opened Ordered
  import opened Options

  datatype Identity = Identity(subject: Text, provider: Text)

  // ---------------------------------------------------------------- associated data

  /** binary.AppendUvarint: seven bits a byte, the high bit set on all but the last. */
  function Uvarint(n: nat): Text {
    if n < 128 then [n as byte] else [(n % 128 + 128) as byte] + Uvarint(n / 128)
  }

  /** Reads one such number off the front. */
  function ReadUvarint(b: Text): Option<(nat, Text)> {
    if b == [] then None
    else if b[0] < 128 then Some((b[0] as nat, b[1..]))
    else
      var rest := ReadUvarint(b[1..]);
      if rest.None? then None else Some((b[0] as nat - 128 + 128 * rest.value.0, rest.value.1))
  }

  /** A field with its length before it. */
  function Prefixed(field: Text): Text {
    Uvarint(|field|) + field
  }

  function ReadPrefixed(b: Text): Option<(Text, Text)> {
    var n := ReadUvarint(b);
    if n.None? || n.value.0 > |n.value.1| then None else Some((n.value.1[..n.value.0], n.value.1[n.value.0..]))
  }

  function BindingAAD(version: byte, subject: Text, provider: Text): Text {
    [version] + (Prefixed(subject) + Prefixed(provider))
  }

  /** The inverse of BindingAAD. */
  function ReadAAD(b: Text): Option<(byte, Text, Text)> {
    if b == [] then None
    else
      var subject := ReadPrefixed(b[1..]);
      if subject.None? then None
      else
        var provider := ReadPrefixed(subject.value.1);
        if provider.None? || provider.value.1 != [] then None else Some((b[0], subject.value.0, provider.value.0))
  }

  lemma {:induction false} UvarintRoundTrip(n: nat, rest: Text)
    ensures ReadUvarint(Uvarint(n) + rest) == Some((n, rest))
  {
    if n >= 128 {
      UvarintRoundTrip(n / 128, rest);
      assert (Uvarint(n) + rest)[1..] == Uvarint(n / 128) + rest;
    } else {
      assert (Uvarint(n) + rest)[1..] == rest;
    }
  }

  lemma PrefixedRoundTrip(field: Text, rest: Text)
    ensures ReadPrefixed(Prefixed(field) + rest) == Some((field, rest))
  {
    UvarintRoundTrip(|field|, field + rest);
    assert Prefixed(field) + rest == Uvarint(|field|) + (field + rest);
  }

  lemma AADRoundTrip(v: byte, s: Text, p: Text)
    ensures ReadAAD(BindingAAD(v, s, p)) == Some((v, s, p))
  {
    hide Prefixed, ReadPrefixed;
    var b := BindingAAD(v, s, p);
    assert b[1..] == Prefixed(s) + Prefixed(p);
    PrefixedRoundTrip(s, Prefixed(p));
    PrefixedRoundTrip(p, []);
    assert Prefixed(p) + [] == Prefixed(p);
  }

  /** The associated data determines the version and both fields: no two identities share it. */
  lemma AADIsInjective(v: byte, s: Text, p: Text, w: byte, t: Text, q: Text)
    requires BindingAAD(v, s, p) == BindingAAD(w, t, q)
    ensures v == w && s == t && p == q
  {
    hide BindingAAD, ReadAAD;
    AADRoundTrip(v, s, p);
    AADRoundTrip(w, t, q);
  }

  // ---------------------------------------------------------------- sealed values

  datatype Sealed<P> = Sealed(key: nat, nonce: nat, plain: P, aad: Text)

  function Open<P>(s: Sealed<P>, key: nat, aad: Text): Option<P> {
    if s.key == key && s.aad == aad then Some(s.plain) else None
  }

  const RECORD_VERSION: byte := 1

  /** At rest: the data key wrapped by the named key, and the secret sealed under the data key. */
  datatype Record = Record(identity: Identity, version: byte, wrapped: Sealed<nat>, kek: Text, cipher: Sealed<Text>,
                           created: int, updated: int)

  function AADOf(rec: Record): Text {
    BindingAAD(rec.version, rec.identity.subject, rec.identity.provider)
  }

  /** A service's configuration: the key that wraps, and every key that may unwrap, by id. */
  datatype Service = Service(current: Text, keys: map<Text, nat>)

  predicate Configured(svc: Service) {
    svc.current in svc.keys
  }

  /** Unwrapping the data key and then opening the payload, as Use does. */
  function Reveal(svc: Service, rec: Record): Option<Text> {
    if rec.kek !in svc.keys then None
    else
      var dek := Open(rec.wrapped, svc.keys[rec.kek], AADOf(rec));
      if dek.None? then None else Open(rec.cipher, dek.value, AADOf(rec))
  }

  function Enrolled(svc: Service, id: Identity, secret: Text, dek: nat, n: nat, m: nat, now: int): Record
    requires Configured(svc)
  {
    var aad := BindingAAD(RECORD_VERSION, id.subject, id.provider);
    Record(id, RECORD_VERSION, Sealed(svc.keys[svc.current], n, dek, aad), svc.current, Sealed(dek, m, secret, aad),
           now, now)
  }

  /** An envelope moved to another identity, or a payload to another envelope, does not open. */
  lemma EnvelopeIsBound(svc: Service, rec: Record, other: Record)
    requires Reveal(svc, rec).Some? && (other.wrapped == rec.wrapped || other.cipher == rec.cipher)
    requires Reveal(svc, other).Some?
    ensures other.identity == rec.identity && other.version == rec.version
  {
    hide BindingAAD;
    AADIsInjective(rec.version, rec.identity.subject, rec.identity.provider,
                   other.version, other.identity.subject, other.identity.provider);
  }
}
