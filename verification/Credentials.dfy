/**
 Credential encryption (crypto.py) with authenticated encryption treated symbolically: a sealed value opens
 under the key, nonce and associated data it was sealed with, and under nothing else.
 */
module Credentials {
  import opened Wrappers
  import opened Json
  import opened Texts

  type Key = nat

  type Nonce = nat

  /** A configured key: 32 bytes of base64, or something `_decode_key` rejects. */
  datatype EncodedKey = GoodKey(key: Key) | MalformedKey

  datatype Settings = Settings(keys: map<string, EncodedKey>, activeKeyId: string)

  /** A ciphertext column: a sealed plaintext, or bytes that no key opens. */
  datatype Ciphertext = Sealed(key: Key, nonce: Nonce, aad: string, plaintext: Json) | Unreadable

  function Open(key: Key, nonce: Nonce, ciphertext: Ciphertext, aad: string): Option<Json> {
    if ciphertext.Sealed? && ciphertext.key == key && ciphertext.nonce == nonce && ciphertext.aad == aad
    then Some(ciphertext.plaintext) else None
  }

  datatype Identity = Identity(flowId: string, credentialId: string, revision: nat)

  /** `_aad`. */
  function Aad(identity: Identity): string {
    "flowforge:" + identity.flowId + ":" + identity.credentialId + ":" + Decimal(identity.revision)
  }

  datatype Payload = Payload(keyId: string, nonce: Nonce, ciphertext: Ciphertext)

  /** `validate_key_ring`. */
  predicate ValidRing(settings: Settings) {
    && settings.activeKeyId != "" && settings.activeKeyId in settings.keys
    && forall id :: id in settings.keys ==> settings.keys[id].GoodKey?
  }

  /** The key a caller gets: an empty id stands for the active key. */
  function Selected(settings: Settings, keyId: string): string {
    if keyId != "" then keyId else settings.activeKeyId
  }

  /** `encrypt_secret`; the nonce is drawn outside. */
  function Encrypt(settings: Settings, secret: Object, identity: Identity, keyId: string, nonce: Nonce): Option<Payload> {
    var selected := Selected(settings, keyId);
    if selected in settings.keys && settings.keys[selected].GoodKey? then
      Some(Payload(selected, nonce, Sealed(settings.keys[selected].key, nonce, Aad(identity), Obj(secret))))
    else None
  }

  /** `decrypt_secret`; `None` stands for CredentialCryptoError. */
  function Decrypt(settings: Settings, payload: Payload, identity: Identity): Option<Object> {
    if payload.keyId in settings.keys && settings.keys[payload.keyId].GoodKey? then
      match Open(settings.keys[payload.keyId].key, payload.nonce, payload.ciphertext, Aad(identity))
      case Some(Obj(fields)) => Some(fields)
      case _ => None
    else None
  }

  // ----- the associated data names the record -----

  predicate Colonless(s: string) {
    ':' !in s
  }

  lemma {:induction false} FirstColon(a: string, x: string, b: string, y: string)
    requires Colonless(a) && Colonless(b) && a + ":" + x == b + ":" + y
    ensures a == b && x == y
  {
    var left, right := a + ":" + x, b + ":" + y;
    if a == "" {
      assert right[0] == ':';
      assert b == "";
      assert left[1..] == x && right[1..] == y;
    } else {
      assert left[0] == a[0] && right[0] == if b == "" then ':' else b[0];
      assert left[1..] == a[1..] + ":" + x && right[1..] == b[1..] + ":" + y;
      FirstColon(a[1..], x, b[1..], y);
      assert a == [a[0]] + a[1..] && b == [b[0]] + b[1..];
    }
  }

  lemma {:induction false} DecimalInjective(m: nat, n: nat)
    requires Decimal(m) == Decimal(n)
    ensures m == n
  {
    var s := Decimal(m);
    assert s[|s| - 1] == Digit(m % 10) && s[|s| - 1] == Digit(n % 10);
    if m >= 10 && n >= 10 {
      assert s[..|s| - 1] == Decimal(m / 10) && s[..|s| - 1] == Decimal(n / 10);
      DecimalInjective(m / 10, n / 10);
    } else {
      DecimalNonEmpty(m / 10);
      DecimalNonEmpty(n / 10);
    }
  }

  lemma DecimalNonEmpty(n: nat)
    ensures |Decimal(n)| >= 1
  {
  }

  function Colons(s: string): nat {
    if s == "" then 0 else (if s[0] == ':' then 1 else 0) + Colons(s[1..])
  }

  lemma {:induction false} ColonsAdd(s: string, t: string)
    ensures Colons(s + t) == Colons(s) + Colons(t)
  {
    if s == "" {
      assert s + t == t;
    } else {
      assert (s + t)[1..] == s[1..] + t;
      ColonsAdd(s[1..], t);
    }
  }

  lemma {:induction false} NoColons(s: string)
    ensures Colons(s) == 0 <==> Colonless(s)
  {
    if s == "" {
    } else {
      NoColons(s[1..]);
      assert s == [s[0]] + s[1..];
    }
  }

  lemma {:induction false} DecimalColonless(n: nat)
    ensures Colonless(Decimal(n))
  {
    if n >= 10 { DecimalColonless(n / 10); }
  }

  lemma AadColons(identity: Identity)
    ensures Colons(Aad(identity)) == 3 + Colons(identity.flowId) + Colons(identity.credentialId)
  {
    var scheme, revision := "flowforge:", Decimal(identity.revision);
    ColonsAdd(scheme + identity.flowId + ":" + identity.credentialId + ":", revision);
    ColonsAdd(scheme + identity.flowId + ":" + identity.credentialId, ":");
    ColonsAdd(scheme + identity.flowId + ":", identity.credentialId);
    ColonsAdd(scheme + identity.flowId, ":");
    ColonsAdd(scheme, identity.flowId);
    ColonsAdd("flowforge", ":");
    NoColons("flowforge");
    NoColons(revision);
    DecimalColonless(identity.revision);
    assert ":"[1..] == "" && Colons("") == 0;
    assert scheme == "flowforge" + ":";
  }

  lemma AadInjective(a: Identity, b: Identity)
    requires Colonless(a.flowId) && Colonless(a.credentialId) && Colonless(b.flowId) && Colonless(b.credentialId)
    requires Aad(a) == Aad(b)
    ensures a == b
  {
    var scheme := "flowforge:";
    var x := a.flowId + ":" + (a.credentialId + ":" + Decimal(a.revision));
    var y := b.flowId + ":" + (b.credentialId + ":" + Decimal(b.revision));
    assert Aad(a) == scheme + x && Aad(b) == scheme + y;
    assert x == (scheme + x)[|scheme|..] && y == (scheme + y)[|scheme|..];
    FirstColon(a.flowId, a.credentialId + ":" + Decimal(a.revision), b.flowId, b.credentialId + ":" + Decimal(b.revision));
    FirstColon(a.credentialId, Decimal(a.revision), b.credentialId, Decimal(b.revision));
    DecimalInjective(a.revision, b.revision);
  }

  /** The associated data of a record with colonless ids belongs to no other record, whatever its ids look like. */
  lemma AadNamesRecord(a: Identity, b: Identity)
    requires Colonless(a.flowId) && Colonless(a.credentialId) && Aad(a) == Aad(b)
    ensures a == b
  {
    AadColons(a);
    AadColons(b);
    NoColons(a.flowId);
    NoColons(a.credentialId);
    NoColons(b.flowId);
    NoColons(b.credentialId);
    AadInjective(a, b);
  }

  /** A colon in an id can be read as the separator one place earlier or later. */
  lemma AadSharedByAnother(a: Identity) returns (b: Identity)
    requires !Colonless(a.flowId) || !Colonless(a.credentialId)
    ensures b != a && Aad(b) == Aad(a)
  {
    if !Colonless(a.flowId) {
      var i :| 0 <= i < |a.flowId| && a.flowId[i] == ':';
      var x, y := a.flowId[..i], a.flowId[i + 1..];
      assert a.flowId == x + ":" + y;
      b := Identity(x, y + ":" + a.credentialId, a.revision);
      assert |b.flowId| != |a.flowId|;
      assert a.flowId + ":" + a.credentialId == x + ":" + (y + ":" + a.credentialId);
    } else {
      var i :| 0 <= i < |a.credentialId| && a.credentialId[i] == ':';
      var x, y := a.credentialId[..i], a.credentialId[i + 1..];
      assert a.credentialId == x + ":" + y;
      b := Identity(a.flowId + ":" + x, y, a.revision);
      assert |b.flowId| != |a.flowId|;
      assert a.flowId + ":" + a.credentialId == (a.flowId + ":" + x) + ":" + y;
    }
    AadSplits(a, b);
  }

  lemma AadSplits(a: Identity, b: Identity)
    requires a.flowId + ":" + a.credentialId == b.flowId + ":" + b.credentialId && a.revision == b.revision
    ensures Aad(a) == Aad(b)
  {
    var rest := ":" + Decimal(a.revision);
    assert Aad(a) == "flowforge:" + (a.flowId + ":" + a.credentialId) + rest;
    assert Aad(b) == "flowforge:" + (b.flowId + ":" + b.credentialId) + rest;
  }

  /** The associated data names one record exactly when neither of its ids contains a colon, as no generated id does. */
  lemma AadNamesRecordIff(a: Identity)
    ensures (forall b :: Aad(b) == Aad(a) ==> b == a) <==> Colonless(a.flowId) && Colonless(a.credentialId)
  {
    if Colonless(a.flowId) && Colonless(a.credentialId) {
      forall b | Aad(b) == Aad(a) ensures b == a { AadNamesRecord(a, b); }
    } else {
      var b := AadSharedByAnother(a);
    }
  }

  /**
   Who can read a secret: with the payload unchanged, a ring reads it for a record exactly when the ring still holds
   the same key under the payload's key id and the record is the owner.
   */
  lemma SecretOpensIff(settings: Settings, secret: Object, owner: Identity, keyId: string, nonce: Nonce, later: Settings, other: Identity)
    requires Colonless(owner.flowId) && Colonless(owner.credentialId)
    requires Encrypt(settings, secret, owner, keyId, nonce).Some?
    ensures var payload := Encrypt(settings, secret, owner, keyId, nonce).value;
            && payload.keyId == (if keyId != "" then keyId else settings.activeKeyId) && payload.nonce == nonce
            && payload.keyId in settings.keys
            && Decrypt(later, payload, other) ==
               if payload.keyId in later.keys && later.keys[payload.keyId] == settings.keys[payload.keyId] && other == owner
               then Some(secret) else None
  {
    AadNamesRecordIff(owner);
  }

  /** The associated data as it is stored beside existing secrets. */
  lemma AadText()
    ensures Aad(Identity("f", "c", 12)) == "flowforge:f:c:12"
  {
    assert Decimal(1) == "1" && Decimal(12) == "12";
  }
}
