/** `rotate`: re-encrypt every credential revision under one key, in one transaction. */
module KeyRotation {
  import opened Wrappers
  import opened Json
  import opened Credentials

  datatype Revision = Revision(identity: Identity, payload: Payload)

  function Secret(settings: Settings, row: Revision): Option<Object> {
    Decrypt(settings, row.payload, row.identity)
  }

  /** One row of the loop; `None` stands for the exception that rolls the transaction back. */
  function Rekey(settings: Settings, toKeyId: string, nonce: Nonce, row: Revision): Option<Revision> {
    if row.payload.keyId == toKeyId then Some(row)
    else
      match Secret(settings, row)
      case None => None
      case Some(secret) =>
        match Encrypt(settings, secret, row.identity, toKeyId, nonce)
        case None => None
        case Some(payload) => Some(row.(payload := payload))
  }

  /** The rows that are on another key. */
  function OffKey(rows: seq<Revision>, keyId: string): nat {
    if rows == [] then 0
    else OffKey(rows[..|rows| - 1], keyId) + if rows[|rows| - 1].payload.keyId == keyId then 0 else 1
  }

  predicate MayRotate(settings: Settings, toKeyId: string) {
    ValidRing(settings) && toKeyId in settings.keys
  }

  /** Every row that has to be re-encrypted can be decrypted. */
  predicate Readable(settings: Settings, toKeyId: string, rows: seq<Revision>) {
    forall i :: 0 <= i < |rows| ==> rows[i].payload.keyId == toKeyId || Secret(settings, rows[i]).Some?
  }

  /** `after` is `before` with every row re-encrypted. */
  ghost predicate Rekeyed(settings: Settings, toKeyId: string, nonces: nat -> Nonce, before: seq<Revision>, after: seq<Revision>) {
    && |after| == |before|
    && forall i: nat :: i < |before| ==> Rekey(settings, toKeyId, nonces(i), before[i]) == Some(after[i])
  }

  class CredentialTable {
    var rows: seq<Revision>

    constructor (initial: seq<Revision>)
      ensures rows == initial
    {
      rows := initial;
    }

    /** The loop works on the session's copies of the rows; they reach the table when the transaction commits. */
    method Rotate(settings: Settings, toKeyId: string, nonces: nat -> Nonce) returns (r: Option<nat>)
      modifies this
      ensures r.Some? <==> MayRotate(settings, toKeyId) && Readable(settings, toKeyId, old(rows))
      ensures r.Some? ==> Rekeyed(settings, toKeyId, nonces, old(rows), rows) && r.value == OffKey(old(rows), toKeyId)
      ensures r.None? ==> rows == old(rows)
    {
      if !ValidRing(settings) || toKeyId !in settings.keys {
        return None;
      }
      var staged := rows;
      var changed: nat := 0;
      for i := 0 to |staged|
        invariant |staged| == |rows| && rows == old(rows)
        invariant forall j: nat :: j < i ==> Rekey(settings, toKeyId, nonces(j), rows[j]) == Some(staged[j])
        invariant forall j: nat :: i <= j < |rows| ==> staged[j] == rows[j]
        invariant forall j: nat :: j < i ==> rows[j].payload.keyId == toKeyId || Secret(settings, rows[j]).Some?
        invariant changed == OffKey(rows[..i], toKeyId)
      {
        assert rows[..i + 1][..i] == rows[..i];
        var row := staged[i];
        if row.payload.keyId != toKeyId {
          var secret := Secret(settings, row);
          if secret.None? {
            return None;
          }
          var payload := Encrypt(settings, secret.value, row.identity, toKeyId, nonces(i));
          staged := staged[i := row.(payload := payload.value)];
          changed := changed + 1;
        }
      }
      assert rows[..|rows|] == rows;
      rows := staged;
      r := Some(changed);
    }
  }

  /** The key ring reduced to one key. */
  function Only(settings: Settings, keyId: string): Settings {
    Settings(map id | id in settings.keys && id == keyId :: settings.keys[id], keyId)
  }

  /**
   A successful rotation keeps every record, its plaintext included: what a row decrypted to under the whole
   ring it still decrypts to under the key it is on alone.
   */
  lemma RotationPreservesSecrets(settings: Settings, toKeyId: string, nonces: nat -> Nonce, before: seq<Revision>, after: seq<Revision>, i: nat)
    requires MayRotate(settings, toKeyId) && Readable(settings, toKeyId, before)
    requires Rekeyed(settings, toKeyId, nonces, before, after) && i < |before|
    ensures after[i].identity == before[i].identity
    ensures Secret(settings, after[i]) == Secret(settings, before[i])
    ensures Secret(Only(settings, after[i].payload.keyId), after[i]) == Secret(settings, before[i])
    ensures before[i].payload.keyId == toKeyId ==> after[i] == before[i]
    ensures before[i].payload.keyId != toKeyId ==> after[i].payload.keyId == Selected(settings, toKeyId)
  {
    assert Rekey(settings, toKeyId, nonces(i), before[i]) == Some(after[i]);
  }

  lemma {:induction false} NoneOff(rows: seq<Revision>, keyId: string)
    ensures OffKey(rows, keyId) == 0 <==> forall i :: 0 <= i < |rows| ==> rows[i].payload.keyId == keyId
  {
    if rows == [] {
    } else {
      NoneOff(rows[..|rows| - 1], keyId);
    }
  }

  /**
   Rotating leaves every row on the requested key exactly when the requested id is not empty or no row had to
   move: `encrypt_secret` reads an empty id as the active key, so rows rotated to a key whose id is empty land
   on the active one.
   */
  lemma AllOnTargetIff(settings: Settings, toKeyId: string, nonces: nat -> Nonce, before: seq<Revision>, after: seq<Revision>)
    requires MayRotate(settings, toKeyId) && Readable(settings, toKeyId, before)
    requires Rekeyed(settings, toKeyId, nonces, before, after)
    ensures (forall i :: 0 <= i < |after| ==> after[i].payload.keyId == toKeyId) <==> toKeyId != "" || OffKey(before, toKeyId) == 0
    ensures OffKey(after, toKeyId) == if toKeyId != "" then 0 else OffKey(before, toKeyId)
  {
    forall i: nat | i < |after| ensures after[i].payload.keyId == if before[i].payload.keyId == toKeyId then toKeyId else Selected(settings, toKeyId) {
      RotationPreservesSecrets(settings, toKeyId, nonces, before, after, i);
    }
    NoneOff(before, toKeyId);
    NoneOff(after, toKeyId);
    SameOff(settings, toKeyId, before, after);
  }

  lemma {:induction false} SameOff(settings: Settings, toKeyId: string, before: seq<Revision>, after: seq<Revision>)
    requires |after| == |before| && settings.activeKeyId != ""
    requires forall i: nat :: i < |after| ==>
               after[i].payload.keyId == if before[i].payload.keyId == toKeyId then toKeyId else Selected(settings, toKeyId)
    ensures OffKey(after, toKeyId) == if toKeyId != "" then 0 else OffKey(before, toKeyId)
  {
    if after == [] {
    } else {
      SameOff(settings, toKeyId, before[..|before| - 1], after[..|after| - 1]);
    }
  }

  /** A second rotation to the same key succeeds, changes nothing and reports nothing changed. */
  lemma SecondRotationIsIdle(settings: Settings, toKeyId: string, nonces: nat -> Nonce, more: nat -> Nonce,
                             before: seq<Revision>, after: seq<Revision>, again: seq<Revision>)
    requires MayRotate(settings, toKeyId) && Readable(settings, toKeyId, before) && toKeyId != ""
    requires Rekeyed(settings, toKeyId, nonces, before, after) && Rekeyed(settings, toKeyId, more, after, again)
    ensures Readable(settings, toKeyId, after) && again == after && OffKey(after, toKeyId) == 0
  {
    AllOnTargetIff(settings, toKeyId, nonces, before, after);
    forall i: nat | i < |after| ensures again[i] == after[i] {
      assert Rekey(settings, toKeyId, more(i), after[i]) == Some(again[i]);
    }
  }

  /** A ring that contains the empty key id: rotating to it succeeds and leaves the row on the active key. */
  lemma EmptyKeyIdMissesTarget(key: Key, other: Key, secret: Object, identity: Identity, nonces: nat -> Nonce) returns (settings: Settings, before: seq<Revision>, after: seq<Revision>)
    ensures MayRotate(settings, "") && Readable(settings, "", before) && Rekeyed(settings, "", nonces, before, after)
    ensures OffKey(before, "") == 1 && OffKey(after, "") == 1
  {
    settings := Settings(map["" := GoodKey(key), "a" := GoodKey(other)], "a");
    before := [Revision(identity, Encrypt(settings, secret, identity, "a", nonces(0)).value)];
    after := [Rekey(settings, "", nonces(0), before[0]).value];
    assert before[..0] == [] && after[..0] == [];
    AllOnTargetIff(settings, "", nonces, before, after);
  }
}
