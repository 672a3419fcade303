/** Redaction of secret-bearing keys before anything is stored or emitted. */
module Redaction {
  import opened Wrappers
  import opened Json
  import opened Paths

  const REDACTED := Str("[REDACTED]")

  const SENSITIVE_KEYS := {
    "authorization", "cookie", "set-cookie", "password", "secret",
    "token", "access_token", "refresh_token", "api_key", "apikey"
  }

  function LowerChar(c: char): char {
    if 'A' <= c <= 'Z' then (c as int + 32) as char else c
  }

  function Lower(s: string): (r: string)
    ensures |r| == |s|
  {
    if s == "" then "" else [LowerChar(s[0])] + Lower(s[1..])
  }

  predicate Sensitive(key: string) {
    Lower(key) in SENSITIVE_KEYS
  }

  /** A key is sensitive exactly if it is one of the listed words, in any case. */
  lemma SensitiveIff(key: string)
    ensures Sensitive(key) <==>
            exists word :: word in {"authorization", "cookie", "set-cookie", "password", "secret", "token", "access_token", "refresh_token", "api_key", "apikey"}
                           && SameButForCase(key, word)
  {
    LowerIsSameButForCase(key, Lower(key));
    if Sensitive(key) { assert SameButForCase(key, Lower(key)); }
    forall word | SameButForCase(key, word) && word in SENSITIVE_KEYS ensures word == Lower(key) {
      LowerIsSameButForCase(key, word);
    }
  }

  /** `word` is `key` with its capital letters made small. */
  predicate SameButForCase(key: string, word: string) {
    && |key| == |word|
    && forall i :: 0 <= i < |key| ==> word[i] as int == key[i] as int + if 'A' <= key[i] <= 'Z' then 32 else 0
  }

  lemma {:induction false} LowerIsSameButForCase(key: string, word: string)
    ensures SameButForCase(key, word) <==> word == Lower(key)
  {
    if key == "" {
    } else {
      LowerIsSameButForCase(key[1..], Lower(key)[1..]);
      assert Lower(key) == [LowerChar(key[0])] + Lower(key[1..]);
      assert SameButForCase(key, Lower(key)) by {
        forall i | 0 <= i < |key| ensures Lower(key)[i] as int == key[i] as int + if 'A' <= key[i] <= 'Z' then 32 else 0 {
          if i > 0 { assert key[i] == key[1..][i - 1] && Lower(key)[i] == Lower(key[1..])[i - 1]; }
        }
      }
    }
  }

  function Redact(value: Json): Json {
    match value
    case Obj(fields) => Obj(map key | key in fields :: if Sensitive(key) then REDACTED else Redact(fields[key]))
    case Arr(items) => Arr(seq(|items|, i requires 0 <= i < |items| => Redact(items[i])))
    case _ => value
  }

  function RedactObject(fields: Object): Object {
    map key | key in fields :: if Sensitive(key) then REDACTED else Redact(fields[key])
  }

  /** Redacting twice is redacting once, at every depth. */
  lemma {:induction false} RedactIdempotent(value: Json)
    ensures Redact(Redact(value)) == Redact(value)
  {
    match value
    case Obj(fields) =>
      forall key | key in fields ensures Redact(Redact(fields[key])) == Redact(fields[key]) {
        RedactIdempotent(fields[key]);
      }
    case Arr(items) =>
      forall i | 0 <= i < |items| ensures Redact(Redact(items[i])) == Redact(items[i]) {
        RedactIdempotent(items[i]);
      }
    case _ =>
  }

  /** Every sensitive key, at every depth, holds the placeholder. */
  ghost predicate NoSecrets(value: Json) {
    match value
    case Obj(fields) => forall key :: key in fields ==> if Sensitive(key) then fields[key] == REDACTED else NoSecrets(fields[key])
    case Arr(items) => forall i :: 0 <= i < |items| ==> NoSecrets(items[i])
    case _ => true
  }

  lemma {:induction false} RedactedHasNoSecrets(value: Json)
    ensures NoSecrets(Redact(value))
  {
    match value
    case Obj(fields) =>
      forall key | key in fields && !Sensitive(key) ensures NoSecrets(Redact(fields[key])) {
        RedactedHasNoSecrets(fields[key]);
      }
    case Arr(items) =>
      forall i | 0 <= i < |items| ensures NoSecrets(Redact(items[i])) {
        RedactedHasNoSecrets(items[i]);
      }
    case _ =>
  }

  /** Redaction changes a value exactly when the value shows a secret. */
  lemma {:induction false} RedactFixesExactly(value: Json)
    ensures Redact(value) == value <==> NoSecrets(value)
  {
    match value
    case Obj(fields) =>
      forall key | key in fields ensures Redact(fields[key]) == fields[key] <==> NoSecrets(fields[key]) {
        RedactFixesExactly(fields[key]);
      }
      if Redact(value) == value {
        forall key | key in fields ensures if Sensitive(key) then fields[key] == REDACTED else NoSecrets(fields[key]) {
          assert Redact(value).fields[key] == fields[key];
        }
      }
      if NoSecrets(value) {
        assert Redact(value).fields == fields;
      }
    case Arr(items) =>
      forall i | 0 <= i < |items| ensures Redact(items[i]) == items[i] <==> NoSecrets(items[i]) {
        RedactFixesExactly(items[i]);
      }
      if Redact(value) == value {
        forall i | 0 <= i < |items| ensures NoSecrets(items[i]) {
          assert Redact(value).items[i] == items[i];
        }
      }
      if NoSecrets(value) {
        assert Redact(value).items == items;
      }
    case _ =>
  }

  /** What lies at a path after redaction: the placeholder from the first sensitive key on, the redacted value otherwise. */
  lemma {:induction false} RedactAlongPath(value: Json, path: seq<string>)
    ensures (forall i :: 0 <= i < |path| ==> !Sensitive(path[i])) ==>
              Walk(Redact(value), path) == match Walk(value, path) case Some(found) => Some(Redact(found)) case None => None
    ensures path != [] && Sensitive(path[0]) && Walk(value, path[..1]).Some? ==> Walk(Redact(value), path[..1]) == Some(Str("[REDACTED]"))
    decreases |path|
  {
    if path != [] && value.Obj? && path[0] in value.fields && !Sensitive(path[0]) {
      RedactAlongPath(value.fields[path[0]], path[1..]);
    }
  }
}
