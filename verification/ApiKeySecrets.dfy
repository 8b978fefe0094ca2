/** Which secrets the service accepts: the exact conditions, and the issued secret of every key in every run. */
module ApiKeySecrets {
  import opened Wrappers
  import opened Splitting
  import opened Text
  import opened ApiKeys
  import opened ApiKeyService

  /** The secret is made of an ID and material that decodes, and is the one the stored key was hashed from. */
  ghost predicate Presents(items: Items, crypto: Crypto, secret: string, id: string, material: string) {
    && secret == "orag_sk_" + id + "_" + material
    && "key_" <= id && (forall i | 4 <= i < |id| :: id[i] != '_')
    && material != "" && crypto.decodes(material)
    && id in items && items[id].hash == crypto.hash(secret)
  }

  ghost predicate FitForUse(k: APIKey) {
    && TrimSpace(k.id) != "" && TrimSpace(k.tenantID) != ""
    && (k.role == TenantAdmin || (k.role in {ProjectEditor, ProjectViewer} && TrimSpace(k.projectID) != ""))
  }

  /** Every answer to a secret, by what it presents. */
  lemma AnswerExactlyWhen(items: Items, crypto: Crypto, secret: string, now: int, id: string, material: string)
    requires Presents(items, crypto, secret, id, material)
    ensures var k, r := items[id], Verify(items, crypto, secret, now);
            && (r == Err(RevokedKey) <==> k.revokedAt.Some?)
            && (r == Err(ExpiredKey) <==> k.revokedAt == None && k.expiresAt.Some? && k.expiresAt.value <= now)
            && (r.Ok? <==> k.revokedAt == None && (k.expiresAt.Some? ==> now < k.expiresAt.value) && FitForUse(k))
            && (r.Ok? ==> r.value == Principal(k.id, k.tenantID, k.role, k.projectID))
            && r != Err(NotFound) && r != Err(NoRandomness)
  {
    hide ParseKeyID, TrimSpace;
    assert secret == SecretText(id, material);
    SecretNamesItsKey(id, material, crypto.decodes);
  }

  /** Every secret that presents no stored key is refused as invalid. */
  lemma UnknownSecretsAreInvalid(items: Items, crypto: Crypto, secret: string, now: int)
    ensures (forall id, material :: !Presents(items, crypto, secret, id, material)) ==>
              Verify(items, crypto, secret, now) == Err(Invalid)
  {
    hide TrimSpace;
    var parsed := ParseKeyID(secret, crypto.decodes);
    if parsed.Some? {
      var material := ParsedParts(secret, crypto.decodes);
      assert parsed.value in items && items[parsed.value].hash == crypto.hash(secret) ==>
          Presents(items, crypto, secret, parsed.value, material);
    }
  }

  lemma ParsedParts(secret: string, decodes: string -> bool) returns (material: string)
    requires ParseKeyID(secret, decodes).Some?
    ensures var id := ParseKeyID(secret, decodes).value;
            && secret == "orag_sk_" + id + "_" + material
            && "key_" <= id && (forall i | 4 <= i < |id| :: id[i] != '_')
            && material != "" && decodes(material)
  {
    var raw := secret[8..];
    var tail := raw[4..];
    var at := IndexOf(tail, '_');
    material := raw[4 + at + 1..];
    var id := raw[..4 + at];
    assert tail[at] == raw[4 + at];
    assert raw == id + "_" + material;
    assert secret == "orag_sk_" + raw;
    forall i | 4 <= i < |id| ensures id[i] != '_' { assert tail[i - 4] == id[i]; }
    assert raw[..4] == "key_" && id[..4] == raw[..4];
  }

  /** The full condition for accepting a secret, whatever it is. */
  lemma AcceptedExactlyWhen(items: Items, crypto: Crypto, secret: string, now: int)
    ensures Verify(items, crypto, secret, now).Ok? <==>
            exists id, material :: Presents(items, crypto, secret, id, material) && Open(items[id], now)
  {
    hide Verify;
    if id, material :| Presents(items, crypto, secret, id, material) {
      AnswerExactlyWhen(items, crypto, secret, now, id, material);
      forall id2, material2 | Presents(items, crypto, secret, id2, material2) && Open(items[id2], now)
        ensures Verify(items, crypto, secret, now).Ok?
      {
        AnswerExactlyWhen(items, crypto, secret, now, id2, material2);
      }
    } else {
      UnknownSecretsAreInvalid(items, crypto, secret, now);
    }
  }

  ghost predicate Open(k: APIKey, now: int) {
    k.revokedAt == None && (k.expiresAt.Some? ==> now < k.expiresAt.value) && FitForUse(k)
  }

  ghost predicate Injective(f: string -> string) {
    forall s, t :: f(s) == f(t) ==> s == t
  }

  /** No other secret than the one a key was hashed from ever authenticates as that key. */
  lemma WrongSecretIsRefused(items: Items, crypto: Crypto, id: string, right: string, secret: string, now: int)
    requires Injective(crypto.hash) && forall x | x in items :: items[x].id == x
    requires id in items && items[id].hash == crypto.hash(right) && secret != right
    ensures var r := Verify(items, crypto, secret, now); r.Ok? ==> r.value.subjectID != id
  {
  }

  // ---------- every run ----------

  predicate Writes(op: Op, id: string) {
    (op.Create? && op.key.id == id) || (op.Rotate? && op.keyID == id)
  }

  function WrittenID(op: Op): string
    requires op.Create? || op.Rotate?
  {
    if op.Create? then op.key.id else op.keyID
  }

  function WrittenHash(op: Op): string
    requires op.Create? || op.Rotate?
  {
    if op.Create? then op.key.hash else op.hash
  }

  /** Each Create and Rotate of the run hashed the secret it returned, made from an issued ID and random material. */
  ghost predicate Hashes(ops: seq<Op>, materials: seq<string>, crypto: Crypto) {
    && |materials| == |ops|
    && forall k | 0 <= k < |ops| && (ops[k].Create? || ops[k].Rotate?) ::
         && IssuableID(WrittenID(ops[k])) && materials[k] != "" && crypto.decodes(materials[k])
         && WrittenHash(ops[k]) == crypto.hash("orag_sk_" + WrittenID(ops[k]) + "_" + materials[k])
  }

  /** The call that first wrote a key decides its hash for good. */
  lemma {:induction false} HashOfItsWriter(ops: seq<Op>, id: string, interval: int)
    requires Legal(ops, interval) && id in After(ops, interval)
    ensures var b := Birth(ops, id, interval);
            1 <= b <= |ops| && Writes(ops[b - 1], id) && After(ops, interval)[id].hash == WrittenHash(ops[b - 1])
  {
    var n := |ops| - 1;
    var front := ops[..n];
    LegalPrefix(ops, n, interval);
    assert Allowed(front, ops[n], interval);
    if id in After(front, interval) {
      HashOfItsWriter(front, id, interval);
      StepKeeps(ops, n, interval);
      assert ops[..n + 1] == ops;
    }
  }

  /** In every run a secret authenticates as a key exactly when it is the one returned by the Create or Rotate that
      wrote the key, and the key is unrevoked, unexpired and fit for use. */
  lemma AuthenticatesExactlyWhen(ops: seq<Op>, materials: seq<string>, crypto: Crypto, interval: int, secret: string,
                                 id: string, now: int)
    requires Legal(ops, interval) && Hashes(ops, materials, crypto) && Injective(crypto.hash)
    ensures var items, r, b := After(ops, interval), Verify(After(ops, interval), crypto, secret, now), Birth(ops, id, interval);
            r.Ok? && r.value.subjectID == id <==>
              && id in items && Open(items[id], now)
              && 1 <= b <= |ops| && Writes(ops[b - 1], id)
              && secret == "orag_sk_" + id + "_" + materials[b - 1]
  {
    hide After, Birth, Verify;
    var items := After(ops, interval);
    EveryRunIsChained(ops, interval);
    if id in items {
      HashOfItsWriter(ops, id, interval);
      var b := Birth(ops, id, interval);
      var right := "orag_sk_" + id + "_" + materials[b - 1];
      assert WrittenID(ops[b - 1]) == id;
      if secret == right {
        assert IssuableID(id) && Presents(items, crypto, secret, id, materials[b - 1]);
        AnswerExactlyWhen(items, crypto, secret, now, id, materials[b - 1]);
      } else {
        WrongSecretIsRefused(items, crypto, id, right, secret, now);
      }
    } else {
      PrincipalIsStored(items, crypto, secret, now);
    }
  }

  lemma PrincipalIsStored(items: Items, crypto: Crypto, secret: string, now: int)
    requires forall x | x in items :: items[x].id == x
    ensures var r := Verify(items, crypto, secret, now); r.Ok? ==> r.value.subjectID in items
  {
  }
}
