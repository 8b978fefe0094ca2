/** The service in front of the key repository: secrets, authentication, rotation and throttled usage stamps. */
module ApiKeyService {
  import opened Wrappers
  import opened Splitting
  import opened Text
  import opened ApiKeys

  datatype Failure = Invalid | ExpiredKey | RevokedKey | NotFound | NoRandomness

  datatype Principal = Principal(subjectID: string, tenantID: string, role: Role, projectID: string)

  /** The keyed hash, and whether text is base64 for exactly 32 bytes. */
  datatype Crypto = Crypto(hash: string -> string, decodes: string -> bool)

  const PREFIX := "orag_sk_"
  const ID_PREFIX := "key_"
  const MAX_THROTTLE_ENTRIES := 10_000

  // ---------- secrets ----------

  function SecretText(keyID: string, material: string): string { PREFIX + keyID + "_" + material }

  function ParseKeyID(secret: string, decodes: string -> bool): Option<string> {
    if !(PREFIX <= secret) then None
    else
      var raw := secret[|PREFIX|..];
      if !(ID_PREFIX <= raw) then None
      else
        var separator := |ID_PREFIX| + IndexOf(raw[|ID_PREFIX|..], '_');
        if separator >= |raw| - 1 || !decodes(raw[separator + 1..]) then None else Some(raw[..separator])
  }

  /** An ID the service can issue: the prefix and no further underscore. */
  predicate IssuableID(id: string) {
    ID_PREFIX <= id && forall i | |ID_PREFIX| <= i < |id| :: id[i] != '_'
  }

  lemma FirstUnderscore(tail: string, rest: string)
    ensures IndexOf(tail + ("_" + rest), '_') == |tail| <==> '_' !in tail
    ensures IndexOf(tail + ("_" + rest), '_') <= |tail|
  {
    var s := tail + ("_" + rest);
    assert s == tail + ['_'] + rest && s[|tail|] == '_';
    IndexAtMost(s, '_', |tail|);
    if '_' !in tail {
      IndexAfter(tail, '_', rest);
    } else {
      var i :| 0 <= i < |tail| && tail[i] == '_';
      IndexAtMost(s, '_', i);
    }
  }

  /** A secret names the key it was made for exactly when the ID is issuable and the material decodes; underscores
      inside the material do not matter. */
  lemma SecretNamesItsKey(id: string, material: string, decodes: string -> bool)
    ensures ParseKeyID(SecretText(id, material), decodes) == Some(id) <==>
            IssuableID(id) && material != "" && decodes(material)
  {
    hide IndexOf;
    var secret := SecretText(id, material);
    var raw := id + "_" + material;
    assert secret == PREFIX + raw && secret[|PREFIX|..] == raw;
    if ID_PREFIX <= id {
      var tail := id[|ID_PREFIX|..];
      assert raw[..|ID_PREFIX|] == id[..|ID_PREFIX|];
      assert raw[|ID_PREFIX|..] == tail + ("_" + material);
      FirstUnderscore(tail, material);
      assert '_' !in tail <==> IssuableID(id) by {
        assert forall i | |ID_PREFIX| <= i < |id| :: tail[i - |ID_PREFIX|] == id[i];
      }
      assert raw[|id| + 1..] == material && raw[..|id|] == id;
    }
  }

  // ---------- authentication ----------

  predicate ValidPrincipal(p: Principal) {
    && TrimSpace(p.subjectID) != "" && TrimSpace(p.tenantID) != ""
    && match p.role {
         case TenantAdmin => true
         case ProjectEditor => TrimSpace(p.projectID) != ""
         case ProjectViewer => TrimSpace(p.projectID) != ""
         case OtherRole(_) => false
       }
  }

  function PrincipalOf(k: APIKey): Principal { Principal(k.id, k.tenantID, k.role, k.projectID) }

  function Verify(items: Items, crypto: Crypto, secret: string, now: int): Result<Principal, Failure> {
    match ParseKeyID(secret, crypto.decodes)
    case None => Err(Invalid)
    case Some(id) =>
      if id !in items || items[id].hash != crypto.hash(secret) then Err(Invalid)
      else if items[id].revokedAt.Some? then Err(RevokedKey)
      else if Expired(items[id], now) then Err(ExpiredKey)
      else if !ValidPrincipal(PrincipalOf(items[id])) then Err(Invalid)
      else Ok(PrincipalOf(items[id]))
  }

  /** A stored key opens for the secret it was hashed from exactly while it is neither revoked nor expired. */
  lemma SecretOpensItsKey(items: Items, crypto: Crypto, id: string, material: string, now: int)
    requires id in items && items[id].id == id && items[id].hash == crypto.hash(SecretText(id, material))
    requires IssuableID(id) && material != "" && crypto.decodes(material) && ValidPrincipal(PrincipalOf(items[id]))
    ensures Verify(items, crypto, SecretText(id, material), now).Ok? <==>
            items[id].revokedAt == None && !Expired(items[id], now)
    ensures Verify(items, crypto, SecretText(id, material), now).Ok? ==>
            Verify(items, crypto, SecretText(id, material), now).value == PrincipalOf(items[id])
  {
    SecretNamesItsKey(id, material, crypto.decodes);
  }

  /** Once a call rotated or revoked a key, no secret whatever authenticates as it again. */
  lemma RetiredKeysStayShut(ops: seq<Op>, k: nat, m: nat, interval: int, x: string, crypto: Crypto, secret: string, now: int)
    requires Legal(ops, interval) && k <= m <= |ops|
    requires x in After(ops[..k], interval) && After(ops[..k], interval)[x].revokedAt.Some?
    ensures var r := Verify(After(ops[..m], interval), crypto, secret, now); r.Ok? ==> r.value.subjectID != x
  {
    NothingIsUndone(ops, k, m, interval);
    LegalPrefix(ops, m, interval);
    EveryRunIsChained(ops[..m], interval);
  }

  /** A key that has a successor in any reachable repository is shut. */
  lemma RotatedOutNeverAuthenticates(ops: seq<Op>, interval: int, y: string, crypto: Crypto, secret: string, now: int)
    requires Legal(ops, interval) && y in After(ops, interval) && After(ops, interval)[y].rotatedFrom != ""
    ensures var r := Verify(After(ops, interval), crypto, secret, now);
            r.Ok? ==> r.value.subjectID != After(ops, interval)[y].rotatedFrom
  {
    EveryRunIsChained(ops, interval);
    assert Follows(ops, After(ops, interval)[y].rotatedFrom, y, interval);
  }

  // ---------- the program ----------

  datatype CreateInput = CreateInput(tenantID: string, projectID: string, name: string, role: Role, createdBy: string,
                                     expiresAt: Option<int>)

  datatype Issued = Issued(key: APIKey, secret: string)

  class APIKeyService {
    const repo: MemoryAPIKeyRepository
    const crypto: Crypto
    const interval: int
    var lastUsedAttempts: map<string, int>

    constructor (repo: MemoryAPIKeyRepository, crypto: Crypto, interval: int)
      ensures this.repo == repo && this.crypto == crypto && this.interval == interval && lastUsedAttempts == map[]
    {
      this.repo, this.crypto, this.interval := repo, crypto, interval;
      lastUsedAttempts := map[];
    }

    ghost predicate Valid()
      reads this
    {
      |lastUsedAttempts| <= MAX_THROTTLE_ENTRIES
    }

    predicate Throttled(keyID: string, usedAt: int)
      reads this
    {
      keyID in lastUsedAttempts && interval > 0 && usedAt < lastUsedAttempts[keyID] + interval
    }

    /** The throttle map never outgrows its cap, and the repository is asked only when not throttled. */
    method TouchLastUsed(keyID: string, usedAt: int)
      requires Valid()
      modifies this`lastUsedAttempts, repo
      ensures Valid()
      ensures |lastUsedAttempts| <= 10_000
      ensures if keyID in old(lastUsedAttempts) && interval > 0 && usedAt < old(lastUsedAttempts)[keyID] + interval then
                lastUsedAttempts == old(lastUsedAttempts) && repo.items == old(repo.items)
              else
                && repo.items == TouchItem(old(repo.items), keyID, usedAt, usedAt - interval)
                && lastUsedAttempts ==
                     (if keyID !in old(lastUsedAttempts) && |old(lastUsedAttempts)| >= 10_000
                      then map[] else old(lastUsedAttempts))[keyID := usedAt]
    {
      if Throttled(keyID, usedAt) {
        return;
      }
      if keyID !in lastUsedAttempts && |lastUsedAttempts| >= MAX_THROTTLE_ENTRIES {
        lastUsedAttempts := map[];
      }
      EntryCount(lastUsedAttempts, keyID, usedAt);
      lastUsedAttempts := lastUsedAttempts[keyID := usedAt];
      var _ := repo.TouchAPIKeyLastUsed(keyID, usedAt, usedAt - interval);
    }

    method Authenticate(secret: string, now: int) returns (r: Result<Principal, Failure>)
      requires Valid()
      modifies this`lastUsedAttempts, repo
      ensures Valid()
      ensures r == Verify(old(repo.items), crypto, secret, now)
      ensures r.Err? ==> repo.items == old(repo.items)
      ensures r.Ok? ==>
                var id := r.value.subjectID;
                repo.items == if id in old(lastUsedAttempts) && interval > 0 && now < old(lastUsedAttempts)[id] + interval
                              then old(repo.items) else TouchItem(old(repo.items), id, now, now - interval)
    {
      var parsed := ParseKeyID(secret, crypto.decodes);
      if parsed == None {
        return Err(Invalid);
      }
      var found := repo.GetAPIKeyByID(parsed.value);
      if found == None || found.value.hash != crypto.hash(secret) {
        return Err(Invalid);
      }
      var item := found.value;
      if item.revokedAt.Some? {
        return Err(RevokedKey);
      }
      if item.expiresAt.Some? && item.expiresAt.value <= now {
        return Err(ExpiredKey);
      }
      var principal := PrincipalOf(item);
      if !ValidPrincipal(principal) {
        return Err(Invalid);
      }
      TouchLastUsed(item.id, now);
      return Ok(principal);
    }

    /** `material` is None when the random source fails. A created key opens at once for the returned secret. */
    method Create(input: CreateInput, keyID: string, material: Option<string>, now: int) returns (r: Result<Issued, Failure>)
      modifies repo
      ensures r.Ok? <==>
                && TrimSpace(input.tenantID) != "" && TrimSpace(input.name) != "" && TrimSpace(input.createdBy) != ""
                && (input.role == TenantAdmin ||
                    (input.role in {ProjectEditor, ProjectViewer} && TrimSpace(input.projectID) != ""))
                && (input.expiresAt.Some? ==> now < input.expiresAt.value)
                && material.Some?
      ensures r.Err? ==> repo.items == old(repo.items) && r.error in {Invalid, NoRandomness}
      ensures r == Err(NoRandomness) ==> material == None
      ensures r.Ok? ==>
                && repo.items == old(repo.items)[keyID := r.value.key]
                && r.value.secret == "orag_sk_" + keyID + "_" + material.value
                && r.value.key == APIKey(keyID, TrimSpace(input.tenantID), TrimSpace(input.projectID), TrimSpace(input.name),
                     crypto.hash(r.value.secret), input.role, TrimSpace(input.createdBy), now, input.expiresAt, None, None, "")
                && (IssuableID(keyID) && material.value != "" && crypto.decodes(material.value) && TrimSpace(keyID) != "" ==>
                      Verify(repo.items, crypto, r.value.secret, now) == Ok(PrincipalOf(r.value.key)))
    {
      var tenantID, projectID := TrimSpace(input.tenantID), TrimSpace(input.projectID);
      var name, createdBy := TrimSpace(input.name), TrimSpace(input.createdBy);
      if tenantID == "" || name == "" || createdBy == "" {
        return Err(Invalid);
      }
      if input.role.OtherRole? {
        return Err(Invalid);
      }
      if !input.role.TenantAdmin? && projectID == "" {
        return Err(Invalid);
      }
      if input.expiresAt.Some? && input.expiresAt.value <= now {
        return Err(Invalid);
      }
      if material == None {
        return Err(NoRandomness);
      }
      var secret := SecretText(keyID, material.value);
      var key := APIKey(keyID, tenantID, projectID, name, crypto.hash(secret), input.role, createdBy, now, input.expiresAt,
                        None, None, "");
      repo.CreateAPIKey(key);
      TrimTwice(input.tenantID);
      TrimTwice(input.projectID);
      if IssuableID(keyID) && material.value != "" && crypto.decodes(material.value) && TrimSpace(keyID) != "" {
        SecretOpensItsKey(repo.items, crypto, keyID, material.value, now);
      }
      return Ok(Issued(key, secret));
    }

    /** A successful rotation shuts the old key and writes a replacement with the same tenant, project, role and expiry. */
    method Rotate(tenantID: string, sourceID: string, rotatedBy: string, keyID: string, material: Option<string>, now: int)
      returns (r: Result<Issued, Failure>)
      modifies repo
      ensures r.Err? ==> repo.items == old(repo.items)
      ensures r == Err(Invalid) <==> TrimSpace(tenantID) == "" || TrimSpace(rotatedBy) == "" || TrimSpace(sourceID) == ""
      ensures r.Err? ==> r.error in {Invalid, NotFound, NoRandomness}
      ensures r == Err(NoRandomness) ==> material == None
      ensures r.Ok? <==>
                && TrimSpace(tenantID) != "" && TrimSpace(rotatedBy) != "" && TrimSpace(sourceID) != "" && material.Some?
                && TrimSpace(sourceID) in old(repo.items)
                && var source := old(repo.items)[TrimSpace(sourceID)];
                   && source.tenantID == TrimSpace(tenantID) && source.revokedAt == None
                   && (source.expiresAt.Some? ==> now < source.expiresAt.value)
                   && CanRotate(old(repo.items), TrimSpace(tenantID), source.id, now)
      ensures r.Ok? ==>
                && material.Some? && r.value.secret == "orag_sk_" + keyID + "_" + material.value
                && TrimSpace(sourceID) in old(repo.items)
                && CanRotate(old(repo.items), TrimSpace(tenantID), old(repo.items)[TrimSpace(sourceID)].id, now)
                && (var s := old(repo.items)[TrimSpace(sourceID)];
                    r.value.key == APIKey(keyID, s.tenantID, s.projectID, s.name, crypto.hash(r.value.secret), s.role,
                                          TrimSpace(rotatedBy), now, s.expiresAt, None, None, s.id))
                && repo.items == RotateItem(old(repo.items), TrimSpace(tenantID), r.value.key.rotatedFrom, r.value.key, now).0
    {
      var tenant, id, actor := TrimSpace(tenantID), TrimSpace(sourceID), TrimSpace(rotatedBy);
      if tenant == "" || id == "" || actor == "" {
        return Err(Invalid);
      }
      var source := repo.GetAPIKeyByID(id);
      if source == None || source.value.tenantID != tenant || source.value.revokedAt.Some? ||
         (source.value.expiresAt.Some? && source.value.expiresAt.value <= now)
      {
        return Err(NotFound);
      }
      if material == None {
        return Err(NoRandomness);
      }
      var secret := SecretText(keyID, material.value);
      var replacement := Replacement(source.value, keyID, actor, crypto.hash(secret), now);
      var rotated := repo.RotateAPIKey(tenant, source.value.id, replacement, now);
      if !rotated {
        return Err(NotFound);
      }
      return Ok(Issued(replacement, secret));
    }
  }

  lemma EntryCount(m: map<string, int>, k: string, v: int)
    ensures |m[k := v]| == if k in m then |m| else |m| + 1
  {
    if k in m {
      assert m[k := v].Keys == m.Keys;
    } else {
      assert m[k := v].Keys == m.Keys + {k};
    }
  }

  lemma TrimTwice(s: string)
    ensures TrimSpace(TrimSpace(s)) == TrimSpace(s)
  {
    TrimmedAfter(s, IsSpace);
    TrimNothing(TrimSpace(s), IsSpace);
  }
}
