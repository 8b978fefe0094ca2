/** API keys: the in-memory repository and the rotation lineages of every run. */
module ApiKeys {
  import opened Wrappers
  import opened Text

  datatype Role = TenantAdmin | ProjectEditor | ProjectViewer | OtherRole(name: string)

  datatype APIKey = APIKey(id: string, tenantID: string, projectID: string, name: string, hash: string, role: Role,
                           createdBy: string, createdAt: int, expiresAt: Option<int>, revokedAt: Option<int>,
                           lastUsedAt: Option<int>, rotatedFrom: string)

  type Items = map<string, APIKey>

  predicate Expired(k: APIKey, now: int) { k.expiresAt.Some? && k.expiresAt.value <= now }

  // ---------- the repository ----------

  function RevokeItem(items: Items, tenantID: string, id: string, at: int): (Items, bool) {
    if id !in items || items[id].tenantID != tenantID then (items, false)
    else if items[id].revokedAt == None then (items[id := items[id].(revokedAt := Some(at))], true)
    else (items, true)
  }

  predicate CanRotate(items: Items, tenantID: string, sourceID: string, at: int) {
    && sourceID in items && items[sourceID].tenantID == tenantID
    && items[sourceID].revokedAt == None && !Expired(items[sourceID], at)
    && forall y | y in items :: items[y].rotatedFrom != sourceID
  }

  function RotateItem(items: Items, tenantID: string, sourceID: string, replacement: APIKey, at: int): (Items, bool) {
    if !CanRotate(items, tenantID, sourceID, at) then (items, false)
    else
      (items[sourceID := items[sourceID].(revokedAt := Some(at))][replacement.id := replacement], true)
  }

  predicate Touches(items: Items, id: string, notAfter: int) {
    id in items && (items[id].lastUsedAt == None || items[id].lastUsedAt.value <= notAfter)
  }

  function TouchItem(items: Items, id: string, usedAt: int, notAfter: int): Items {
    if Touches(items, id, notAfter) then items[id := items[id].(lastUsedAt := Some(usedAt))] else items
  }

  class MemoryAPIKeyRepository {
    var items: Items

    constructor ()
      ensures items == map[]
    {
      items := map[];
    }

    method CreateAPIKey(item: APIKey)
      modifies this
      ensures items == old(items)[item.id := item]
    {
      items := items[item.id := item];
    }

    method GetAPIKeyByID(id: string) returns (r: Option<APIKey>)
      ensures r == if id in items then Some(items[id]) else None
    {
      r := if id in items then Some(items[id]) else None;
    }

    method RevokeAPIKey(tenantID: string, id: string, revokedAt: int) returns (ok: bool)
      modifies this
      ensures (items, ok) == RevokeItem(old(items), tenantID, id, revokedAt)
      ensures ok <==> id in old(items) && old(items)[id].tenantID == tenantID
      ensures ok ==>
                var at := if old(items)[id].revokedAt.Some? then old(items)[id].revokedAt else Some(revokedAt);
                items == old(items)[id := old(items)[id].(revokedAt := at)]
      ensures !ok ==> items == old(items)
    {
      if id !in items || items[id].tenantID != tenantID {
        return false;
      }
      if items[id].revokedAt == None {
        items := items[id := items[id].(revokedAt := Some(revokedAt))];
      }
      return true;
    }

    method RotateAPIKey(tenantID: string, sourceID: string, replacement: APIKey, revokedAt: int) returns (ok: bool)
      modifies this
      ensures (items, ok) == RotateItem(old(items), tenantID, sourceID, replacement, revokedAt)
      ensures ok <==>
                && sourceID in old(items) && old(items)[sourceID].tenantID == tenantID
                && old(items)[sourceID].revokedAt == None
                && (old(items)[sourceID].expiresAt.Some? ==> revokedAt < old(items)[sourceID].expiresAt.value)
                && forall y | y in old(items) :: old(items)[y].rotatedFrom != sourceID
      ensures ok ==> replacement.id in items && items[replacement.id] == replacement
      ensures ok && replacement.id != sourceID ==>
                sourceID in items && items[sourceID] == old(items)[sourceID].(revokedAt := Some(revokedAt))
      ensures forall y | y in old(items) && y !in {sourceID, replacement.id} :: y in items && items[y] == old(items)[y]
      ensures !ok ==> items == old(items)
    {
      if sourceID !in items {
        return false;
      }
      var source := items[sourceID];
      if source.tenantID != tenantID || source.revokedAt.Some? ||
         (source.expiresAt.Some? && source.expiresAt.value <= revokedAt)
      {
        return false;
      }
      var todo := items.Keys;
      while todo != {}
        invariant todo <= items.Keys
        invariant forall y | y in items && y !in todo :: items[y].rotatedFrom != sourceID
        decreases |todo|
      {
        var y :| y in todo;
        if items[y].rotatedFrom == sourceID {
          return false;
        }
        todo := todo - {y};
      }
      items := items[sourceID := source.(revokedAt := Some(revokedAt))];
      items := items[replacement.id := replacement];
      return true;
    }

    method TouchAPIKeyLastUsed(id: string, usedAt: int, notAfter: int) returns (found: bool)
      modifies this
      ensures found == (id in old(items))
      ensures items == TouchItem(old(items), id, usedAt, notAfter)
      ensures items.Keys == old(items).Keys && forall y | y in items && y != id :: items[y] == old(items)[y]
      ensures found ==>
                var last := old(items)[id].lastUsedAt;
                items[id] == old(items)[id].(lastUsedAt :=
                  if last.Some? && last.value > notAfter then last else Some(usedAt))
    {
      if id !in items {
        return false;
      }
      var item := items[id];
      if item.lastUsedAt == None || item.lastUsedAt.value <= notAfter {
        items := items[id := item.(lastUsedAt := Some(usedAt))];
      }
      return true;
    }
  }

  // ---------- runs ----------

  /** What a rotation writes, made from the source as it was read. */
  function Replacement(source: APIKey, keyID: string, actor: string, hash: string, now: int): APIKey {
    APIKey(keyID, source.tenantID, source.projectID, source.name, hash, source.role, actor, now, source.expiresAt,
           None, None, source.id)
  }

  /** `readAt` is the number of repository calls after which the rotating client read the source; any other calls
      may have happened since. */
  datatype Op =
    | Create(key: APIKey)
    | Rotate(tenantID: string, sourceID: string, keyID: string, actor: string, hash: string, now: int, readAt: nat)
    | Revoke(tenantID: string, id: string, at: int)
    | Touch(id: string, usedAt: int)

  ghost function After(ops: seq<Op>, interval: int): Items
    decreases |ops|, 0
  {
    if ops == [] then map[]
    else
      var front, op := ops[..|ops| - 1], ops[|ops| - 1];
      var items := After(front, interval);
      match op
      case Create(key) => items[key.id := key]
      case Rotate(tenantID, sourceID, _, _, _, now, _) =>
        RotateItem(items, tenantID, sourceID, Written(front, op, interval), now).0
      case Revoke(tenantID, id, at) => RevokeItem(items, tenantID, id, at).0
      case Touch(id, usedAt) => TouchItem(items, id, usedAt, usedAt - interval)
  }

  /** The replacement a rotating client brings, from its earlier read. */
  ghost function Written(front: seq<Op>, op: Op, interval: int): APIKey
    requires op.Rotate?
    decreases |front|, 1
  {
    var read := if op.readAt <= |front| then After(front[..op.readAt], interval) else map[];
    var source := if op.sourceID in read then read[op.sourceID]
                  else APIKey("", "", "", "", "", OtherRole(""), "", 0, None, None, None, "");
    Replacement(source, op.keyID, op.actor, op.hash, op.now)
  }

  /** The service writes only what it read, under fresh nonempty IDs. */
  ghost predicate Allowed(front: seq<Op>, op: Op, interval: int) {
    match op
    case Create(key) =>
      key.id != "" && key.id !in After(front, interval) && key.rotatedFrom == "" && key.revokedAt == None && key.lastUsedAt == None
    case Rotate(_, sourceID, keyID, _, _, _, readAt) =>
      && keyID != "" && keyID !in After(front, interval)
      && readAt <= |front| && sourceID in After(front[..readAt], interval)
    case _ => true
  }

  ghost predicate Legal(ops: seq<Op>, interval: int) {
    forall k | 0 <= k < |ops| :: Allowed(ops[..k], ops[k], interval)
  }

  lemma LegalPrefix(ops: seq<Op>, k: nat, interval: int)
    requires Legal(ops, interval) && k <= |ops|
    ensures Legal(ops[..k], interval)
  {
    forall i | 0 <= i < k ensures Allowed(ops[..k][..i], ops[..k][i], interval) {
      assert ops[..k][..i] == ops[..i];
    }
  }

  /** Fields no call ever changes. */
  ghost predicate SameIdentity(a: APIKey, b: APIKey) {
    a.id == b.id && a.tenantID == b.tenantID && a.projectID == b.projectID && a.name == b.name && a.hash == b.hash &&
    a.role == b.role && a.expiresAt == b.expiresAt && a.rotatedFrom == b.rotatedFrom
  }

  ghost predicate Keeps(before: Items, after: Items) {
    forall id | id in before ::
      && id in after && SameIdentity(before[id], after[id])
      && (before[id].revokedAt.Some? ==> after[id].revokedAt == before[id].revokedAt)
  }

  lemma Unfold(ops: seq<Op>, k: nat, interval: int)
    requires k < |ops|
    ensures ops[..k + 1][..k] == ops[..k] && ops[..k + 1][k] == ops[k]
  {
  }

  lemma StepKeeps(ops: seq<Op>, k: nat, interval: int)
    requires Legal(ops, interval) && k < |ops|
    ensures Keeps(After(ops[..k], interval), After(ops[..k + 1], interval))
  {
    Unfold(ops, k, interval);
    assert Allowed(ops[..k], ops[k], interval);
    var before, op := After(ops[..k], interval), ops[k];
    match op
    case Create(key) => InsertKeeps(before, key.id, key);
    case Rotate(tenantID, sourceID, keyID, _, _, now, _) =>
      if CanRotate(before, tenantID, sourceID, now) {
        var revoked := before[sourceID := before[sourceID].(revokedAt := Some(now))];
        InsertKeeps(revoked, keyID, Written(ops[..k], op, interval));
      }
    case _ =>
  }

  lemma InsertKeeps(items: Items, id: string, key: APIKey)
    requires id !in items
    ensures Keeps(items, items[id := key])
  {
  }

  /** Keys are never lost, their identity never changes and a revocation time never changes. */
  lemma {:induction false} NothingIsUndone(ops: seq<Op>, k: nat, m: nat, interval: int)
    requires Legal(ops, interval) && k <= m <= |ops|
    ensures Keeps(After(ops[..k], interval), After(ops[..m], interval))
    decreases m
  {
    if k < m {
      NothingIsUndone(ops, k, m - 1, interval);
      StepKeeps(ops, m - 1, interval);
    }
  }

  /** How many calls it took until the key existed. */
  ghost function Birth(ops: seq<Op>, id: string, interval: int): nat {
    if ops == [] || id in After(ops[..|ops| - 1], interval) then (if ops == [] then 0 else Birth(ops[..|ops| - 1], id, interval))
    else |ops|
  }

  /** What rotation leaves behind in every reachable repository. */
  ghost predicate Chained(ops: seq<Op>, interval: int) {
    var items := After(ops, interval);
    && (forall y | y in items :: y != "" && items[y].id == y && Birth(ops, y, interval) <= |ops|)
    && (forall y | y in items && items[y].rotatedFrom != "" :: Follows(ops, items[y].rotatedFrom, y, interval))
    && (forall y, z | y in items && z in items && items[y].rotatedFrom == items[z].rotatedFrom != "" :: y == z)
  }

  /** `x` is the revoked, older key that `y` replaced. */
  ghost predicate Follows(ops: seq<Op>, x: string, y: string, interval: int) {
    var items := After(ops, interval);
    && x in items && y in items
    && items[x].revokedAt.Some?
    && items[x].tenantID == items[y].tenantID && items[x].projectID == items[y].projectID
    && items[x].role == items[y].role && items[x].expiresAt == items[y].expiresAt
    && Birth(ops, x, interval) < Birth(ops, y, interval)
  }

  lemma FollowsLater(ops: seq<Op>, x: string, y: string, interval: int)
    requires Legal(ops, interval) && ops != [] && Follows(ops[..|ops| - 1], x, y, interval)
    ensures Follows(ops, x, y, interval)
  {
    StepKeeps(ops, |ops| - 1, interval);
    assert ops[..|ops|] == ops;
  }

  lemma {:induction false} EveryRunIsChained(ops: seq<Op>, interval: int)
    requires Legal(ops, interval)
    ensures Chained(ops, interval)
  {
    if ops != [] {
      var n := |ops| - 1;
      var front, op := ops[..n], ops[n];
      LegalPrefix(ops, n, interval);
      EveryRunIsChained(front, interval);
      StepKeeps(ops, n, interval);
      assert ops[..n + 1] == ops;
      assert Allowed(front, op, interval);
      if op.Rotate? && CanRotate(After(front, interval), op.tenantID, op.sourceID, op.now) {
        RotationChains(ops, interval);
      } else {
        OtherCallsChain(ops, interval);
      }
    }
  }

  lemma OtherCallsChain(ops: seq<Op>, interval: int)
    requires Legal(ops, interval) && ops != [] && Chained(ops[..|ops| - 1], interval)
    requires Keeps(After(ops[..|ops| - 1], interval), After(ops, interval))
    requires var op := ops[|ops| - 1];
             op.Rotate? ==> !CanRotate(After(ops[..|ops| - 1], interval), op.tenantID, op.sourceID, op.now)
    ensures Chained(ops, interval)
  {
    var before, items := After(ops[..|ops| - 1], interval), After(ops, interval);
    OtherCallsLink(ops, interval);
    forall y | y in items && items[y].rotatedFrom != "" ensures Follows(ops, items[y].rotatedFrom, y, interval) {
      assert y in before && before[y].rotatedFrom == items[y].rotatedFrom;
      FollowsLater(ops, items[y].rotatedFrom, y, interval);
    }
    forall v, z | v in items && z in items && items[v].rotatedFrom == items[z].rotatedFrom != "" ensures v == z {
      assert v in before && before[v].rotatedFrom == items[v].rotatedFrom;
      assert z in before && before[z].rotatedFrom == items[z].rotatedFrom;
    }
  }

  /** Calls that rotate nothing add at most a key without a predecessor. */
  lemma OtherCallsLink(ops: seq<Op>, interval: int)
    requires Legal(ops, interval) && ops != [] && Chained(ops[..|ops| - 1], interval)
    requires Keeps(After(ops[..|ops| - 1], interval), After(ops, interval))
    requires var op := ops[|ops| - 1];
             op.Rotate? ==> !CanRotate(After(ops[..|ops| - 1], interval), op.tenantID, op.sourceID, op.now)
    ensures var before, items := After(ops[..|ops| - 1], interval), After(ops, interval);
            forall y | y in items ::
              && y != "" && items[y].id == y && Birth(ops, y, interval) <= |ops|
              && (y !in before ==> items[y].rotatedFrom == "")
  {
    var front, op := ops[..|ops| - 1], ops[|ops| - 1];
    assert Allowed(front, op, interval);
    var before, items := After(front, interval), After(ops, interval);
    forall y | y in before ensures items[y].id == y && Birth(ops, y, interval) <= |ops| {}
  }

  lemma RotationChains(ops: seq<Op>, interval: int)
    requires Legal(ops, interval) && ops != [] && Chained(ops[..|ops| - 1], interval)
    requires Keeps(After(ops[..|ops| - 1], interval), After(ops, interval))
    requires var op := ops[|ops| - 1];
             op.Rotate? && CanRotate(After(ops[..|ops| - 1], interval), op.tenantID, op.sourceID, op.now)
    ensures Chained(ops, interval)
  {
    var front, op := ops[..|ops| - 1], ops[|ops| - 1];
    var before, items := After(front, interval), After(ops, interval);
    var x, y := op.sourceID, op.keyID;
    RotationLinks(ops, interval);
    forall z | z in items && items[z].rotatedFrom != "" ensures Follows(ops, items[z].rotatedFrom, z, interval) {
      if z != y {
        assert z in before && before[z].rotatedFrom == items[z].rotatedFrom;
        FollowsLater(ops, items[z].rotatedFrom, z, interval);
      }
    }
    forall z | z in items ensures z != "" && items[z].id == z && Birth(ops, z, interval) <= |ops| {
      assert z == y || z in before;
    }
    forall v, z | v in items && z in items && items[v].rotatedFrom == items[z].rotatedFrom != "" ensures v == z {
      if v != y { assert v in before && before[v].rotatedFrom == items[v].rotatedFrom != x; }
      if z != y { assert z in before && before[z].rotatedFrom == items[z].rotatedFrom != x; }
    }
  }

  lemma RotationLinks(ops: seq<Op>, interval: int)
    requires Legal(ops, interval) && ops != [] && Chained(ops[..|ops| - 1], interval)
    requires Keeps(After(ops[..|ops| - 1], interval), After(ops, interval))
    requires var op := ops[|ops| - 1];
             op.Rotate? && CanRotate(After(ops[..|ops| - 1], interval), op.tenantID, op.sourceID, op.now)
    ensures var op := ops[|ops| - 1]; var before, items := After(ops[..|ops| - 1], interval), After(ops, interval);
            && op.keyID != "" && op.keyID in items && items[op.keyID].id == op.keyID
            && items[op.keyID].rotatedFrom == op.sourceID
            && items.Keys == before.Keys + {op.keyID} && op.keyID !in before
            && Birth(ops, op.keyID, interval) == |ops|
            && Follows(ops, op.sourceID, op.keyID, interval)
  {
    var n := |ops| - 1;
    var front, op := ops[..n], ops[n];
    assert Allowed(front, op, interval);
    NothingIsUndone(ops, op.readAt, n, interval);
    assert front[..op.readAt] == ops[..op.readAt];
    var read, before := After(front[..op.readAt], interval), After(front, interval);
    var x := op.sourceID;
    assert SameIdentity(read[x], before[x]) && before[x].id == x;
    assert Birth(ops, x, interval) == Birth(front, x, interval) <= n;
  }

  // ---------- chains ----------

  /** The key and everything it descends from, oldest first. */
  ghost function Lineage(ops: seq<Op>, y: string, interval: int): seq<string>
    requires Chained(ops, interval) && y in After(ops, interval)
    decreases Birth(ops, y, interval)
  {
    var x := After(ops, interval)[y].rotatedFrom;
    if x == "" then [y]
    else
      assert Follows(ops, x, y, interval);
      Lineage(ops, x, interval) + [y]
  }

  /** Along a chain nothing but the tip can be unrevoked, and tenant, project, role and expiry are constant. */
  lemma {:induction false} OnlyTheTipLives(ops: seq<Op>, y: string, interval: int)
    requires Chained(ops, interval) && y in After(ops, interval)
    ensures LiveTip(After(ops, interval), Lineage(ops, y, interval), y)
    decreases Birth(ops, y, interval)
  {
    var x := After(ops, interval)[y].rotatedFrom;
    if x != "" {
      assert Follows(ops, x, y, interval);
      OnlyTheTipLives(ops, x, interval);
      var rest := Lineage(ops, x, interval);
      TipJoins(After(ops, interval), rest, x, y);
    }
  }

  ghost predicate LiveTip(items: Items, chain: seq<string>, y: string) {
    && chain != [] && chain[|chain| - 1] == y
    && (forall i | 0 <= i < |chain| :: chain[i] in items)
    && (forall i | 0 <= i < |chain| - 1 :: items[chain[i]].revokedAt.Some? && items[chain[i + 1]].rotatedFrom == chain[i])
    && (forall i | 0 <= i < |chain| :: SameRights(items[chain[i]], items[y]))
  }

  ghost predicate SameRights(a: APIKey, b: APIKey) {
    a.tenantID == b.tenantID && a.projectID == b.projectID && a.role == b.role && a.expiresAt == b.expiresAt
  }

  lemma TipJoins(items: Items, rest: seq<string>, x: string, y: string)
    requires LiveTip(items, rest, x) && y in items && items[y].rotatedFrom == x
    requires items[x].revokedAt.Some? && SameRights(items[x], items[y])
    ensures LiveTip(items, rest + [y], y)
  {
    var chain := rest + [y];
    forall i | 0 <= i < |chain| - 1
      ensures items[chain[i]].revokedAt.Some? && items[chain[i + 1]].rotatedFrom == chain[i]
    {
      if i < |rest| - 1 { assert chain[i] == rest[i] && chain[i + 1] == rest[i + 1]; }
    }
  }

  ghost predicate Ages(ops: seq<Op>, chain: seq<string>, interval: int) {
    forall i, j | 0 <= i < j < |chain| :: Birth(ops, chain[i], interval) < Birth(ops, chain[j], interval)
  }

  lemma AgesExtend(ops: seq<Op>, chain: seq<string>, y: string, interval: int)
    requires chain != [] && Ages(ops, chain, interval)
    requires Birth(ops, chain[|chain| - 1], interval) < Birth(ops, y, interval)
    ensures Ages(ops, chain + [y], interval)
  {
    forall i | 0 <= i < |chain| ensures Birth(ops, chain[i], interval) < Birth(ops, y, interval) {
      if i < |chain| - 1 { assert Birth(ops, chain[i], interval) < Birth(ops, chain[|chain| - 1], interval); }
    }
  }

  /** Births strictly increase along a chain, so no key occurs twice in it. */
  lemma {:induction false} ChainsAreSimple(ops: seq<Op>, y: string, interval: int)
    requires Chained(ops, interval) && y in After(ops, interval)
    ensures Ages(ops, Lineage(ops, y, interval), interval)
    ensures forall i, j | 0 <= i < j < |Lineage(ops, y, interval)| :: Lineage(ops, y, interval)[i] != Lineage(ops, y, interval)[j]
    decreases Birth(ops, y, interval)
  {
    var x := After(ops, interval)[y].rotatedFrom;
    if x != "" {
      assert Follows(ops, x, y, interval);
      ChainsAreSimple(ops, x, interval);
      OnlyTheTipLives(ops, x, interval);
      AgesExtend(ops, Lineage(ops, x, interval), y, interval);
    }
  }

  /** The lineage of a key on a chain is the part of the chain up to it. */
  lemma {:induction false} LineageOfMember(ops: seq<Op>, y: string, i: nat, interval: int)
    requires Chained(ops, interval) && y in After(ops, interval) && i < |Lineage(ops, y, interval)|
    ensures Lineage(ops, y, interval)[i] in After(ops, interval)
    ensures Lineage(ops, Lineage(ops, y, interval)[i], interval) == Lineage(ops, y, interval)[..i + 1]
    decreases Birth(ops, y, interval)
  {
    OnlyTheTipLives(ops, y, interval);
    var x, chain := After(ops, interval)[y].rotatedFrom, Lineage(ops, y, interval);
    if x != "" {
      assert Follows(ops, x, y, interval);
      var rest := Lineage(ops, x, interval);
      if i < |rest| {
        LineageOfMember(ops, x, i, interval);
        assert chain[..i + 1] == rest[..i + 1];
      } else {
        assert chain[..i + 1] == chain;
      }
    } else {
      assert chain[..i + 1] == chain;
    }
  }

  /** Chains do not branch: two lineages that share a key are nested in each other. */
  lemma {:induction false} ChainsDoNotBranch(ops: seq<Op>, y: string, z: string, interval: int, i: nat, j: nat)
    requires Chained(ops, interval) && y in After(ops, interval) && z in After(ops, interval)
    requires i < |Lineage(ops, y, interval)| && j < |Lineage(ops, z, interval)|
    requires Lineage(ops, y, interval)[i] == Lineage(ops, z, interval)[j]
    ensures Lineage(ops, y, interval) <= Lineage(ops, z, interval) || Lineage(ops, z, interval) <= Lineage(ops, y, interval)
    decreases |Lineage(ops, y, interval)| - i
  {
    var a, b := Lineage(ops, y, interval), Lineage(ops, z, interval);
    LineageOfMember(ops, y, i, interval);
    LineageOfMember(ops, z, j, interval);
    assert a[..i + 1] == b[..j + 1] && |a[..i + 1]| == i + 1 && |b[..j + 1]| == j + 1;
    if i + 1 == |a| {
      assert a == b[..j + 1];
    } else if j + 1 == |b| {
      assert b == a[..i + 1];
    } else {
      OnlyTheTipLives(ops, y, interval);
      OnlyTheTipLives(ops, z, interval);
      assert a[i + 1] == b[j + 1];
      ChainsDoNotBranch(ops, y, z, interval, i + 1, j + 1);
    }
  }

  /** The scan for an existing successor is a second line of defence: an unrevoked key never has one. */
  lemma SuccessorCheckIsRedundant(ops: seq<Op>, x: string, y: string, interval: int)
    requires Legal(ops, interval) && x in After(ops, interval) && y in After(ops, interval) && x != ""
    requires After(ops, interval)[x].revokedAt == None
    ensures After(ops, interval)[y].rotatedFrom != x
  {
    EveryRunIsChained(ops, interval);
    assert After(ops, interval)[y].rotatedFrom != "" ==> Follows(ops, After(ops, interval)[y].rotatedFrom, y, interval);
  }

  /** Two stored last-used times of one key, the second replacing the first, are at least the interval apart. */
  lemma LastUsedTimesAreSpaced(ops: seq<Op>, k: nat, id: string, interval: int)
    requires Legal(ops, interval) && k < |ops| && id in After(ops[..k], interval)
    ensures id in After(ops[..k + 1], interval)
    ensures var a, b := After(ops[..k], interval)[id].lastUsedAt, After(ops[..k + 1], interval)[id].lastUsedAt;
            a != b && a.Some? ==> b.Some? && b.value - a.value >= interval
  {
    Unfold(ops, k, interval);
    assert Allowed(ops[..k], ops[k], interval);
  }
}
