/** Version numbers of evaluation policies, allocated by a read followed by a conflict-checked write. */
module PolicyVersions {
  import opened Wrappers
  import opened Text

  datatype Policy = Policy(id: string, tenantID: string, projectID: string, datasetID: string, name: string, version: int,
                           gates: seq<string>, createdAt: int)

  type Policies = map<string, Policy>

  /** The policies one service call regards as revisions of each other. */
  datatype Family = Family(tenantID: string, projectID: string, name: string)

  predicate InFamily(p: Policy, f: Family) {
    p.tenantID == f.tenantID && p.projectID == f.projectID && p.name == f.name
  }

  function FamilyOf(p: Policy): Family { Family(p.tenantID, p.projectID, p.name) }

  ghost predicate HasVersion(items: Policies, f: Family, v: int) {
    exists id :: id in items && InFamily(items[id], f) && items[id].version == v
  }

  /** What `nextVersion` computes: one more than the greatest version, or 1. */
  ghost predicate IsNext(items: Policies, f: Family, v: int) {
    && (forall w :: HasVersion(items, f, w) ==> w < v)
    && (v == 1 || (v > 1 && HasVersion(items, f, v - 1)))
  }

  /** The write is refused when any tenant has this project, name and version. */
  ghost predicate Conflicts(items: Policies, p: Policy) {
    exists id :: id in items && items[id].projectID == p.projectID && items[id].name == p.name && items[id].version == p.version
  }

  ghost function Written(items: Policies, p: Policy): Policies {
    if Conflicts(items, p) then items else items[p.id := p]
  }

  // ---------- interleaved runs ----------

  /** A client's write of `policy`; its version was read after the first `readAt` writes of the run. */
  datatype Write = Write(policy: Policy, readAt: nat)

  ghost function After(run: seq<Write>): Policies {
    if run == [] then map[] else Written(After(run[..|run| - 1]), run[|run| - 1].policy)
  }

  /** Any number of clients may read and write in any order; IDs are fresh. */
  ghost predicate Legal(run: seq<Write>) {
    forall k | 0 <= k < |run| ::
      && run[k].policy.id !in After(run[..k])
      && run[k].readAt <= k
      && IsNext(After(run[..run[k].readAt]), FamilyOf(run[k].policy), run[k].policy.version)
  }

  lemma LegalPrefix(run: seq<Write>, k: nat)
    requires Legal(run) && k <= |run|
    ensures Legal(run[..k])
  {
    forall i | 0 <= i < k ensures run[..k][..i] == run[..i] && run[..k][..run[i].readAt] == run[..run[i].readAt] {}
  }

  ghost predicate Keeps(before: Policies, after: Policies) {
    forall id | id in before :: id in after && after[id] == before[id]
  }

  lemma WriteKeeps(run: seq<Write>, k: nat)
    requires Legal(run) && k < |run|
    ensures After(run[..k + 1]) == Written(After(run[..k]), run[k].policy)
    ensures Keeps(After(run[..k]), After(run[..k + 1]))
  {
    hide Conflicts, IsNext;
    assert run[..k + 1][..k] == run[..k];
    assert run[k].policy.id !in After(run[..k]);
  }

  /** Stored policies never change. */
  lemma {:induction false} PoliciesAreImmutable(run: seq<Write>, k: nat, m: nat)
    requires Legal(run) && k <= m <= |run|
    ensures Keeps(After(run[..k]), After(run[..m]))
    decreases m
  {
    hide Legal, After;
    if k < m {
      PoliciesAreImmutable(run, k, m - 1);
      WriteKeeps(run, m - 1);
    }
  }

  /** The family's versions are exactly 1 to `n`. */
  ghost predicate Exactly(items: Policies, f: Family, n: nat) {
    forall v :: HasVersion(items, f, v) <==> 1 <= v <= n
  }

  /** No two policies share tenant, project, name and version. */
  ghost predicate NoDuplicates(items: Policies) {
    forall a, b | a in items && b in items && FamilyOf(items[a]) == FamilyOf(items[b]) && items[a].version == items[b].version :: a == b
  }

  ghost predicate Keyed(items: Policies) { forall id | id in items :: items[id].id == id }

  lemma VersionsGrow(before: Policies, after: Policies, f: Family, v: int)
    requires Keeps(before, after) && HasVersion(before, f, v)
    ensures HasVersion(after, f, v)
  {
    var id :| id in before && InFamily(before[id], f) && before[id].version == v;
    assert id in after;
  }

  lemma AddedVersion(items: Policies, p: Policy, f: Family, v: int)
    requires p.id !in items
    ensures HasVersion(items[p.id := p], f, v) <==> HasVersion(items, f, v) || (InFamily(p, f) && p.version == v)
  {
    var next := items[p.id := p];
    if HasVersion(items, f, v) {
      VersionsGrow(items, next, f, v);
    }
    if InFamily(p, f) && p.version == v {
      assert p.id in next;
    }
  }

  /** A stale read can only lead to a conflict or to the version that is next now. */
  lemma WriteIsNext(items: Policies, earlier: Policies, p: Policy, n: nat)
    requires Keeps(earlier, items)
    requires IsNext(earlier, FamilyOf(p), p.version) && Exactly(items, FamilyOf(p), n) && !Conflicts(items, p)
    ensures p.version == n + 1
  {
    var f := FamilyOf(p);
    if p.version > 1 {
      VersionsGrow(earlier, items, f, p.version - 1);
    }
    StoredVersionConflicts(items, p);
  }

  lemma StoredVersionConflicts(items: Policies, p: Policy)
    ensures HasVersion(items, FamilyOf(p), p.version) ==> Conflicts(items, p)
  {
    if id :| id in items && InFamily(items[id], FamilyOf(p)) && items[id].version == p.version {
      assert items[id].projectID == p.projectID;
    }
  }

  ghost predicate Allocated(items: Policies, f: Family) {
    exists n: nat :: Exactly(items, f, n)
  }

  /** Under every interleaving the stored versions of each tenant, project and name are 1 to n, each once. */
  lemma {:induction false} VersionsAreGapless(run: seq<Write>, f: Family)
    requires Legal(run)
    ensures Allocated(After(run), f) && NoDuplicates(After(run)) && Keyed(After(run))
  {
    if run == [] {
      assert Exactly(After(run), f, 0);
    } else {
      var m := |run| - 1;
      var items, w := After(run[..m]), run[m];
      LegalPrefix(run, m);
      VersionsAreGapless(run[..m], f);
      if !Conflicts(items, w.policy) {
        OneMoreVersion(run, f);
      }
    }
  }

  lemma InsertAllocates(items: Policies, p: Policy, f: Family, n: nat)
    requires p.id !in items && Exactly(items, f, n) && (InFamily(p, f) ==> p.version == n + 1)
    ensures Allocated(items[p.id := p], f)
  {
    var next := items[p.id := p];
    var m := if InFamily(p, f) then n + 1 else n;
    forall v ensures HasVersion(next, f, v) <==> 1 <= v <= m {
      AddedVersion(items, p, f, v);
    }
    assert Exactly(next, f, m);
  }

  lemma InsertNoDuplicates(items: Policies, p: Policy)
    requires p.id !in items && !Conflicts(items, p) && NoDuplicates(items) && Keyed(items)
    ensures NoDuplicates(items[p.id := p]) && Keyed(items[p.id := p])
  {
  }

  lemma OneMoreVersion(run: seq<Write>, f: Family)
    requires Legal(run) && run != [] && !Conflicts(After(run[..|run| - 1]), run[|run| - 1].policy)
    requires Allocated(After(run[..|run| - 1]), f) && NoDuplicates(After(run[..|run| - 1])) && Keyed(After(run[..|run| - 1]))
    ensures Allocated(After(run), f) && NoDuplicates(After(run)) && Keyed(After(run))
  {
    hide HasVersion, InFamily, NoDuplicates, Keyed, Exactly, Keeps;
    var m := |run| - 1;
    var items, p := After(run[..m]), run[m].policy;
    var n: nat :| Exactly(items, f, n);
    if InFamily(p, f) {
      PoliciesAreImmutable(run, run[m].readAt, m);
      FamilyIs(p, f);
      WriteIsNext(items, After(run[..run[m].readAt]), p, n);
    }
    InsertAllocates(items, p, f, n);
    InsertNoDuplicates(items, p);
  }

  lemma FamilyIs(p: Policy, f: Family)
    requires InFamily(p, f)
    ensures FamilyOf(p) == f
  {
  }

  ghost predicate OneOwner(items: Policies) {
    forall a, b | a in items && b in items && items[a].projectID == items[b].projectID && items[a].name == items[b].name ::
      items[a].tenantID == items[b].tenantID
  }

  /** The conflict check does not look at the tenant: once one tenant owns a name in a project, no other tenant using
      the same project ID can ever store a policy of that name. */
  lemma {:induction false} OneTenantPerName(run: seq<Write>)
    requires Legal(run)
    ensures OneOwner(After(run))
  {
    if run != [] {
      var m := |run| - 1;
      var items, p := After(run[..m]), run[m].policy;
      LegalPrefix(run, m);
      OneTenantPerName(run[..m]);
      if !Conflicts(items, p) {
        forall a | a in items && items[a].projectID == p.projectID && items[a].name == p.name
          ensures items[a].tenantID == p.tenantID
        {
          NewOwner(run, a);
        }
      }
    }
  }

  /** Every family with a policy has a first version. */
  lemma FirstVersion(run: seq<Write>, a: string) returns (first: string)
    requires Legal(run) && a in After(run)
    ensures var items := After(run);
            first in items && InFamily(items[first], FamilyOf(items[a])) && items[first].version == 1
  {
    var items := After(run);
    var f := FamilyOf(items[a]);
    VersionsAreGapless(run, f);
    var n: nat :| Exactly(items, f, n);
    assert HasVersion(items, f, items[a].version);
    assert HasVersion(items, f, 1);
    first :| first in items && InFamily(items[first], f) && items[first].version == 1;
  }

  lemma NewOwner(run: seq<Write>, a: string)
    requires Legal(run) && run != [] && OneOwner(After(run[..|run| - 1]))
    requires var items, p := After(run[..|run| - 1]), run[|run| - 1].policy;
             a in items && !Conflicts(items, p) && items[a].projectID == p.projectID && items[a].name == p.name
    ensures After(run[..|run| - 1])[a].tenantID == run[|run| - 1].policy.tenantID
  {
    var m := |run| - 1;
    var items, p, f := After(run[..m]), run[m].policy, FamilyOf(run[m].policy);
    LegalPrefix(run, m);
    VersionsAreGapless(run[..m], f);
    var k: nat :| Exactly(items, f, k);
    PoliciesAreImmutable(run, run[m].readAt, m);
    WriteIsNext(items, After(run[..run[m].readAt]), p, k);
    if k == 0 {
      // The new policy would be a first version, and so is one of the owner's: a conflict.
      var first := FirstVersion(run[..m], a);
    } else {
      assert HasVersion(items, f, 1);
      var own :| own in items && InFamily(items[own], f) && items[own].version == 1;
      assert items[own].projectID == items[a].projectID;
    }
  }

  /** Every stored policy of the family's project and name belongs to the family's tenant. */
  ghost predicate OwnedBy(items: Policies, f: Family) {
    forall id | id in items && items[id].projectID == f.projectID && items[id].name == f.name :: items[id].tenantID == f.tenantID
  }

  lemma OwnVersionConflicts(items: Policies, p: Policy)
    requires OwnedBy(items, FamilyOf(p))
    ensures Conflicts(items, p) <==> HasVersion(items, FamilyOf(p), p.version)
  {
    StoredVersionConflicts(items, p);
  }

  /** In every run a write succeeds if and only if no other tenant owns the name in that project and no other client
      took the version since it was read. */
  lemma WriteSucceedsExactlyWhen(run: seq<Write>)
    requires Legal(run) && run != []
    ensures var items, p := After(run[..|run| - 1]), run[|run| - 1].policy;
            !Conflicts(items, p) <==> OwnedBy(items, FamilyOf(p)) && !HasVersion(items, FamilyOf(p), p.version)
  {
    var m := |run| - 1;
    var items, p := After(run[..m]), run[m].policy;
    if Conflicts(items, p) {
      if OwnedBy(items, FamilyOf(p)) { OwnVersionConflicts(items, p); }
    } else {
      LegalPrefix(run, m);
      OneTenantPerName(run[..m]);
      forall a | a in items && items[a].projectID == p.projectID && items[a].name == p.name
        ensures items[a].tenantID == p.tenantID
      {
        NewOwner(run, a);
      }
      OwnVersionConflicts(items, p);
    }
  }

  ghost predicate Reachable(items: Policies) { exists run :: Legal(run) && After(run) == items }

  lemma OneMoreWrite(run: seq<Write>, p: Policy)
    requires Legal(run) && p.id !in After(run) && IsNext(After(run), FamilyOf(p), p.version)
    ensures Legal(run + [Write(p, |run|)])
  {
    hide IsNext, Written, After;
    var next := run + [Write(p, |run|)];
    forall k | 0 <= k < |next|
      ensures next[k].policy.id !in After(next[..k]) && next[k].readAt <= k
      ensures IsNext(After(next[..next[k].readAt]), FamilyOf(next[k].policy), next[k].policy.version)
    {
      assert next[..k] == run[..k] && next[..next[k].readAt] == run[..next[k].readAt];
      assert run[..|run|] == run;
    }
  }

  /** With a current read the write succeeds if and only if no other tenant owns the name. */
  lemma FreshWriteSucceedsExactlyWhen(items: Policies, p: Policy)
    requires Reachable(items) && p.id !in items && IsNext(items, FamilyOf(p), p.version)
    ensures !Conflicts(items, p) <==> OwnedBy(items, FamilyOf(p))
  {
    var run :| Legal(run) && After(run) == items;
    OneMoreWrite(run, p);
    var next := run + [Write(p, |run|)];
    assert next[..|run|] == run;
    WriteSucceedsExactlyWhen(next);
  }

  /** Two tenants, one project ID and one name: the second tenant's first policy is refused. */
  lemma SecondTenantIsShutOut()
    ensures var a := Policy("1", "acme", "p", "d", "gate", 1, [], 0);
            var b := Policy("2", "beta", "p", "d", "gate", 1, [], 0);
            Legal([Write(a, 0), Write(b, 1)]) && After([Write(a, 0), Write(b, 1)]) == map["1" := a]
  {
    var a, b := Policy("1", "acme", "p", "d", "gate", 1, [], 0), Policy("2", "beta", "p", "d", "gate", 1, [], 0);
    var first, run := [Write(a, 0)], [Write(a, 0), Write(b, 1)];
    assert first[..0] == [] && run[..0] == [] && run[..1] == first;
    assert After([]) == map[];
    var items := After(first);
    assert items == map["1" := a];
    assert items["1"] == a;
    assert Conflicts(items, b);
  }

  // ---------- the program ----------

  class MemoryRepository {
    var policies: Policies

    constructor ()
      ensures policies == map[]
    {
      policies := map[];
    }

    /** Returns whether the policy was stored. */
    method Create(policy: Policy) returns (ok: bool)
      modifies this
      ensures ok <==> !Conflicts(old(policies), policy)
      ensures policies == Written(old(policies), policy)
    {
      var todo := policies.Keys;
      while todo != {}
        invariant todo <= policies.Keys
        invariant forall id | id in policies && id !in todo ::
          !(policies[id].projectID == policy.projectID && policies[id].name == policy.name && policies[id].version == policy.version)
        decreases |todo|
      {
        var id :| id in todo;
        var existing := policies[id];
        if existing.projectID == policy.projectID && existing.name == policy.name && existing.version == policy.version {
          assert Conflicts(policies, policy);
          return false;
        }
        todo := todo - {id};
      }
      policies := policies[policy.id := policy];
      return true;
    }

    /** The policies of a tenant's project, in some order. */
    method List(tenantID: string, projectID: string) returns (items: seq<Policy>)
      ensures forall p :: p in items <==> exists id :: id in policies && policies[id] == p && p.tenantID == tenantID && p.projectID == projectID
    {
      items := [];
      var todo := policies.Keys;
      while todo != {}
        invariant todo <= policies.Keys
        invariant forall p :: p in items <==>
          exists id :: id in policies && id !in todo && policies[id] == p && p.tenantID == tenantID && p.projectID == projectID
        decreases |todo|
      {
        var id :| id in todo;
        var policy := policies[id];
        ghost var before := items;
        if policy.tenantID == tenantID && policy.projectID == projectID {
          items := items + [policy];
        }
        forall p ensures p in items <==>
          exists i :: i in policies && i !in todo - {id} && policies[i] == p && p.tenantID == tenantID && p.projectID == projectID
        {
          if p in before {
            var i :| i in policies && i !in todo && policies[i] == p;
            assert i !in todo - {id};
          }
        }
        todo := todo - {id};
      }
    }
  }

  method NextVersion(repo: MemoryRepository, tenantID: string, projectID: string, name: string) returns (version: int)
    ensures IsNext(repo.policies, Family(tenantID, projectID, name), version)
  {
    var f := Family(tenantID, projectID, name);
    var policies := repo.List(tenantID, projectID);
    version := 1;
    for i := 0 to |policies|
      invariant version >= 1
      invariant forall j | 0 <= j < i && policies[j].name == name :: policies[j].version < version
      invariant version == 1 || exists j :: 0 <= j < i && policies[j].name == name && policies[j].version == version - 1
    {
      var existing := policies[i];
      if existing.name == name && existing.version >= version {
        version := existing.version + 1;
      }
    }
    forall w | HasVersion(repo.policies, f, w) ensures w < version {
      var id :| id in repo.policies && InFamily(repo.policies[id], f) && repo.policies[id].version == w;
      assert repo.policies[id] in policies;
    }
    if version > 1 {
      var j :| 0 <= j < |policies| && policies[j].name == name && policies[j].version == version - 1;
      assert policies[j] in policies;
      var id :| id in repo.policies && repo.policies[id] == policies[j];
      assert InFamily(repo.policies[id], f);
    }
  }

  datatype CreateFailure = InvalidPolicy | DatasetNotFound

  /** The service's read and write in one piece, which is what a single client sees. */
  method CreatePolicy(repo: MemoryRepository, tenantID: string, projectID: string, datasetID: string, name: string,
                      gates: seq<string>, gatesValid: bool, datasetFound: bool, freshID: string, now: int)
    returns (r: Result<Policy, CreateFailure>)
    requires freshID !in repo.policies
    modifies repo
    ensures r.Err? ==> repo.policies == old(repo.policies)
    ensures r.Ok? ==>
              && repo.policies == old(repo.policies)[freshID := r.value]
              && FamilyOf(r.value) == Family(TrimSpace(tenantID), TrimSpace(projectID), TrimSpace(name))
              && IsNext(old(repo.policies), FamilyOf(r.value), r.value.version)
              && r.value.datasetID == TrimSpace(datasetID) && r.value.gates == gates
    ensures Reachable(old(repo.policies)) ==>
              (r.Ok? <==>
                && gatesValid && datasetFound && TrimSpace(tenantID) != "" && TrimSpace(projectID) != ""
                && TrimSpace(datasetID) != "" && TrimSpace(name) != ""
                && OwnedBy(old(repo.policies), Family(TrimSpace(tenantID), TrimSpace(projectID), TrimSpace(name))))
  {
    var tenant, project, dataset, title := TrimSpace(tenantID), TrimSpace(projectID), TrimSpace(datasetID), TrimSpace(name);
    if tenant == "" || project == "" || dataset == "" || title == "" || !gatesValid {
      return Err(InvalidPolicy);
    }
    if !datasetFound {
      return Err(DatasetNotFound);
    }
    var version := NextVersion(repo, tenant, project, title);
    var policy := Policy(freshID, tenant, project, dataset, title, version, gates, now);
    assert FamilyOf(policy) == Family(tenant, project, title);
    if Reachable(repo.policies) { FreshWriteSucceedsExactlyWhen(repo.policies, policy); }
    var ok := repo.Create(policy);
    if !ok {
      return Err(InvalidPolicy);
    }
    return Ok(policy);
  }
}
