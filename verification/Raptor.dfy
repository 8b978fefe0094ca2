/** The RAPTOR summary tree: levels of group summaries over the chunks of one document. */
module Raptor {
  import opened Wrappers
  import opened Text
  import opened Collections
  import opened Decimal
  import opened Splitting
  import opened Arith

  datatype Chunk = Chunk(id: string, content: string, level: nat, childIDs: string)

  /** Answers for group `g` of a level: None when the call fails, otherwise the cleaned summary, which may be blank. */
  type Summarizer = (nat, nat, seq<Chunk>) -> Option<string>

  // ---------- groups ----------

  function Groups(nodes: seq<Chunk>, size: nat): seq<seq<Chunk>>
    requires size > 0
  {
    if nodes == [] then []
    else if |nodes| <= size then [nodes]
    else [nodes[..size]] + Groups(nodes[size..], size)
  }

  function IDs(nodes: seq<Chunk>): seq<string> {
    seq(|nodes|, i requires 0 <= i < |nodes| => nodes[i].id)
  }

  lemma {:induction false} GroupsConcat(nodes: seq<Chunk>, size: nat)
    requires size > 0
    ensures Concat(Groups(nodes, size)) == nodes
    decreases |nodes|
  {
    if nodes != [] && |nodes| <= size {
      ConcatPrepend(nodes, []);
      assert [nodes] + [] == [nodes] && nodes + [] == nodes;
    } else if nodes != [] {
      hide Concat;
      GroupsConcat(nodes[size..], size);
      ConcatPrepend(nodes[..size], Groups(nodes[size..], size));
    }
  }

  /** Nonempty, within the branch factor, and full except for the last. */
  predicate WellSized(groups: seq<seq<Chunk>>, size: nat) {
    forall g | 0 <= g < |groups| :: 0 < |groups[g]| <= size && (g < |groups| - 1 ==> |groups[g]| == size)
  }

  lemma {:induction false} GroupsSized(nodes: seq<Chunk>, size: nat)
    requires size > 0
    ensures WellSized(Groups(nodes, size), size)
    decreases |nodes|
  {
    if |nodes| > size {
      var rest := Groups(nodes[size..], size);
      GroupsSized(nodes[size..], size);
      var groups := [nodes[..size]] + rest;
      forall g | 0 <= g < |groups| ensures 0 < |groups[g]| <= size && (g < |groups| - 1 ==> |groups[g]| == size) {
        if g > 0 { assert groups[g] == rest[g - 1]; }
      }
    }
  }

  lemma {:induction false} GroupsCount(nodes: seq<Chunk>, size: nat)
    requires size > 0
    ensures |Groups(nodes, size)| == (|nodes| + size - 1) / size
    decreases |nodes|
  {
    if nodes == [] {
      QuotientOf(size - 1, 0, size);
    } else if |nodes| <= size {
      QuotientOf(|nodes| + size - 1, 1, size);
    } else {
      GroupsCount(nodes[size..], size);
      var q := (|nodes| - 1) / size;
      IntDistribute(size, q, 1);
      QuotientOf(|nodes| + size - 1, q + 1, size);
    }
  }

  lemma QuotientOf(m: nat, q: nat, size: nat)
    requires size > 0 && size * q <= m < size * q + size
    ensures m / size == q
  {
    var p := m / size;
    if p < q { IntMono(p + 1, q, size); }
    if p > q { IntMono(q + 1, p, size); }
  }

  /** Groups are nonempty, no larger than the branch factor, full except the last, and concatenate to their level;
      there are as many as a ceiling division says. */
  lemma GroupsPartition(nodes: seq<Chunk>, size: nat)
    requires size > 0
    ensures Concat(Groups(nodes, size)) == nodes
    ensures WellSized(Groups(nodes, size), size)
    ensures |Groups(nodes, size)| == (|nodes| + size - 1) / size
  {
    hide Groups, Concat, WellSized;
    GroupsConcat(nodes, size);
    GroupsSized(nodes, size);
    GroupsCount(nodes, size);
  }

  lemma GroupsStep(nodes: seq<Chunk>, size: nat, start: nat)
    requires size > 0 && start < |nodes|
    ensures var end := if start + size > |nodes| then |nodes| else start + size;
            Groups(nodes[start..], size) == [nodes[start..end]] + Groups(nodes[end..], size)
  {
    var rest := nodes[start..];
    if start + size <= |nodes| {
      assert rest[..size] == nodes[start..start + size] && rest[size..] == nodes[start + size..];
      assert |rest| == size ==> rest == rest[..size] && rest[size..] == [];
    } else {
      assert rest == nodes[start..|nodes|] && nodes[|nodes|..] == [];
    }
  }

  lemma NoGroups(size: nat)
    requires size > 0
    ensures Groups([], size) == []
  {
  }

  method ChunkGroups(nodes: seq<Chunk>, size: nat) returns (groups: seq<seq<Chunk>>)
    requires size > 0
    ensures groups == Groups(nodes, size)
  {
    hide Groups;
    groups := [];
    var start := 0;
    assert nodes[0..] == nodes;
    while start < |nodes|
      invariant var done := if start > |nodes| then |nodes| else start;
                groups + Groups(nodes[done..], size) == Groups(nodes, size)
      decreases |nodes| - start
    {
      var end := start + size;
      if end > |nodes| {
        end := |nodes|;
      }
      GroupsStep(nodes, size, start);
      assert groups + ([nodes[start..end]] + Groups(nodes[end..], size)) == groups + [nodes[start..end]] + Groups(nodes[end..], size);
      groups := groups + [nodes[start..end]];
      start := start + size;
    }
    assert nodes[|nodes|..] == [];
    NoGroups(size);
  }

  // ---------- node identifiers ----------

  function NodeID(doc: string, level: nat, group: nat): string {
    doc + "_raptor_l" + Digits(level) + "_" + Digits(group)
  }

  /** Within one document, level and position can be read back from a node's ID. */
  lemma NodeIDsDiffer(doc: string, l: nat, g: nat, m: nat, h: nat)
    requires NodeID(doc, l, g) == NodeID(doc, m, h)
    ensures l == m && g == h
  {
    var prefix := doc + "_raptor_l";
    var a, b := "_" + Digits(g), "_" + Digits(h);
    assert NodeID(doc, l, g) == prefix + (IntText(l) + a) && NodeID(doc, m, h) == prefix + (IntText(m) + b);
    assert NodeID(doc, l, g)[|prefix|..] == IntText(l) + a && NodeID(doc, m, h)[|prefix|..] == IntText(m) + b;
    IntTextRoundTrip(l, a);
    IntTextRoundTrip(m, b);
    assert a[1..] == Digits(g) && b[1..] == Digits(h);
    DigitsInjective(g, h);
  }

  // ---------- one level ----------

  function Node(doc: string, level: nat, g: nat, group: seq<Chunk>, content: string): Chunk {
    Chunk(NodeID(doc, level, g), content, level, Join(IDs(group), ','))
  }

  /** The nodes made from the first `k` groups; blank summaries make none. */
  function LevelNodes(doc: string, level: nat, groups: seq<seq<Chunk>>, model: Summarizer, k: nat): seq<Chunk>
    requires k <= |groups|
  {
    if k == 0 then []
    else
      var summary := model(level, k - 1, groups[k - 1]);
      LevelNodes(doc, level, groups, model, k - 1) +
      if summary.Some? && summary.value != "" then [Node(doc, level, k - 1, groups[k - 1], summary.value)] else []
  }

  /** A level has one node for each group whose summary came back with text: that text, the level, and the group's
      IDs. */
  lemma {:induction false} NodesExactly(doc: string, level: nat, groups: seq<seq<Chunk>>, model: Summarizer, k: nat, c: Chunk)
    requires k <= |groups|
    ensures c in LevelNodes(doc, level, groups, model, k) <==>
            exists g | 0 <= g < k :: var summary := model(level, g, groups[g]);
              && summary.Some? && summary.value != ""
              && c == Chunk(NodeID(doc, level, g), summary.value, level, Join(IDs(groups[g]), ','))
  {
    hide NodeID, IDs, Join;
    if k > 0 { NodesExactly(doc, level, groups, model, k - 1, c); }
  }

  /** The groups behind those nodes. */
  function Summarized(level: nat, groups: seq<seq<Chunk>>, model: Summarizer, k: nat): seq<seq<Chunk>>
    requires k <= |groups|
  {
    if k == 0 then []
    else
      var summary := model(level, k - 1, groups[k - 1]);
      Summarized(level, groups, model, k - 1) + if summary.Some? && summary.value != "" then [groups[k - 1]] else []
  }

  predicate Summarizes(level: nat, g: nat, group: seq<Chunk>, model: Summarizer) {
    model(level, g, group).Some? && model(level, g, group).value != ""
  }

  ghost predicate AllSummarized(level: nat, groups: seq<seq<Chunk>>, model: Summarizer, k: nat)
    requires k <= |groups|
  {
    forall g | 0 <= g < k :: Summarizes(level, g, groups[g], model)
  }

  /** A level's child lists are those of its summarized groups. */
  lemma {:induction false} ChildListsOfLevel(doc: string, level: nat, groups: seq<seq<Chunk>>, model: Summarizer, k: nat)
    requires k <= |groups|
    ensures var nodes, behind := LevelNodes(doc, level, groups, model, k), Summarized(level, groups, model, k);
            |nodes| == |behind| <= k && forall i | 0 <= i < |nodes| :: nodes[i].childIDs == Join(IDs(behind[i]), ',')
  {
    if k > 0 { ChildListsOfLevel(doc, level, groups, model, k - 1); }
  }

  /** The child lists of a level as its nodes' metadata holds them. */
  function ChildTexts(nodes: seq<Chunk>): seq<string> {
    seq(|nodes|, i requires 0 <= i < |nodes| => nodes[i].childIDs)
  }

  predicate NoneEmpty(groups: seq<seq<Chunk>>) { forall g | 0 <= g < |groups| :: groups[g] != [] }

  lemma IDsAppend(a: seq<Chunk>, b: seq<Chunk>)
    ensures IDs(a + b) == IDs(a) + IDs(b)
  {
  }

  lemma OneGroupMore(texts: seq<string>, behind: seq<seq<Chunk>>, group: seq<Chunk>)
    requires NoneEmpty(behind) && group != [] && |texts| == |behind|
    requires Join(texts, ',') == Join(IDs(Concat(behind)), ',')
    ensures Join(texts + [Join(IDs(group), ',')], ',') == Join(IDs(Concat(behind + [group])), ',')
  {
    ConcatAppend(behind, group);
    if behind == [] {
      assert texts + [Join(IDs(group), ',')] == [Join(IDs(group), ',')];
      assert Concat(behind) + group == group;
    } else {
      assert behind[0] != [] && Concat(behind) != [];
      IDsAppend(Concat(behind), group);
      hide Concat;
      JoinAppend(texts, [Join(IDs(group), ',')], ',');
      JoinAppend(IDs(Concat(behind)), IDs(group), ',');
    }
  }

  /** Joined, the child lists of a level are the joined IDs of its summarized groups. */
  lemma {:induction false} ChildTextOfLevel(doc: string, level: nat, groups: seq<seq<Chunk>>, model: Summarizer, k: nat)
    requires k <= |groups| && NoneEmpty(groups)
    ensures var nodes, behind := LevelNodes(doc, level, groups, model, k), Summarized(level, groups, model, k);
            |nodes| == |behind| && NoneEmpty(behind) && Join(ChildTexts(nodes), ',') == Join(IDs(Concat(behind)), ',')
  {
    if k > 0 {
      hide Concat, IDs, NodeID, Join;
      ChildTextOfLevel(doc, level, groups, model, k - 1);
      var nodes, behind := LevelNodes(doc, level, groups, model, k - 1), Summarized(level, groups, model, k - 1);
      var summary := model(level, k - 1, groups[k - 1]);
      if summary.Some? && summary.value != "" {
        var node := Node(doc, level, k - 1, groups[k - 1], summary.value);
        assert ChildTexts(nodes + [node]) == ChildTexts(nodes) + [node.childIDs];
        OneGroupMore(ChildTexts(nodes), behind, groups[k - 1]);
      } else {
        assert LevelNodes(doc, level, groups, model, k) == nodes && Summarized(level, groups, model, k) == behind;
      }
    }
  }

  /** Characters of the joined IDs, with a comma behind each. */
  function TextSize(nodes: seq<Chunk>): nat {
    if nodes == [] then 0 else TextSize(nodes[..|nodes| - 1]) + |nodes[|nodes| - 1].id| + 1
  }

  lemma {:induction false} TextSizeAppend(a: seq<Chunk>, b: seq<Chunk>)
    ensures TextSize(a + b) == TextSize(a) + TextSize(b)
  {
    if b == [] {
      assert a + b == a;
    } else {
      assert (a + b)[..|a + b| - 1] == a + b[..|b| - 1];
      TextSizeAppend(a, b[..|b| - 1]);
    }
  }

  lemma {:induction false} JoinedSize(nodes: seq<Chunk>)
    requires nodes != []
    ensures |Join(IDs(nodes), ',')| + 1 == TextSize(nodes)
  {
    var front, last := nodes[..|nodes| - 1], nodes[|nodes| - 1];
    if front == [] {
      assert IDs(nodes) == [last.id];
    } else {
      JoinedSize(front);
      assert IDs(nodes) == IDs(front) + [last.id];
      JoinAppend(IDs(front), [last.id], ',');
    }
  }

  lemma SummarizedStep(level: nat, groups: seq<seq<Chunk>>, model: Summarizer, k: nat)
    requires 0 < k <= |groups|
    ensures var before := Summarized(level, groups, model, k - 1);
            Summarized(level, groups, model, k) ==
            if Summarizes(level, k - 1, groups[k - 1], model) then before + [groups[k - 1]] else before
  {
  }

  lemma {:induction false} SummarizedAll(level: nat, groups: seq<seq<Chunk>>, model: Summarizer, k: nat)
    requires k <= |groups| && AllSummarized(level, groups, model, k)
    ensures Summarized(level, groups, model, k) == groups[..k]
  {
    if k > 0 {
      hide Summarized, Summarizes;
      SummarizedAll(level, groups, model, k - 1);
      SummarizedStep(level, groups, model, k);
      assert Summarizes(level, k - 1, groups[k - 1], model);
      assert groups[..k] == groups[..k - 1] + [groups[k - 1]];
    }
  }

  function Covered(level: nat, groups: seq<seq<Chunk>>, model: Summarizer, k: nat): nat
    requires k <= |groups|
  {
    TextSize(Concat(Summarized(level, groups, model, k)))
  }

  lemma CoveredStep(level: nat, groups: seq<seq<Chunk>>, model: Summarizer, k: nat)
    requires 0 < k <= |groups|
    ensures Covered(level, groups, model, k) ==
            Covered(level, groups, model, k - 1) + if Summarizes(level, k - 1, groups[k - 1], model) then TextSize(groups[k - 1]) else 0
    ensures TextSize(Concat(groups[..k])) == TextSize(Concat(groups[..k - 1])) + TextSize(groups[k - 1])
  {
    hide Concat, Summarized, Summarizes, TextSize;
    var before := Summarized(level, groups, model, k - 1);
    SummarizedStep(level, groups, model, k);
    assert groups[..k] == groups[..k - 1] + [groups[k - 1]];
    ConcatAppend(groups[..k - 1], groups[k - 1]);
    ConcatAppend(before, groups[k - 1]);
    TextSizeAppend(Concat(groups[..k - 1]), groups[k - 1]);
    TextSizeAppend(Concat(before), groups[k - 1]);
  }

  lemma {:induction false} SummarizedFewer(level: nat, groups: seq<seq<Chunk>>, model: Summarizer, k: nat)
    requires k <= |groups| && NoneEmpty(groups)
    ensures Covered(level, groups, model, k) <= TextSize(Concat(groups[..k]))
    ensures !AllSummarized(level, groups, model, k) ==> Covered(level, groups, model, k) < TextSize(Concat(groups[..k]))
  {
    if k > 0 {
      hide Concat, Summarized, Summarizes, Covered;
      SummarizedFewer(level, groups, model, k - 1);
      CoveredStep(level, groups, model, k);
    }
  }

  /** A text that covers less of the level is a different text. */
  lemma ShorterText(nodes: seq<Chunk>, part: seq<Chunk>)
    requires |nodes| > 1 && TextSize(part) < TextSize(nodes)
    ensures Join(IDs(part), ',') != Join(IDs(nodes), ',')
  {
    JoinedSize(nodes);
    if part == [] {
      assert TextSize(nodes) >= 2;
    } else {
      JoinedSize(part);
    }
  }

  /** The child lists of a level, joined, are the joined IDs of the level below if and only if no summary of the level
      failed or came back blank. */
  lemma LevelCoversExactlyWhen(doc: string, nodes: seq<Chunk>, size: nat, level: nat, model: Summarizer)
    requires size > 0 && |nodes| > 1
    ensures var groups := Groups(nodes, size);
            Join(ChildTexts(LevelNodes(doc, level, groups, model, |groups|)), ',') == Join(IDs(nodes), ',') <==>
            AllSummarized(level, groups, model, |groups|)
  {
    hide Concat, Groups, AllSummarized, ChildTexts, LevelNodes, Summarized, IDs, Join, TextSize;
    var groups := Groups(nodes, size);
    GroupsPartition(nodes, size);
    SummarizedFewer(level, groups, model, |groups|);
    ChildTextOfLevel(doc, level, groups, model, |groups|);
    assert groups[..|groups|] == groups;
    if AllSummarized(level, groups, model, |groups|) {
      SummarizedAll(level, groups, model, |groups|);
    } else {
      ShorterText(nodes, Concat(Summarized(level, groups, model, |groups|)));
    }
  }

  /** From comma-free IDs the joined text reads back as the list of IDs. */
  lemma ChildIDsReadBack(nodes: seq<Chunk>)
    requires nodes != [] && forall i | 0 <= i < |nodes| :: ',' !in nodes[i].id
    ensures Split(Join(IDs(nodes), ','), ',') == IDs(nodes)
  {
    SplitJoin(IDs(nodes), ',');
  }

  // ---------- the whole tree ----------

  /** Number of groups summarized before the first failing call of a level. */
  function Reached(level: nat, groups: seq<seq<Chunk>>, model: Summarizer): (k: nat)
    ensures k <= |groups|
    ensures forall g | 0 <= g < k :: model(level, g, groups[g]).Some?
    ensures k < |groups| ==> model(level, k, groups[k]) == None
  {
    ReachedFrom(level, groups, model, 0)
  }

  function ReachedFrom(level: nat, groups: seq<seq<Chunk>>, model: Summarizer, k: nat): (r: nat)
    requires k <= |groups| && forall g | 0 <= g < k :: model(level, g, groups[g]).Some?
    ensures k <= r <= |groups|
    ensures forall g | 0 <= g < r :: model(level, g, groups[g]).Some?
    ensures r < |groups| ==> model(level, r, groups[r]) == None
    decreases |groups| - k
  {
    if k == |groups| || model(level, k, groups[k]) == None then k else ReachedFrom(level, groups, model, k + 1)
  }

  datatype Tree = Tree(summaries: seq<Chunk>, complete: bool)

  /** All summaries from `level` up, over the nodes of the level below. */
  function BuildFrom(doc: string, nodes: seq<Chunk>, size: nat, level: nat, maxLevels: nat, model: Summarizer): Tree
    requires size > 0
    decreases maxLevels - level
  {
    if level > maxLevels || |nodes| <= 1 then Tree([], true)
    else
      var groups := Groups(nodes, size);
      var k := Reached(level, groups, model);
      var next := LevelNodes(doc, level, groups, model, k);
      if k < |groups| then Tree(next, false)
      else
        var above := BuildFrom(doc, next, size, level + 1, maxLevels, model);
        Tree(next + above.summaries, above.complete)
  }

  ghost predicate HasID(c: Chunk, doc: string, level: nat, k: nat) {
    exists g: nat :: g < k && c.id == NodeID(doc, level, g)
  }

  ghost predicate AllHaveIDs(nodes: seq<Chunk>, doc: string, level: nat, k: nat) {
    forall i | 0 <= i < |nodes| :: HasID(nodes[i], doc, level, k)
  }

  ghost predicate DistinctIDs(nodes: seq<Chunk>) {
    forall i, j | 0 <= i < j < |nodes| :: nodes[i].id != nodes[j].id
  }

  lemma OneMoreID(nodes: seq<Chunk>, c: Chunk, doc: string, level: nat, k: nat)
    requires AllHaveIDs(nodes, doc, level, k) && DistinctIDs(nodes)
    ensures AllHaveIDs(nodes, doc, level, k + 1)
    ensures c.id == NodeID(doc, level, k) ==> AllHaveIDs(nodes + [c], doc, level, k + 1) && DistinctIDs(nodes + [c])
  {
    hide NodeID;
    forall i | 0 <= i < |nodes| ensures HasID(nodes[i], doc, level, k + 1) && nodes[i].id != NodeID(doc, level, k) {
      assert HasID(nodes[i], doc, level, k);
      var g: nat :| g < k && nodes[i].id == NodeID(doc, level, g);
      if nodes[i].id == NodeID(doc, level, k) { NodeIDsDiffer(doc, level, g, level, k); }
    }
    assert c.id == NodeID(doc, level, k) ==> HasID(c, doc, level, k + 1);
  }

  lemma {:induction false} LevelIDs(doc: string, level: nat, groups: seq<seq<Chunk>>, model: Summarizer, k: nat)
    requires k <= |groups|
    ensures AllHaveIDs(LevelNodes(doc, level, groups, model, k), doc, level, k)
    ensures DistinctIDs(LevelNodes(doc, level, groups, model, k))
  {
    if k > 0 {
      hide AllHaveIDs, DistinctIDs, NodeID;
      LevelIDs(doc, level, groups, model, k - 1);
      var before := LevelNodes(doc, level, groups, model, k - 1);
      var summary := model(level, k - 1, groups[k - 1]);
      if summary.Some? && summary.value != "" {
        OneMoreID(before, Node(doc, level, k - 1, groups[k - 1], summary.value), doc, level, k - 1);
      } else {
        OneMoreID(before, Chunk("", "", 0, ""), doc, level, k - 1);
        assert LevelNodes(doc, level, groups, model, k) == before;
      }
    }
  }

  ghost predicate FromLevel(c: Chunk, doc: string, level: nat) {
    exists l: nat, g: nat :: l >= level && c.id == NodeID(doc, l, g)
  }

  ghost predicate AllFromLevel(nodes: seq<Chunk>, doc: string, level: nat) {
    forall i | 0 <= i < |nodes| :: FromLevel(nodes[i], doc, level)
  }

  /** Node IDs of a tree are pairwise distinct, whatever fails or comes back blank. */
  lemma {:induction false} NodeIDsAreDistinct(doc: string, nodes: seq<Chunk>, size: nat, level: nat, maxLevels: nat, model: Summarizer)
    requires size > 0
    ensures var s := BuildFrom(doc, nodes, size, level, maxLevels, model).summaries; AllFromLevel(s, doc, level) && DistinctIDs(s)
    decreases maxLevels - level
  {
    if level <= maxLevels && |nodes| > 1 {
      hide AllHaveIDs, NodeID, LevelNodes, Groups;
      var groups := Groups(nodes, size);
      var k := Reached(level, groups, model);
      var next := LevelNodes(doc, level, groups, model, k);
      LevelIDs(doc, level, groups, model, k);
      if k == |groups| {
        hide DistinctIDs, AllFromLevel;
        NodeIDsAreDistinct(doc, next, size, level + 1, maxLevels, model);
        JoinLevels(doc, level, k, next, BuildFrom(doc, next, size, level + 1, maxLevels, model).summaries);
      } else {
        JoinLevels(doc, level, k, next, []);
        assert next + [] == next;
      }
    }
  }

  lemma JoinLevels(doc: string, level: nat, k: nat, next: seq<Chunk>, above: seq<Chunk>)
    requires AllHaveIDs(next, doc, level, k) && DistinctIDs(next)
    requires AllFromLevel(above, doc, level + 1) && DistinctIDs(above)
    ensures AllFromLevel(next + above, doc, level) && DistinctIDs(next + above)
  {
    hide NodeID;
    var all := next + above;
    forall i, j | 0 <= i < |next| && 0 <= j < |above| ensures next[i].id != above[j].id {
      assert HasID(next[i], doc, level, k) && FromLevel(above[j], doc, level + 1);
      var g: nat :| g < k && next[i].id == NodeID(doc, level, g);
      var l: nat, h: nat :| l >= level + 1 && above[j].id == NodeID(doc, l, h);
      if next[i].id == above[j].id { NodeIDsDiffer(doc, level, g, l, h); }
    }
    forall i | 0 <= i < |all| ensures FromLevel(all[i], doc, level) {
      if i < |next| {
        assert HasID(next[i], doc, level, k);
        var g: nat :| g < k && next[i].id == NodeID(doc, level, g);
      } else {
        assert all[i] == above[i - |next|] && FromLevel(above[i - |next|], doc, level + 1);
      }
    }
    forall i, j | 0 <= i < j < |all| ensures all[i].id != all[j].id {
      if i < |next| <= j {
        assert all[i] == next[i] && all[j] == above[j - |next|];
      } else if |next| <= i {
        assert all[i] == above[i - |next|] && all[j] == above[j - |next|];
      }
    }
  }

  ghost predicate AlwaysSummarizes(model: Summarizer) {
    forall l, g, group :: Summarizes(l, g, group, model)
  }

  /** The levels of a tree that is never cut short. */
  function Levels(doc: string, nodes: seq<Chunk>, size: nat, level: nat, maxLevels: nat, model: Summarizer): seq<seq<Chunk>>
    requires size > 0
    decreases maxLevels - level
  {
    if level > maxLevels || |nodes| <= 1 then []
    else
      var groups := Groups(nodes, size);
      var next := LevelNodes(doc, level, groups, model, |groups|);
      [next] + Levels(doc, next, size, level + 1, maxLevels, model)
  }

  lemma {:induction false} LevelSize(doc: string, level: nat, groups: seq<seq<Chunk>>, model: Summarizer, k: nat)
    requires AlwaysSummarizes(model) && k <= |groups|
    ensures |LevelNodes(doc, level, groups, model, k)| == k
  {
    if k > 0 {
      LevelSize(doc, level, groups, model, k - 1);
      assert Summarizes(level, k - 1, groups[k - 1], model);
    }
  }

  /** One level up, the number of nodes is the ceiling of the division by the branch factor, which is strictly
      smaller, and every node lists one group of the level below. */
  lemma LevelShrinks(doc: string, nodes: seq<Chunk>, size: nat, level: nat, model: Summarizer)
    requires size >= 2 && |nodes| > 1 && AlwaysSummarizes(model)
    ensures var groups := Groups(nodes, size); var next := LevelNodes(doc, level, groups, model, |groups|);
            && |next| == |groups| == (|nodes| + size - 1) / size
            && 1 <= |next| < |nodes|
            && Concat(groups) == nodes
            && forall i | 0 <= i < |next| :: next[i].childIDs == Join(IDs(groups[i]), ',')
  {
    hide Groups, Concat, LevelNodes, IDs, Join;
    var groups := Groups(nodes, size);
    GroupsPartition(nodes, size);
    LevelSize(doc, level, groups, model, |groups|);
    SummarizedAll(level, groups, model, |groups|);
    ChildListsOfLevel(doc, level, groups, model, |groups|);
    assert groups[..|groups|] == groups;
    CeilingShrinks(|nodes|, size);
  }

  lemma CeilingShrinks(n: nat, size: nat)
    requires size >= 2 && n > 1
    ensures 1 <= (n + size - 1) / size < n
  {
    var m := n + size - 1;
    var q := m / size;
    assert m < size * q + size && size * q <= m;
    assert q > 0;
    if q >= n {
      IntMono(n, q, size);
      IntMono(2, size, n - 1);
      IntDistribute(size, n - 1, 1);
    }
  }

  /** The builder returns the levels one after the other and is complete. */
  lemma {:induction false} BuildIsItsLevels(doc: string, nodes: seq<Chunk>, size: nat, level: nat, maxLevels: nat, model: Summarizer)
    requires size > 0 && AlwaysSummarizes(model)
    ensures BuildFrom(doc, nodes, size, level, maxLevels, model) ==
            Tree(Concat(Levels(doc, nodes, size, level, maxLevels, model)), true)
    decreases maxLevels - level
  {
    if level <= maxLevels && |nodes| > 1 {
      var groups := Groups(nodes, size);
      assert forall g | 0 <= g < |groups| :: Summarizes(level, g, groups[g], model);
      assert Reached(level, groups, model) == |groups|;
      var next := LevelNodes(doc, level, groups, model, |groups|);
      BuildIsItsLevels(doc, next, size, level + 1, maxLevels, model);
      ConcatPrepend(next, Levels(doc, next, size, level + 1, maxLevels, model));
    }
  }

  function IntPow(b: nat, n: nat): nat { if n == 0 then 1 else b * IntPow(b, n - 1) }

  lemma {:induction false} IntPowPositive(b: nat, n: nat)
    requires b > 0
    ensures IntPow(b, n) >= 1
  {
    if n > 0 {
      IntPowPositive(b, n - 1);
      IntMono(1, IntPow(b, n - 1), b);
    }
  }

  lemma CeilingAtMost(n: nat, size: nat, p: nat)
    requires size > 0
    ensures (n + size - 1) / size <= p <==> n <= size * p
  {
    var m := n + size - 1;
    var q := m / size;
    assert size * q <= m < size * q + size;
    if q <= p {
      IntMono(q, p, size);
    } else {
      IntMono(p + 1, q, size);
      IntDistribute(size, p, 1);
    }
  }

  predicate EndsInRoot(levels: seq<seq<Chunk>>) { levels != [] && |levels[|levels| - 1]| == 1 }

  lemma LevelsUnfold(doc: string, nodes: seq<Chunk>, size: nat, level: nat, maxLevels: nat, model: Summarizer)
    requires size > 0 && |nodes| > 1 && level <= maxLevels
    ensures var groups := Groups(nodes, size);
            var next := LevelNodes(doc, level, groups, model, |groups|);
            var above := Levels(doc, next, size, level + 1, maxLevels, model);
            && Levels(doc, nodes, size, level, maxLevels, model) == [next] + above
            && (level == maxLevels || |next| <= 1 ==> above == [])
  {
    hide Groups, LevelNodes;
  }

  /** The tree ends in a single root if and only if the level below has at most the branch factor to the power of the
      levels left. */
  lemma {:induction false} OneRootExactlyWhen(doc: string, nodes: seq<Chunk>, size: nat, level: nat, maxLevels: nat, model: Summarizer)
    requires size >= 2 && AlwaysSummarizes(model) && |nodes| > 1 && level <= maxLevels
    ensures EndsInRoot(Levels(doc, nodes, size, level, maxLevels, model)) <==> |nodes| <= IntPow(size, maxLevels - level + 1)
    decreases maxLevels - level
  {
    var groups := Groups(nodes, size);
    var next := LevelNodes(doc, level, groups, model, |groups|);
    LevelCount(doc, nodes, size, level, model);
    LevelsUnfold(doc, nodes, size, level, maxLevels, model);
    hide Groups, LevelNodes, Levels, AlwaysSummarizes;
    var p := IntPow(size, maxLevels - level);
    CeilingAtMost(|nodes|, size, p);
    if level < maxLevels && |next| > 1 {
      OneRootExactlyWhen(doc, next, size, level + 1, maxLevels, model);
      var above := Levels(doc, next, size, level + 1, maxLevels, model);
      assert IntPow(size, maxLevels - level + 1) == size * p;
      LastOfBoth(next, above);
    } else {
      IntPowPositive(size, maxLevels - level);
    }
  }

  lemma LevelCount(doc: string, nodes: seq<Chunk>, size: nat, level: nat, model: Summarizer)
    requires size >= 2 && |nodes| > 1 && AlwaysSummarizes(model)
    ensures var groups := Groups(nodes, size);
            1 <= |LevelNodes(doc, level, groups, model, |groups|)| == (|nodes| + size - 1) / size
  {
    hide Groups, LevelNodes, AlwaysSummarizes;
    LevelShrinks(doc, nodes, size, level, model);
  }

  lemma LastOfBoth(next: seq<Chunk>, above: seq<seq<Chunk>>)
    requires |next| > 1
    ensures EndsInRoot([next] + above) <==> EndsInRoot(above)
  {
  }

  // ---------- failures ----------

  /** `better` answers what `model` answers, and perhaps more. */
  ghost predicate Extends(better: Summarizer, model: Summarizer) {
    forall l, g, group | model(l, g, group).Some? :: better(l, g, group) == model(l, g, group)
  }

  lemma {:induction false} SameNodes(doc: string, level: nat, groups: seq<seq<Chunk>>, model: Summarizer, better: Summarizer, k: nat)
    requires Extends(better, model) && k <= Reached(level, groups, model)
    ensures LevelNodes(doc, level, groups, model, k) == LevelNodes(doc, level, groups, better, k)
  {
    if k > 0 {
      SameNodes(doc, level, groups, model, better, k - 1);
      assert model(level, k - 1, groups[k - 1]).Some?;
    }
  }

  lemma ReachesAsFar(level: nat, groups: seq<seq<Chunk>>, model: Summarizer, better: Summarizer)
    requires Extends(better, model)
    ensures Reached(level, groups, model) <= Reached(level, groups, better)
  {
    var m := Reached(level, groups, better);
    if m < |groups| { assert model(level, m, groups[m]) == None; }
  }

  lemma {:induction false} NodesGrow(doc: string, level: nat, groups: seq<seq<Chunk>>, model: Summarizer, k: nat, m: nat)
    requires k <= m <= |groups|
    ensures LevelNodes(doc, level, groups, model, k) <= LevelNodes(doc, level, groups, model, m)
    decreases m
  {
    if k < m { NodesGrow(doc, level, groups, model, k, m - 1); }
  }

  /** A failing call only cuts the tree short: what was built is the beginning of what would have been built had the
      call, and any later ones, been answered; and nothing is missing from a complete tree. */
  lemma {:induction false} FailureCutsShort(doc: string, nodes: seq<Chunk>, size: nat, level: nat, maxLevels: nat,
                                            model: Summarizer, better: Summarizer)
    requires size > 0 && Extends(better, model)
    ensures var tree, fuller := BuildFrom(doc, nodes, size, level, maxLevels, model), BuildFrom(doc, nodes, size, level, maxLevels, better);
            tree.summaries <= fuller.summaries && (tree.complete ==> fuller == tree)
    decreases maxLevels - level
  {
    hide LevelNodes, Groups, Reached, BuildFrom, Extends;
    if level > maxLevels || |nodes| <= 1 {
      BuildStops(doc, nodes, size, level, maxLevels, model);
      BuildStops(doc, nodes, size, level, maxLevels, better);
    } else {
      BuildUnfolds(doc, nodes, size, level, maxLevels, model);
      BuildUnfolds(doc, nodes, size, level, maxLevels, better);
      var groups := Groups(nodes, size);
      var k, m := Reached(level, groups, model), Reached(level, groups, better);
      ReachesAsFar(level, groups, model, better);
      SameNodes(doc, level, groups, model, better, k);
      NodesGrow(doc, level, groups, better, k, m);
      var next := LevelNodes(doc, level, groups, model, k);
      if k == |groups| { FailureCutsShort(doc, next, size, level + 1, maxLevels, model, better); }
    }
  }

  // ---------- the program ----------

  function DefaultInt(value: int, fallback: nat): nat {
    if value > 0 then value as nat else fallback
  }

  function BranchFactor(value: int): nat {
    if DefaultInt(value, 4) < 2 then 2 else DefaultInt(value, 4)
  }

  /** Summaries of one level; `ok` is false when a call failed. */
  method BuildLevel(doc: string, level: nat, groups: seq<seq<Chunk>>, model: Summarizer)
    returns (next: seq<Chunk>, ok: bool)
    ensures ok <==> Reached(level, groups, model) == |groups|
    ensures next == LevelNodes(doc, level, groups, model, Reached(level, groups, model))
  {
    next := [];
    for g := 0 to |groups|
      invariant next == LevelNodes(doc, level, groups, model, g)
      invariant forall h | 0 <= h < g :: model(level, h, groups[h]).Some?
    {
      var summary := model(level, g, groups[g]);
      if summary == None {
        assert Reached(level, groups, model) == g;
        return next, false;
      }
      if summary.value != "" {
        next := next + [Node(doc, level, g, groups[g], summary.value)];
      }
    }
    return next, true;
  }

  lemma BuildUnfolds(doc: string, nodes: seq<Chunk>, size: nat, level: nat, maxLevels: nat, model: Summarizer)
    requires size > 0 && level <= maxLevels && |nodes| > 1
    ensures var groups := Groups(nodes, size);
            var k := Reached(level, groups, model);
            var next := LevelNodes(doc, level, groups, model, k);
            var above := BuildFrom(doc, next, size, level + 1, maxLevels, model);
            && (k < |groups| ==> BuildFrom(doc, nodes, size, level, maxLevels, model) == Tree(next, false))
            && (k == |groups| ==> BuildFrom(doc, nodes, size, level, maxLevels, model) == Tree(next + above.summaries, above.complete))
  {
    hide Groups, Reached, LevelNodes;
  }

  lemma BuildStops(doc: string, nodes: seq<Chunk>, size: nat, level: nat, maxLevels: nat, model: Summarizer)
    requires size > 0 && (level > maxLevels || |nodes| <= 1)
    ensures BuildFrom(doc, nodes, size, level, maxLevels, model) == Tree([], true)
  {
  }

  method Build(doc: string, chunks: seq<Chunk>, branchFactor: int, maxLevels: int, model: Summarizer) returns (tree: Tree)
    ensures tree == BuildFrom(doc, chunks, if branchFactor <= 0 then 4 else if branchFactor == 1 then 2 else branchFactor,
                              1, if maxLevels <= 0 then 2 else maxLevels, model)
  {
    hide Groups, Reached, LevelNodes, BuildFrom;
    var size, max := BranchFactor(branchFactor), DefaultInt(maxLevels, 2);
    var summaries: seq<Chunk> := [];
    var levelNodes := chunks;
    var level := 1;
    while level <= max && |levelNodes| > 1
      invariant 1 <= level <= max + 1
      invariant var rest := BuildFrom(doc, levelNodes, size, level, max, model);
                BuildFrom(doc, chunks, size, 1, max, model) == Tree(summaries + rest.summaries, rest.complete)
      decreases max + 1 - level
    {
      BuildUnfolds(doc, levelNodes, size, level, max, model);
      var groups := ChunkGroups(levelNodes, size);
      var next, ok := BuildLevel(doc, level, groups, model);
      summaries := summaries + next;
      if !ok {
        return Tree(summaries, false);
      }
      levelNodes := next;
      level := level + 1;
    }
    BuildStops(doc, levelNodes, size, level, max, model);
    tree := Tree(summaries, true);
  }
}
