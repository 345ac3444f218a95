/** Entity deduplication: three merge passes over one union-find, then a rewrite of nodes and edges. */
module Dedup {
  import opened Common
  import opened Closure
  import opened UnionFind
  import opened Entities

  datatype Edge = Edge(source: Option<Option<string>>, target: Option<Option<string>>,
                       from_: Option<string>, to: Option<string>, attrs: map<string, string>)

  datatype Failure = CrossRepository

  /** The language model: whether it can be used at all, and the pair numbers it confirms per batch. */
  datatype Judge = Judge(usable: bool, confirmed: nat -> seq<int>)

  const BATCH_SIZE := 30

  // ---- the nodes that are compared ----

  function Ids(nodes: seq<Node>): set<string> {
    set n | n in nodes :: n.id
  }

  /** The first node of each nonempty id, in order. */
  function Unique(nodes: seq<Node>): (kept: seq<Node>) {
    if nodes == [] then []
    else
      var front, last := Unique(nodes[..|nodes| - 1]), nodes[|nodes| - 1];
      if last.id != "" && last.id !in Ids(front) then front + [last] else front
  }

  function Norm(sim: Similarity, n: Node): string {
    sim.norm(n.Label())
  }

  /** One node per normalised label, code excluded, low-entropy labels dropped. */
  function Candidates(sim: Similarity, nodes: seq<Node>): (kept: seq<Node>) {
    Filter((n: Node) => sim.entropy(n.text.GetOr("")) >= ENTROPY_THRESHOLD, FirstOfLabel(sim, nodes))
  }

  function FirstOfLabel(sim: Similarity, nodes: seq<Node>): (kept: seq<Node>) {
    if nodes == [] then []
    else
      var front, last := FirstOfLabel(sim, nodes[..|nodes| - 1]), nodes[|nodes| - 1];
      if !last.IsCode() && Norm(sim, last) != "" && !LabelSeen(sim, front, Norm(sim, last))
      then front + [last] else front
  }

  predicate LabelSeen(sim: Similarity, nodes: seq<Node>, key: string) {
    exists n :: n in nodes && Norm(sim, n) == key
  }

  // ---- what the passes are meant to link ----

  ghost function ExactLinks(sim: Similarity, nodes: seq<Node>): Links<string> {
    set a, b | a in nodes && b in nodes && ExactPair(sim, a, b) :: (a.id, b.id)
  }

  ghost function FuzzyLinks(sim: Similarity, community: map<string, int>, cands: seq<Node>): Links<string> {
    set a, b | a in cands && b in cands && a.id != b.id && b.id in sim.neighbours(a.id)
               && FuzzyPair(sim, community, a, b) :: (a.id, b.id)
  }

  /** The pairs put to the model, in order: later partners of `cands[i]` from position `j` on. */
  ghost function AmbiguousRow(sim: Similarity, community: map<string, int>, cands: seq<Node>,
                              merged: Links<string>, i: nat, j: nat): seq<(Node, Node)>
    requires i < |cands|
    decreases j
  {
    if j <= i + 1 || j > |cands| then []
    else
      AmbiguousRow(sim, community, cands, merged, i, j - 1) +
      if !Connected(merged, cands[i].id, cands[j - 1].id) && AmbiguousPair(sim, community, cands[i], cands[j - 1])
      then [(cands[i], cands[j - 1])] else []
  }

  ghost function Ambiguous(sim: Similarity, community: map<string, int>, cands: seq<Node>,
                           merged: Links<string>, i: nat): seq<(Node, Node)>
    requires i <= |cands|
  {
    if i == 0 then []
    else Ambiguous(sim, community, cands, merged, i - 1) +
         AmbiguousRow(sim, community, cands, merged, i - 1, |cands|)
  }

  ghost predicate Confirms(judge: Judge, p: nat) {
    (p % 30) in judge.confirmed(p / 30)
  }

  ghost function JudgedLinks(judge: Judge, asked: seq<(Node, Node)>): Links<string> {
    if judge.usable
    then set p: nat | p < |asked| && Confirms(judge, p) :: (asked[p].0.id, asked[p].1.id)
    else {}
  }

  ghost function ScoredLinks(sim: Similarity, community: map<string, int>, nodes: seq<Node>): Links<string> {
    ExactLinks(sim, nodes) + FuzzyLinks(sim, community, Candidates(sim, nodes))
  }

  ghost function AllLinks(sim: Similarity, community: map<string, int>, judge: Judge, nodes: seq<Node>): Links<string> {
    var cands, scored := Candidates(sim, nodes), ScoredLinks(sim, community, nodes);
    scored + JudgedLinks(judge, Ambiguous(sim, community, cands, scored, |cands|))
  }

  // ---- the resulting renaming ----

  /** The nodes of one closure class, in order. */
  ghost function Class(nodes: seq<Node>, links: Links<string>, id: string): (c: seq<Node>)
  {
    if nodes == [] then []
    else
      var front, last := Class(nodes[..|nodes| - 1], links, id), nodes[|nodes| - 1];
      if Connected(links, id, last.id) then front + [last] else front
  }

  /** The survivor that stands for the node named `id`. */
  ghost function Survivor(nodes: seq<Node>, links: Links<string>, id: string): string
    requires id in Ids(nodes)
  {
    ClassMembers(nodes, links, id);
    PickWinner(Class(nodes, links, id)).id
  }

  ghost function Renaming(nodes: seq<Node>, links: Links<string>): map<string, string> {
    map id | id in Ids(nodes) && Survivor(nodes, links, id) != id :: Survivor(nodes, links, id)
  }

  lemma {:induction false} ClassMembers(nodes: seq<Node>, links: Links<string>, id: string)
    ensures forall n :: n in Class(nodes, links, id) <==> n in nodes && Connected(links, id, n.id)
    ensures id in Ids(nodes) ==> Class(nodes, links, id) != []
  {
    if nodes != [] {
      var front, last := nodes[..|nodes| - 1], nodes[|nodes| - 1];
      ClassMembers(front, links, id);
      assert nodes == front + [last];
    }
    if id in Ids(nodes) {
      Reflexive(links, id);
      var n :| n in nodes && n.id == id;
      assert n in Class(nodes, links, id);
    }
  }

  // ---- the passes ----

  /** The forest only links non-code ids, and only those that `allowed` connects. */
  ghost predicate Sound(uf: Forest<string>, nodes: seq<Node>, allowed: Links<string>)
    reads uf
  {
    uf.Valid() && Lawful(uf.links, NonCodeIds(nodes), allowed)
  }

  function NonCodeIds(nodes: seq<Node>): set<string> {
    set n | n in nodes && !n.IsCode() :: n.id
  }

  /** Union a pair through its winner, as every pass does. */
  method UnionPair(uf: Forest<string>, a: Node, b: Node, ghost nodes: seq<Node>, ghost allowed: Links<string>)
    requires Sound(uf, nodes, allowed)
    requires a.id in NonCodeIds(nodes) && b.id in NonCodeIds(nodes)
    requires Connected(allowed, a.id, b.id)
    modifies uf
    ensures Sound(uf, nodes, allowed) && old(uf.links) <= uf.links
    ensures Connected(uf.links, a.id, b.id)
  {
    var winner := PickWinner([a, b]);
    uf.Union(winner.id, a.id);
    uf.Union(winner.id, b.id);
    PairLinked(uf.links, allowed, winner.id, a.id, b.id);
    LawfulPlus(old(uf.links), NonCodeIds(nodes), allowed, winner.id, a.id);
    LawfulPlus(old(uf.links) + {(winner.id, a.id)}, NonCodeIds(nodes), allowed, winner.id, b.id);
  }

  function InGroup(nodes: seq<Node>, keep: Node -> bool, key: Node -> string, k: string): (group: seq<Node>)
    ensures forall n :: n in group <==> n in nodes && keep(n) && key(n) == k
  {
    if nodes == [] then []
    else
      var front, last := InGroup(nodes[..|nodes| - 1], keep, key, k), nodes[|nodes| - 1];
      if keep(last) && key(last) == k then front + [last] else front
  }

  /** Group the nodes that `keep` selects by `key`; `order` lists the keys as they appear. */
  method GroupBy(nodes: seq<Node>, keep: Node -> bool, key: Node -> string)
    returns (order: seq<string>, groups: map<string, seq<Node>>)
    ensures forall k :: k in order <==> k in groups
    ensures forall n :: n in nodes && keep(n) ==> key(n) in groups
    ensures forall k :: k in groups ==> groups[k] == InGroup(nodes, keep, key, k)
  {
    order, groups := [], map[];
    for i := 0 to |nodes|
      invariant forall k :: k in order <==> k in groups
      invariant forall n :: n in nodes[..i] && keep(n) ==> key(n) in groups
      invariant forall k :: k in groups ==> groups[k] == InGroup(nodes[..i], keep, key, k)
    {
      var n := nodes[i];
      assert nodes[..i + 1][..i] == nodes[..i];
      if keep(n) {
        if key(n) !in groups {
          NoneSelected(nodes[..i], keep, key, key(n));
          order := order + [key(n)];
          groups := groups[key(n) := []];
        }
        groups := groups[key(n) := groups[key(n)] + [n]];
      }
    }
    assert nodes[..|nodes|] == nodes;
  }

  lemma NoneSelected(nodes: seq<Node>, keep: Node -> bool, key: Node -> string, k: string)
    requires forall n :: n in nodes && keep(n) ==> key(n) != k
    ensures InGroup(nodes, keep, key, k) == []
  {
  }

  // ---- pass 1: exact labels within one file ----

  ghost function ExactInFile(sim: Similarity, group: seq<Node>, file: string): Links<string> {
    set a, b | a in group && b in group && ExactPair(sim, a, b) && a.file == file :: (a.id, b.id)
  }

  method MergeFileGroup(uf: Forest<string>, group: seq<Node>, ghost nodes: seq<Node>, ghost allowed: Links<string>)
    requires Sound(uf, nodes, allowed) && group != []
    requires forall a :: a in group ==> a.id in NonCodeIds(nodes)
    requires forall a, b :: a in group && b in group ==> (a.id, b.id) in allowed
    modifies uf
    ensures Sound(uf, nodes, allowed) && old(uf.links) <= uf.links
    ensures forall a, b :: a in group && b in group ==> Connected(uf.links, a.id, b.id)
  {
    var winner := PickWinner(group);
    for i := 0 to |group|
      invariant Sound(uf, nodes, allowed) && old(uf.links) <= uf.links
      invariant Star(winner, group[..i]) <= uf.links
    {
      StarStep(winner, group, i);
      OneLink(allowed, winner.id, group[i].id);
      LawfulPlus(uf.links, NonCodeIds(nodes), allowed, winner.id, group[i].id);
      uf.Union(winner.id, group[i].id);
    }
    assert group[..|group|] == group;
    StarDone(winner, group, uf.links);
  }

  ghost function Star(winner: Node, group: seq<Node>): Links<string> {
    set a | a in group :: (winner.id, a.id)
  }

  lemma StarStep(winner: Node, group: seq<Node>, i: nat)
    requires i < |group|
    ensures Star(winner, group[..i + 1]) == Star(winner, group[..i]) + {(winner.id, group[i].id)}
  {
    assert group[..i + 1] == group[..i] + [group[i]];
  }

  lemma StarDone(winner: Node, group: seq<Node>, links: Links<string>)
    requires Star(winner, group) <= links
    ensures forall a, b :: a in group && b in group ==> Connected(links, a.id, b.id)
  {
    forall a, b | a in group && b in group
      ensures Connected(links, a.id, b.id)
    {
      OneLink(links, winner.id, a.id);
      OneLink(links, winner.id, b.id);
      Transitive(links, a.id, winner.id, b.id);
    }
  }

  /** The nodes that pass 1 groups under a label. */
  predicate Keyed(sim: Similarity, n: Node) {
    !n.IsCode() && Norm(sim, n) != ""
  }

  lemma FileGroupDone(sim: Similarity, group: seq<Node>, members: seq<Node>, file: string, links: Links<string>)
    requires forall n :: n in members <==> n in group && n.file == file
    requires file == "" || |members| <= 1
             || forall a, b :: a in members && b in members ==> Connected(links, a.id, b.id)
    ensures Within(ExactInFile(sim, group, file), links)
  {
    forall link | link in ExactInFile(sim, group, file)
      ensures Connected(links, link.0, link.1)
    {
      var a, b :| a in members && b in members && file != "" && link == (a.id, b.id);
      if |members| == 1 {
        assert a == members[0] == b;
        Reflexive(links, a.id);
      }
    }
  }

  ghost predicate FilesDone(sim: Similarity, group: seq<Node>, files: seq<string>, links: Links<string>) {
    forall j {:trigger files[j]} :: 0 <= j < |files| ==> Within(ExactInFile(sim, group, files[j]), links)
  }

  lemma FilesDoneStep(sim: Similarity, group: seq<Node>, files: seq<string>, i: nat,
                      before: Links<string>, after: Links<string>)
    requires i < |files| && FilesDone(sim, group, files[..i], before) && before <= after
    requires Within(ExactInFile(sim, group, files[i]), after)
    ensures FilesDone(sim, group, files[..i + 1], after)
  {
    forall j | 0 <= j < i
      ensures Within(ExactInFile(sim, group, files[j]), after)
    {
      assert files[..i][j] == files[j];
      WithinGrows(ExactInFile(sim, group, files[j]), before, after);
    }
  }

  lemma AllFilesDone(sim: Similarity, group: seq<Node>, files: seq<string>, links: Links<string>)
    requires FilesDone(sim, group, files, links)
    requires forall a :: a in group ==> a.file in files
    ensures Within(ExactLinks(sim, group), links)
  {
    forall link | link in ExactLinks(sim, group)
      ensures Connected(links, link.0, link.1)
    {
      var a, b :| a in group && b in group && ExactPair(sim, a, b) && link == (a.id, b.id);
      var j :| 0 <= j < |files| && files[j] == a.file;
      assert link in ExactInFile(sim, group, files[j]);
    }
  }

  /** The nodes of one label and one file; without a file they are left alone. */
  method MergeIfSeveral(uf: Forest<string>, ghost sim: Similarity, ghost group: seq<Node>, members: seq<Node>, file: string,
                        ghost nodes: seq<Node>, ghost allowed: Links<string>)
    requires Sound(uf, nodes, allowed) && ExactLinks(sim, nodes) <= allowed
    requires forall a :: a in group ==> a in nodes && Keyed(sim, a)
    requires forall a, b :: a in group && b in group ==> Norm(sim, a) == Norm(sim, b)
    requires forall n :: n in members <==> n in group && n.file == file
    modifies uf
    ensures Sound(uf, nodes, allowed) && old(uf.links) <= uf.links
    ensures Within(ExactInFile(sim, group, file), uf.links)
  {
    if file != "" && |members| > 1 {
      MergeFileGroup(uf, members, nodes, allowed);
    }
    FileGroupDone(sim, group, members, file, uf.links);
  }

  /** Merge the same-file nodes of one label group. */
  method MergeLabelGroup(uf: Forest<string>, sim: Similarity, group: seq<Node>,
                         ghost nodes: seq<Node>, ghost allowed: Links<string>)
    requires Sound(uf, nodes, allowed)
    requires forall a :: a in group ==> a in nodes && Keyed(sim, a)
    requires forall a, b :: a in group && b in group ==> Norm(sim, a) == Norm(sim, b)
    requires ExactLinks(sim, nodes) <= allowed
    modifies uf
    ensures Sound(uf, nodes, allowed) && old(uf.links) <= uf.links
    ensures Within(ExactLinks(sim, group), uf.links)
  {
    var files, byFile := GroupBy(group, _ => true, (n: Node) => n.file);
    for i := 0 to |files|
      invariant Sound(uf, nodes, allowed) && old(uf.links) <= uf.links
      invariant FilesDone(sim, group, files[..i], uf.links)
    {
      ghost var before := uf.links;
      MergeIfSeveral(uf, sim, group, byFile[files[i]], files[i], nodes, allowed);
      FilesDoneStep(sim, group, files, i, before, uf.links);
    }
    assert files[..|files|] == files;
    AllFilesDone(sim, group, files, uf.links);
  }

  ghost predicate LabelsDone(sim: Similarity, byLabel: map<string, seq<Node>>, labels: seq<string>, links: Links<string>)
  {
    forall j {:trigger labels[j]} :: 0 <= j < |labels| ==>
      labels[j] in byLabel && Within(ExactLinks(sim, byLabel[labels[j]]), links)
  }

  lemma LabelsDoneStep(sim: Similarity, byLabel: map<string, seq<Node>>, labels: seq<string>, i: nat,
                       before: Links<string>, after: Links<string>)
    requires i < |labels| && LabelsDone(sim, byLabel, labels[..i], before) && before <= after
    requires labels[i] in byLabel && Within(ExactLinks(sim, byLabel[labels[i]]), after)
    ensures LabelsDone(sim, byLabel, labels[..i + 1], after)
  {
    forall j | 0 <= j < i
      ensures labels[j] in byLabel && Within(ExactLinks(sim, byLabel[labels[j]]), after)
    {
      assert labels[..i][j] == labels[j];
      WithinGrows(ExactLinks(sim, byLabel[labels[j]]), before, after);
    }
  }

  lemma AllLabelsDone(sim: Similarity, nodes: seq<Node>, byLabel: map<string, seq<Node>>, labels: seq<string>,
                      links: Links<string>)
    requires LabelsDone(sim, byLabel, labels, links)
    requires forall n :: n in nodes && Keyed(sim, n) ==>
               Norm(sim, n) in labels && Norm(sim, n) in byLabel
    requires forall k, n :: k in byLabel && n in nodes && Keyed(sim, n) && Norm(sim, n) == k ==> n in byLabel[k]
    ensures Within(ExactLinks(sim, nodes), links)
  {
    forall link | link in ExactLinks(sim, nodes)
      ensures Connected(links, link.0, link.1)
    {
      var a, b :| a in nodes && b in nodes && ExactPair(sim, a, b) && link == (a.id, b.id);
      assert Keyed(sim, a) && Keyed(sim, b);
      var j :| 0 <= j < |labels| && labels[j] == Norm(sim, a);
      assert link in ExactLinks(sim, byLabel[labels[j]]);
    }
  }

  /** Pass 1 over all labels: exactly the exact pairs end up connected. */
  method ExactPass(uf: Forest<string>, sim: Similarity, nodes: seq<Node>, ghost allowed: Links<string>)
    requires Sound(uf, nodes, allowed) && ExactLinks(sim, nodes) <= allowed
    modifies uf
    ensures Sound(uf, nodes, allowed) && old(uf.links) <= uf.links
    ensures Within(ExactLinks(sim, nodes), uf.links)
  {
    var labels, byLabel := GroupBy(nodes, n => Keyed(sim, n), n => Norm(sim, n));
    for i := 0 to |labels|
      invariant Sound(uf, nodes, allowed) && old(uf.links) <= uf.links
      invariant LabelsDone(sim, byLabel, labels[..i], uf.links)
    {
      var group := byLabel[labels[i]];
      ghost var before := uf.links;
      if |group| > 1 {
        MergeLabelGroup(uf, sim, group, nodes, allowed);
      } else {
        SingletonExact(sim, group, uf.links);
      }
      LabelsDoneStep(sim, byLabel, labels, i, before, uf.links);
    }
    assert labels[..|labels|] == labels;
    AllLabelsDone(sim, nodes, byLabel, labels, uf.links);
  }

  lemma SingletonExact(sim: Similarity, group: seq<Node>, links: Links<string>)
    requires |group| <= 1
    ensures Within(ExactLinks(sim, group), links)
  {
    forall link | link in ExactLinks(sim, group)
      ensures Connected(links, link.0, link.1)
    {
      var a, b :| a in group && b in group && link == (a.id, b.id);
      assert a == group[0] == b;
      Reflexive(links, a.id);
    }
  }

  // ---- pass 2: fuzzy labels ----

  ghost predicate IdsDecideNodes(nodes: seq<Node>) {
    forall a, b {:trigger a in nodes, b in nodes} :: a in nodes && b in nodes && a.id == b.id ==> a == b
  }

  /** What pass 2 owes to neighbour `id` of `a`. */
  ghost function FuzzyCell(sim: Similarity, community: map<string, int>, cands: seq<Node>, a: Node, id: string): Links<string> {
    set b | b in cands && b.id == id && a.id != id && FuzzyPair(sim, community, a, b) :: (a.id, b.id)
  }

  /** One neighbour of one candidate. */
  method FuzzyVisit(uf: Forest<string>, sim: Similarity, community: map<string, int>, cands: seq<Node>,
                    byId: map<string, Node>, a: Node, id: string, ghost nodes: seq<Node>, ghost allowed: Links<string>)
    requires Sound(uf, nodes, allowed) && a in cands && IdsDecideNodes(cands)
    requires forall b :: b in cands ==> b.id in NonCodeIds(nodes) && b.id in byId
    requires forall k :: k in byId ==> byId[k] in cands && byId[k].id == k
    requires FuzzyCell(sim, community, cands, a, id) <= allowed
    modifies uf
    ensures Sound(uf, nodes, allowed) && old(uf.links) <= uf.links
    ensures Within(FuzzyCell(sim, community, cands, a, id), uf.links)
  {
    if id == a.id { return; }
    var ra := uf.Find(a.id);
    var rb := uf.Find(id);
    uf.SameRootIffConnected(a.id, id);
    if ra == rb || id !in byId { return; }
    var b := byId[id];
    if FuzzyPair(sim, community, a, b) {
      assert (a.id, b.id) in FuzzyCell(sim, community, cands, a, id);
      OneLink(allowed, a.id, b.id);
      UnionPair(uf, a, b, nodes, allowed);
    }
  }

  /** What pass 2 owes to all neighbours of `a`. */
  ghost function FuzzyRow(sim: Similarity, community: map<string, int>, cands: seq<Node>, a: Node): Links<string> {
    set b | b in cands && a.id != b.id && b.id in sim.neighbours(a.id) && FuzzyPair(sim, community, a, b) :: (a.id, b.id)
  }

  method FuzzyVisitAll(uf: Forest<string>, sim: Similarity, community: map<string, int>, cands: seq<Node>,
                       byId: map<string, Node>, a: Node, ghost nodes: seq<Node>, ghost allowed: Links<string>)
    requires Sound(uf, nodes, allowed) && a in cands && IdsDecideNodes(cands)
    requires forall b :: b in cands ==> b.id in NonCodeIds(nodes) && b.id in byId
    requires forall k :: k in byId ==> byId[k] in cands && byId[k].id == k
    requires FuzzyRow(sim, community, cands, a) <= allowed
    modifies uf
    ensures Sound(uf, nodes, allowed) && old(uf.links) <= uf.links
    ensures Within(FuzzyRow(sim, community, cands, a), uf.links)
  {
    var neighbours := sim.neighbours(a.id);
    ghost var done: Links<string> := {};
    for j := 0 to |neighbours|
      invariant Sound(uf, nodes, allowed) && old(uf.links) <= uf.links
      invariant Within(done, uf.links)
      invariant forall q :: 0 <= q < j ==> FuzzyCell(sim, community, cands, a, neighbours[q]) <= done
    {
      ghost var before, cell := uf.links, FuzzyCell(sim, community, cands, a, neighbours[j]);
      assert cell <= FuzzyRow(sim, community, cands, a);
      FuzzyVisit(uf, sim, community, cands, byId, a, neighbours[j], nodes, allowed);
      WithinStep(done, cell, before, uf.links);
      done := done + cell;
    }
    FuzzyRowCovered(sim, community, cands, a, done);
  }

  lemma FuzzyRowCovered(sim: Similarity, community: map<string, int>, cands: seq<Node>, a: Node, done: Links<string>)
    requires forall q :: 0 <= q < |sim.neighbours(a.id)| ==>
               FuzzyCell(sim, community, cands, a, sim.neighbours(a.id)[q]) <= done
    ensures FuzzyRow(sim, community, cands, a) <= done
  {
    forall link | link in FuzzyRow(sim, community, cands, a)
      ensures link in done
    {
      var b :| b in cands && a.id != b.id && b.id in sim.neighbours(a.id) && FuzzyPair(sim, community, a, b)
               && link == (a.id, b.id);
      var q :| 0 <= q < |sim.neighbours(a.id)| && sim.neighbours(a.id)[q] == b.id;
      assert link in FuzzyCell(sim, community, cands, a, sim.neighbours(a.id)[q]);
    }
  }

  method IndexById(cands: seq<Node>) returns (byId: map<string, Node>)
    requires IdsDecideNodes(cands)
    ensures forall b :: b in cands ==> b.id in byId
    ensures forall k :: k in byId ==> byId[k] in cands && byId[k].id == k
  {
    byId := map n | n in cands :: n.id := n;
  }

  /** Pass 2 over all candidates: exactly the fuzzy pairs are added to the closure. */
  method FuzzyPass(uf: Forest<string>, sim: Similarity, community: map<string, int>, cands: seq<Node>,
                   ghost nodes: seq<Node>, ghost allowed: Links<string>)
    requires Sound(uf, nodes, allowed) && IdsDecideNodes(cands)
    requires forall b :: b in cands ==> b.id in NonCodeIds(nodes)
    requires FuzzyLinks(sim, community, cands) <= allowed
    modifies uf
    ensures Sound(uf, nodes, allowed) && old(uf.links) <= uf.links
    ensures Within(FuzzyLinks(sim, community, cands), uf.links)
  {
    var byId := IndexById(cands);
    ghost var done: Links<string> := {};
    for i := 0 to |cands|
      invariant Sound(uf, nodes, allowed) && old(uf.links) <= uf.links
      invariant Within(done, uf.links)
      invariant forall p :: 0 <= p < i ==> FuzzyRow(sim, community, cands, cands[p]) <= done
    {
      ghost var before, row := uf.links, FuzzyRow(sim, community, cands, cands[i]);
      assert row <= FuzzyLinks(sim, community, cands);
      FuzzyVisitAll(uf, sim, community, cands, byId, cands[i], nodes, allowed);
      WithinStep(done, row, before, uf.links);
      done := done + row;
    }
    FuzzyCovered(sim, community, cands, done);
  }

  lemma FuzzyCovered(sim: Similarity, community: map<string, int>, cands: seq<Node>, done: Links<string>)
    requires forall p :: 0 <= p < |cands| ==> FuzzyRow(sim, community, cands, cands[p]) <= done
    ensures FuzzyLinks(sim, community, cands) <= done
  {
    forall link | link in FuzzyLinks(sim, community, cands)
      ensures link in done
    {
      var a, b :| a in cands && b in cands && a.id != b.id && b.id in sim.neighbours(a.id)
                  && FuzzyPair(sim, community, a, b) && link == (a.id, b.id);
      var p :| 0 <= p < |cands| && cands[p] == a;
      assert link in FuzzyRow(sim, community, cands, cands[p]);
    }
  }

  // ---- pass 3: ambiguous pairs put to a language model ----

  method SameTree(uf: Forest<string>, a: string, b: string, ghost merged: Links<string>) returns (same: bool)
    requires uf.Valid() && Within(uf.links, merged) && Within(merged, uf.links)
    modifies uf
    ensures uf.Valid() && uf.links == old(uf.links)
    ensures same <==> Connected(merged, a, b)
  {
    var ra := uf.Find(a);
    var rb := uf.Find(b);
    uf.SameRootIffConnected(a, b);
    SameClosure(uf.links, merged, a, b);
    same := ra == rb;
  }

  /** Collect the ambiguous pairs of `cands[i]`; asking the forest is the same as asking the closure. */
  method CollectRow(uf: Forest<string>, sim: Similarity, community: map<string, int>, cands: seq<Node>,
                    i: nat, ghost merged: Links<string>)
    returns (row: seq<(Node, Node)>)
    requires uf.Valid() && Within(uf.links, merged) && Within(merged, uf.links) && i < |cands|
    modifies uf
    ensures uf.Valid() && uf.links == old(uf.links)
    ensures row == AmbiguousRow(sim, community, cands, merged, i, |cands|)
  {
    row := [];
    for j := i + 1 to |cands|
      invariant uf.Valid() && uf.links == old(uf.links)
      invariant row == AmbiguousRow(sim, community, cands, merged, i, j)
    {
      var same := SameTree(uf, cands[i].id, cands[j].id, merged);
      if !same && AmbiguousPair(sim, community, cands[i], cands[j]) {
        row := row + [(cands[i], cands[j])];
      }
    }
  }

  method CollectAmbiguous(uf: Forest<string>, sim: Similarity, community: map<string, int>, cands: seq<Node>,
                          ghost merged: Links<string>)
    returns (asked: seq<(Node, Node)>)
    requires uf.Valid() && Within(uf.links, merged) && Within(merged, uf.links)
    modifies uf
    ensures uf.Valid() && uf.links == old(uf.links)
    ensures asked == Ambiguous(sim, community, cands, merged, |cands|)
  {
    asked := [];
    for i := 0 to |cands|
      invariant uf.Valid() && uf.links == old(uf.links)
      invariant asked == Ambiguous(sim, community, cands, merged, i)
    {
      var row := CollectRow(uf, sim, community, cands, i, merged);
      asked := asked + row;
    }
  }

  /** The pair that answer number `idx` confirms in the batch at `start`, if there is one. */
  ghost function AnswerLink(asked: seq<(Node, Node)>, start: nat, idx: int): Links<string> {
    if 0 <= idx < BATCH_SIZE && start + idx < |asked|
    then {(asked[start + idx].0.id, asked[start + idx].1.id)} else {}
  }

  ghost function BatchLinks(asked: seq<(Node, Node)>, start: nat, answers: seq<int>): (links: Links<string>)
    ensures forall idx :: idx in answers ==> AnswerLink(asked, start, idx) <= links
  {
    if answers == [] then {}
    else BatchLinks(asked, start, answers[..|answers| - 1]) + AnswerLink(asked, start, answers[|answers| - 1])
  }

  lemma {:induction false} BatchWithin(asked: seq<(Node, Node)>, start: nat, answers: seq<int>, target: Links<string>)
    requires forall idx :: idx in answers ==> AnswerLink(asked, start, idx) <= target
    ensures BatchLinks(asked, start, answers) <= target
  {
    if answers != [] {
      BatchWithin(asked, start, answers[..|answers| - 1], target);
    }
  }

  /** Merge the pairs of one batch that the model confirmed; other answer numbers are ignored. */
  method JudgeBatch(uf: Forest<string>, asked: seq<(Node, Node)>, start: nat, answers: seq<int>,
                    ghost nodes: seq<Node>, ghost allowed: Links<string>)
    requires Sound(uf, nodes, allowed) && start < |asked|
    requires forall p :: p in asked ==> p.0.id in NonCodeIds(nodes) && p.1.id in NonCodeIds(nodes)
    requires BatchLinks(asked, start, answers) <= allowed
    modifies uf
    ensures Sound(uf, nodes, allowed) && old(uf.links) <= uf.links
    ensures Within(BatchLinks(asked, start, answers), uf.links)
  {
    var batch := asked[start..Min(start + BATCH_SIZE, |asked|)];
    ghost var done: Links<string> := {};
    for k := 0 to |answers|
      invariant Sound(uf, nodes, allowed) && old(uf.links) <= uf.links
      invariant Within(done, uf.links)
      invariant done == BatchLinks(asked, start, answers[..k])
    {
      var idx := answers[k];
      assert answers[..k + 1][..k] == answers[..k];
      if 0 <= idx < |batch| {
        var (a, b) := batch[idx];
        ghost var before := uf.links;
        assert AnswerLink(asked, start, idx) == {(a.id, b.id)};
        OneLink(allowed, a.id, b.id);
        UnionPair(uf, a, b, nodes, allowed);
        WithinStep(done, {(a.id, b.id)}, before, uf.links);
        done := done + {(a.id, b.id)};
      }
    }
    assert answers[..|answers|] == answers;
  }

  method JudgePass(uf: Forest<string>, judge: Judge, asked: seq<(Node, Node)>,
                   ghost nodes: seq<Node>, ghost allowed: Links<string>)
    requires Sound(uf, nodes, allowed)
    requires forall p :: p in asked ==> p.0.id in NonCodeIds(nodes) && p.1.id in NonCodeIds(nodes)
    requires JudgedLinks(judge, asked) <= allowed
    modifies uf
    ensures Sound(uf, nodes, allowed) && old(uf.links) <= uf.links
    ensures Within(JudgedLinks(judge, asked), uf.links)
  {
    if |asked| == 0 || !judge.usable { return; }
    var k := 0;
    ghost var done: Links<string> := {};
    while k * BATCH_SIZE < |asked|
      invariant Sound(uf, nodes, allowed) && old(uf.links) <= uf.links
      invariant Within(done, uf.links)
      invariant forall m: nat :: m < k ==> BatchLinks(asked, m * BATCH_SIZE, judge.confirmed(m)) <= done
      decreases |asked| - k * BATCH_SIZE
    {
      ghost var before, part := uf.links, BatchLinks(asked, k * BATCH_SIZE, judge.confirmed(k));
      BatchIsJudged(judge, asked, k);
      JudgeBatch(uf, asked, k * BATCH_SIZE, judge.confirmed(k), nodes, allowed);
      WithinStep(done, part, before, uf.links);
      done := done + part;
      k := k + 1;
    }
    JudgedCovered(judge, asked, k, done);
  }

  lemma Locate(p: nat, pairs: nat, batches: nat)
    requires p < pairs <= batches * BATCH_SIZE
    ensures p / BATCH_SIZE < batches && p / BATCH_SIZE * BATCH_SIZE + p % BATCH_SIZE == p
  {
  }

  lemma JudgedCovered(judge: Judge, asked: seq<(Node, Node)>, batches: nat, done: Links<string>)
    requires judge.usable && batches * BATCH_SIZE >= |asked|
    requires forall m: nat :: m < batches ==> BatchLinks(asked, m * BATCH_SIZE, judge.confirmed(m)) <= done
    ensures JudgedLinks(judge, asked) <= done
  {
    forall link | link in JudgedLinks(judge, asked)
      ensures link in done
    {
      var p: nat :| p < |asked| && Confirms(judge, p) && link == (asked[p].0.id, asked[p].1.id);
      var k, idx := p / BATCH_SIZE, p % BATCH_SIZE;
      Locate(p, |asked|, batches);
      assert link in AnswerLink(asked, k * BATCH_SIZE, idx);
      assert link in BatchLinks(asked, k * BATCH_SIZE, judge.confirmed(k));
    }
  }

  lemma BatchIsJudged(judge: Judge, asked: seq<(Node, Node)>, k: nat)
    requires judge.usable
    ensures BatchLinks(asked, k * BATCH_SIZE, judge.confirmed(k)) <= JudgedLinks(judge, asked)
  {
    forall idx | idx in judge.confirmed(k)
      ensures AnswerLink(asked, k * BATCH_SIZE, idx) <= JudgedLinks(judge, asked)
    {
      if 0 <= idx < BATCH_SIZE && k * BATCH_SIZE + idx < |asked| {
        assert Confirms(judge, k * BATCH_SIZE + idx);
      }
    }
    BatchWithin(asked, k * BATCH_SIZE, judge.confirmed(k), JudgedLinks(judge, asked));
  }

  // ---- from components to a renaming ----

  /** The nodes whose ids are among `members`, in order. */
  function Selected(nodes: seq<Node>, members: seq<string>): seq<Node> {
    Filter((n: Node) => n.id in members, nodes)
  }

  lemma {:induction false} ClassIsSelected(nodes: seq<Node>, links: Links<string>, id: string, members: seq<string>)
    requires forall n :: n in nodes ==> (n.id in members <==> Connected(links, id, n.id))
    ensures Class(nodes, links, id) == Selected(nodes, members)
  {
    if nodes != [] {
      ClassIsSelected(nodes[..|nodes| - 1], links, id, members);
    }
  }

  /** The forest's closure is exactly that of `links`. */
  ghost predicate Exact(uf: Forest<string>, nodes: seq<Node>, links: Links<string>)
    reads uf
  {
    Sound(uf, nodes, links) && Within(links, uf.links)
  }

  lemma GroupIsClass(uf: Forest<string>, nodes: seq<Node>, links: Links<string>, r: string, id: string)
    requires Exact(uf, nodes, links) && id in uf.root && uf.root[id] == r
    ensures Class(nodes, links, id) == Selected(nodes, Members(uf.keys, uf.root, r))
  {
    forall n | n in nodes
      ensures n.id in Members(uf.keys, uf.root, r) <==> Connected(links, id, n.id)
    {
      uf.SameRootIffConnected(id, n.id);
      SameClosure(uf.links, links, id, n.id);
    }
    ClassIsSelected(nodes, links, id, Members(uf.keys, uf.root, r));
  }

  /** A node that does not survive is known to the forest, in a group of at least two. */
  lemma RenamedIsGrouped(uf: Forest<string>, nodes: seq<Node>, links: Links<string>, id: string)
    requires Exact(uf, nodes, links) && id in Ids(nodes) && Survivor(nodes, links, id) != id
    ensures id in uf.root && Members(uf.keys, uf.root, uf.root[id]) != [id]
  {
    var other := Survivor(nodes, links, id);
    ClassMembers(nodes, links, id);
    SameClosure(uf.links, links, id, other);
    ConnectedEndsIn(uf.links, uf.root.Keys, id, other);
    uf.SameRootIffConnected(id, other);
    assert other in Members(uf.keys, uf.root, uf.root[id]);
  }

  /** `remap` is the renaming of the nodes whose representative is among `roots`. */
  ghost predicate RenamingUpTo(remap: map<string, string>, root: map<string, string>, nodes: seq<Node>,
                               links: Links<string>, roots: seq<string>)
  {
    && (forall k :: k in remap ==> k in Ids(nodes) && Survivor(nodes, links, k) != k
                                   && remap[k] == Survivor(nodes, links, k))
    && (forall k :: k in Ids(nodes) && k in root && root[k] in roots && Survivor(nodes, links, k) != k
                    ==> k in remap)
  }

  lemma {:induction false} MembersDistinct(keys: seq<string>, root: map<string, string>, r: string)
    requires Distinct(keys) && forall k :: k in keys ==> k in root
    ensures Distinct(Members(keys, root, r))
  {
    if keys != [] {
      MembersDistinct(keys[..|keys| - 1], root, r);
    }
  }

  lemma SingletonKeepsItsNode(uf: Forest<string>, nodes: seq<Node>, links: Links<string>, r: string, k: string)
    requires Exact(uf, nodes, links) && |Members(uf.keys, uf.root, r)| == 1
    requires k in Ids(nodes) && k in uf.root && uf.root[k] == r
    ensures Survivor(nodes, links, k) == k
  {
    var members := Members(uf.keys, uf.root, r);
    assert members == [members[0]] && members[0] == k;
    if Survivor(nodes, links, k) != k {
      RenamedIsGrouped(uf, nodes, links, k);
    }
  }

  lemma GroupMember(uf: Forest<string>, nodes: seq<Node>, links: Links<string>, r: string, m: string)
    requires Exact(uf, nodes, links)
    requires var members := Members(uf.keys, uf.root, r); |members| > 1 && m in members
    ensures m in Ids(nodes) && Class(nodes, links, m) == Selected(nodes, Members(uf.keys, uf.root, r))
    ensures Selected(nodes, Members(uf.keys, uf.root, r)) != []
  {
    var members := Members(uf.keys, uf.root, r);
    MembersDistinct(uf.keys, uf.root, r);
    var other := if members[0] == m then members[1] else members[0];
    assert other in members;
    uf.SameRootIffConnected(m, other);
    ConnectedEndsIn(uf.links, NonCodeIds(nodes), m, other);
    GroupIsClass(uf, nodes, links, r, m);
    ClassMembers(nodes, links, m);
  }

  /** Every key but the winner is sent to the winner. */
  method SendTo<K(==)>(members: seq<K>, winner: K) returns (losers: map<K, K>)
    ensures losers == map k | k in members && k != winner :: winner
  {
    losers := map[];
    for i := 0 to |members|
      invariant losers == map k | k in members[..i] && k != winner :: winner
    {
      if members[i] != winner {
        losers := losers[members[i] := winner];
      }
    }
    assert members[..|members|] == members;
  }

  /** What one group adds to the renaming. */
  ghost predicate RenamesGroup(losers: map<string, string>, nodes: seq<Node>, links: Links<string>, members: seq<string>)
  {
    losers == map k | k in members && k in Ids(nodes) && Survivor(nodes, links, k) != k :: Survivor(nodes, links, k)
  }

  lemma SingletonRenamesNothing(uf: Forest<string>, nodes: seq<Node>, links: Links<string>, r: string)
    requires Exact(uf, nodes, links) && |Members(uf.keys, uf.root, r)| == 1
    ensures RenamesGroup(map[], nodes, links, Members(uf.keys, uf.root, r))
  {
    forall k | k in Members(uf.keys, uf.root, r) && k in Ids(nodes)
      ensures Survivor(nodes, links, k) == k
    {
      SingletonKeepsItsNode(uf, nodes, links, r, k);
    }
  }

  lemma WinnerRenamesGroup(nodes: seq<Node>, links: Links<string>, members: seq<string>, losers: map<string, string>)
    requires Selected(nodes, members) != []
    requires forall m :: m in members ==> m in Ids(nodes) && Class(nodes, links, m) == Selected(nodes, members)
    requires losers == map k | k in members && k != PickWinner(Selected(nodes, members)).id
                           :: PickWinner(Selected(nodes, members)).id
    ensures RenamesGroup(losers, nodes, links, members)
  {
    forall m | m in members
      ensures m in Ids(nodes) && Survivor(nodes, links, m) == PickWinner(Selected(nodes, members)).id
    {
      ClassMembers(nodes, links, m);
    }
  }

  /** Send every loser of one group to the group's winner. */
  method RenameGroup(uf: Forest<string>, nodes: seq<Node>, ghost links: Links<string>, ghost r: string,
                     members: seq<string>) returns (losers: map<string, string>)
    requires Exact(uf, nodes, links) && members == Members(uf.keys, uf.root, r) && members != []
    ensures RenamesGroup(losers, nodes, links, members)
  {
    if |members| == 1 {
      SingletonRenamesNothing(uf, nodes, links, r);
      return map[];
    }
    forall m | m in members
      ensures m in Ids(nodes) && Class(nodes, links, m) == Selected(nodes, members) && Selected(nodes, members) != []
    {
      GroupMember(uf, nodes, links, r, m);
    }
    assert members[0] in members;
    losers := SendTo(members, PickWinner(Selected(nodes, members)).id);
    WinnerRenamesGroup(nodes, links, members, losers);
  }

  method RenameGroups(uf: Forest<string>, nodes: seq<Node>, ghost links: Links<string>,
                      roots: seq<string>, groups: map<string, seq<string>>)
    returns (remap: map<string, string>)
    requires Exact(uf, nodes, links) && Grouping(uf.keys, uf.root, roots, groups)
    ensures RenamingUpTo(remap, uf.root, nodes, links, roots)
  {
    remap := map[];
    for i := 0 to |roots|
      invariant RenamingUpTo(remap, uf.root, nodes, links, roots[..i])
    {
      var losers := RenameGroup(uf, nodes, links, roots[i], groups[roots[i]]);
      RenamingStep(remap, losers, uf, nodes, links, roots, i);
      remap := remap + losers;
    }
    assert roots[..|roots|] == roots;
  }

  lemma AllRenamed(remap: map<string, string>, uf: Forest<string>, nodes: seq<Node>, links: Links<string>,
                   roots: seq<string>)
    requires Exact(uf, nodes, links) && RenamingUpTo(remap, uf.root, nodes, links, roots)
    requires forall k :: k in uf.root ==> uf.root[k] in roots
    ensures remap == Renaming(nodes, links)
  {
    forall k | k in Ids(nodes) && Survivor(nodes, links, k) != k
      ensures k in remap
    {
      RenamedIsGrouped(uf, nodes, links, k);
    }
  }

  method BuildRemap(uf: Forest<string>, nodes: seq<Node>, ghost links: Links<string>)
    returns (remap: map<string, string>)
    requires Exact(uf, nodes, links)
    modifies uf
    ensures remap == Renaming(nodes, links)
  {
    var roots, groups := uf.Components();
    remap := RenameGroups(uf, nodes, links, roots, groups);
    AllRenamed(remap, uf, nodes, links, roots);
  }

  lemma RenamingStep(remap: map<string, string>, losers: map<string, string>, uf: Forest<string>, nodes: seq<Node>,
                     links: Links<string>, roots: seq<string>, i: nat)
    requires Exact(uf, nodes, links) && i < |roots| && RenamingUpTo(remap, uf.root, nodes, links, roots[..i])
    requires RenamesGroup(losers, nodes, links, Members(uf.keys, uf.root, roots[i]))
    ensures RenamingUpTo(remap + losers, uf.root, nodes, links, roots[..i + 1])
  {
    assert roots[..i + 1] == roots[..i] + [roots[i]];
  }

  // ---- the whole pipeline ----

  method CollectUnique(nodes: seq<Node>) returns (kept: seq<Node>)
    ensures kept == Unique(nodes)
  {
    kept := [];
    var seen: set<string> := {};
    for i := 0 to |nodes|
      invariant kept == Unique(nodes[..i]) && seen == Ids(kept)
    {
      var n := nodes[i];
      assert nodes[..i + 1][..i] == nodes[..i];
      if n.id != "" && n.id !in seen {
        kept, seen := kept + [n], seen + {n.id};
      }
    }
    assert nodes[..|nodes|] == nodes;
  }

  method CollectCandidates(sim: Similarity, nodes: seq<Node>) returns (cands: seq<Node>)
    ensures cands == Candidates(sim, nodes)
  {
    cands := [];
    var seen: set<string> := {};
    for i := 0 to |nodes|
      invariant cands == Candidates(sim, nodes[..i])
      invariant forall k :: k in seen <==> LabelSeen(sim, FirstOfLabel(sim, nodes[..i]), k)
    {
      var n := nodes[i];
      assert nodes[..i + 1][..i] == nodes[..i];
      if !n.IsCode() && Norm(sim, n) != "" && Norm(sim, n) !in seen {
        seen := seen + {Norm(sim, n)};
        assert FirstOfLabel(sim, nodes[..i + 1])[..|FirstOfLabel(sim, nodes[..i])|] == FirstOfLabel(sim, nodes[..i]);
        if sim.entropy(n.text.GetOr("")) >= ENTROPY_THRESHOLD {
          cands := cands + [n];
        }
      }
    }
    assert nodes[..|nodes|] == nodes;
  }

  function Target(remap: map<string, string>, id: string): string {
    if id in remap then remap[id] else id
  }

  /** The endpoint under the standard key, else under the fallback key. */
  function Endpoint(main: Option<Option<string>>, fallback: Option<string>): Option<string> {
    if main.Some? then main.value else fallback
  }

  /** The images of the edges that have both ends and do not become self-loops, in order. */
  function RewriteEdges(edges: seq<Edge>, remap: map<string, string>): seq<Edge> {
    if edges == [] then []
    else RewriteEdges(edges[..|edges| - 1], remap) + RewriteEdge(edges[|edges| - 1], remap)
  }

  function RewriteEdge(e: Edge, remap: map<string, string>): seq<Edge> {
    var src, tgt := Endpoint(e.source, e.from_), Endpoint(e.target, e.to);
    if src.None? || tgt.None? || Target(remap, src.value) == Target(remap, tgt.value) then []
    else [Edge(Some(Some(Target(remap, src.value))), Some(Some(Target(remap, tgt.value))), None, None, e.attrs)]
  }

  /** What the pipeline is meant to return: no forest, no order of merging, only the closure. */
  ghost function Deduplicated(nodes: seq<Node>, edges: seq<Edge>, sim: Similarity, community: map<string, int>,
                              judge: Judge): Result<(seq<Node>, seq<Edge>), Failure>
  {
    var unique := Unique(nodes);
    var remap := Renaming(unique, AllLinks(sim, community, judge, unique));
    if |Repos(nodes)| > 1 then Err(CrossRepository)
    else if |nodes| <= 1 then Ok((nodes, edges))
    else if |unique| <= 1 || remap == map[] then Ok((unique, edges))
    else Ok((Filter((n: Node) => n.id !in remap, unique), RewriteEdges(edges, remap)))
  }

  function Repos(nodes: seq<Node>): set<string> {
    set n | n in nodes && n.repo != "" :: n.repo
  }

  method RewriteAll(edges: seq<Edge>, remap: map<string, string>) returns (rewritten: seq<Edge>)
    ensures rewritten == RewriteEdges(edges, remap)
  {
    rewritten := [];
    for i := 0 to |edges|
      invariant rewritten == RewriteEdges(edges[..i], remap)
    {
      assert edges[..i + 1][..i] == edges[..i];
      rewritten := rewritten + RewriteEdge(edges[i], remap);
    }
    assert edges[..|edges|] == edges;
  }

  method DeduplicateEntities(nodes: seq<Node>, edges: seq<Edge>, sim: Similarity, community: map<string, int>,
                             judge: Judge)
    returns (r: Result<(seq<Node>, seq<Edge>), Failure>)
    ensures r == Deduplicated(nodes, edges, sim, community, judge)
  {
    if |Repos(nodes)| > 1 { return Err(CrossRepository); }
    if |nodes| <= 1 { return Ok((nodes, edges)); }
    var unique := CollectUnique(nodes);
    if |unique| <= 1 { return Ok((unique, edges)); }
    ghost var links := AllLinks(sim, community, judge, unique);
    UniqueIsUnique(nodes);
    var uf := new Forest<string>();
    var cands := CollectCandidates(sim, unique);
    MergeAll(uf, sim, community, judge, unique, cands);
    var remap := BuildRemap(uf, unique, links);
    if remap == map[] { return Ok((unique, edges)); }
    var rewritten := RewriteAll(edges, remap);
    r := Ok((Filter((n: Node) => n.id !in remap, unique), rewritten));
  }

  /** The three passes in order leave exactly the closure of all links. */
  method MergeAll(uf: Forest<string>, sim: Similarity, community: map<string, int>, judge: Judge,
                  unique: seq<Node>, cands: seq<Node>)
    requires uf.Valid() && uf.links == {} && IdsDecideNodes(unique) && cands == Candidates(sim, unique)
    modifies uf
    ensures Exact(uf, unique, AllLinks(sim, community, judge, unique))
  {
    ghost var links, scored := AllLinks(sim, community, judge, unique), ScoredLinks(sim, community, unique);
    CandidatesAreNodes(sim, unique);
    ExactPass(uf, sim, unique, scored);
    ghost var exact := uf.links;
    FuzzyPass(uf, sim, community, cands, unique, scored);
    WithinGrows(ExactLinks(sim, unique), exact, uf.links);
    var asked := CollectAmbiguous(uf, sim, community, cands, scored);
    AmbiguousAreCandidates(sim, community, cands, scored, |cands|);
    ghost var merged := uf.links;
    WithinGrows(uf.links, scored, links);
    JudgePass(uf, judge, asked, unique, links);
    WithinGrows(scored, merged, uf.links);
  }

  lemma {:induction false} FirstOfLabelMembers(sim: Similarity, nodes: seq<Node>)
    ensures forall n :: n in FirstOfLabel(sim, nodes) ==> n in nodes && !n.IsCode()
  {
    if nodes != [] {
      FirstOfLabelMembers(sim, nodes[..|nodes| - 1]);
    }
  }

  lemma CandidatesAreNodes(sim: Similarity, nodes: seq<Node>)
    ensures forall n :: n in Candidates(sim, nodes) ==> n in nodes && !n.IsCode()
  {
    FirstOfLabelMembers(sim, nodes);
    forall n | n in Candidates(sim, nodes)
      ensures n in FirstOfLabel(sim, nodes)
    {
      FilterMembers((n: Node) => sim.entropy(n.text.GetOr("")) >= ENTROPY_THRESHOLD, FirstOfLabel(sim, nodes), n);
    }
  }

  lemma {:induction false} AmbiguousRowAreCandidates(sim: Similarity, community: map<string, int>, cands: seq<Node>,
                                                     merged: Links<string>, i: nat, j: nat)
    requires i < |cands|
    ensures forall p :: p in AmbiguousRow(sim, community, cands, merged, i, j) ==> p.0 in cands && p.1 in cands
    decreases j
  {
    if i + 1 < j <= |cands| {
      AmbiguousRowAreCandidates(sim, community, cands, merged, i, j - 1);
    }
  }

  lemma {:induction false} AmbiguousAreCandidates(sim: Similarity, community: map<string, int>, cands: seq<Node>,
                                                  merged: Links<string>, i: nat)
    requires i <= |cands|
    ensures forall p :: p in Ambiguous(sim, community, cands, merged, i) ==> p.0 in cands && p.1 in cands
  {
    if i > 0 {
      AmbiguousAreCandidates(sim, community, cands, merged, i - 1);
      AmbiguousRowAreCandidates(sim, community, cands, merged, i - 1, |cands|);
      var before, row := Ambiguous(sim, community, cands, merged, i - 1), AmbiguousRow(sim, community, cands, merged, i - 1, |cands|);
      forall p: (Node, Node) | p in before + row
        ensures p.0 in cands && p.1 in cands
      {
        assert p in before || p in row;
      }
    }
  }

  lemma IdsAppend(nodes: seq<Node>, n: Node)
    ensures Ids(nodes + [n]) == Ids(nodes) + {n.id}
  {
  }

  lemma {:induction false} UniqueIsUnique(nodes: seq<Node>)
    ensures IdsDecideNodes(Unique(nodes))
    ensures Ids(Unique(nodes)) == Ids(nodes) - {""}
    ensures forall n :: n in Unique(nodes) ==> n in nodes
  {
    if nodes != [] {
      var front, last := nodes[..|nodes| - 1], nodes[|nodes| - 1];
      UniqueIsUnique(front);
      assert nodes == front + [last];
      IdsAppend(front, last);
      IdsAppend(Unique(front), last);
    }
  }

  // ---- which nodes are kept and compared ----

  /** `kept[j]` is the element at `at[j]`, and positions ascend. */
  ghost predicate PicksOut<T>(all: seq<T>, kept: seq<T>, at: seq<nat>) {
    && |at| == |kept|
    && (forall j :: 0 <= j < |at| ==> at[j] < |all| && kept[j] == all[at[j]])
    && (forall j, k :: 0 <= j < k < |at| ==> at[j] < at[k])
  }

  lemma {:induction false} PickMore<T>(all: seq<T>, kept: seq<T>, at: seq<nat>, x: T)
    requires PicksOut(all, kept, at)
    ensures PicksOut(all + [x], kept, at) && PicksOut(all + [x], kept + [x], at + [|all|])
    ensures forall i :: i in at ==> i < |all|
    ensures forall i :: i in at + [|all|] <==> i in at || i == |all|
  {
  }

  /** No earlier node has this id, and the id is not empty. */
  ghost predicate FirstOfItsId(nodes: seq<Node>, i: nat)
    requires i < |nodes|
  {
    nodes[i].id != "" && forall k :: 0 <= k < i ==> nodes[k].id != nodes[i].id
  }

  /** The first node of each nonempty id stays, in order, and nothing else. */
  lemma {:induction false} UniqueKeepsFirsts(nodes: seq<Node>) returns (at: seq<nat>)
    ensures PicksOut(nodes, Unique(nodes), at)
    ensures forall i: nat :: i < |nodes| ==> (i in at <==> FirstOfItsId(nodes, i))
  {
    if nodes == [] {
      at := [];
    } else {
      var n := |nodes| - 1;
      var front, last := nodes[..n], nodes[n];
      var before := UniqueKeepsFirsts(front);
      UniqueIsUnique(front);
      PickMore(front, Unique(front), before, last);
      assert nodes == front + [last];
      at := if last.id != "" && last.id !in Ids(Unique(front)) then before + [n] else before;
      forall i: nat | i < |nodes|
        ensures i in at <==> FirstOfItsId(nodes, i)
      {
        FirstIdOfFront(front, last, i);
      }
    }
  }

  lemma FirstIdOfFront(front: seq<Node>, last: Node, i: nat)
    requires i <= |front|
    ensures i < |front| ==> FirstOfItsId(front + [last], i) == FirstOfItsId(front, i)
    ensures i == |front| ==> FirstOfItsId(front + [last], i) == (last.id != "" && last.id !in Ids(front))
  {
    var nodes := front + [last];
    assert forall k :: 0 <= k < |front| ==> nodes[k] == front[k] && nodes[k].id in Ids(front);
    if last.id in Ids(front) {
      var n :| n in front && n.id == last.id;
      assert nodes[IndexOf(front, n)].id == last.id;
    }
  }

  /** No earlier non-code node has this normalised label, and the label is not empty. */
  ghost predicate FirstOfItsLabel(sim: Similarity, nodes: seq<Node>, i: nat)
    requires i < |nodes|
  {
    && !nodes[i].IsCode() && sim.norm(nodes[i].Label()) != ""
    && forall k :: 0 <= k < i && !nodes[k].IsCode() ==> sim.norm(nodes[k].Label()) != sim.norm(nodes[i].Label())
  }

  lemma {:induction false} LabelSeenIff(sim: Similarity, nodes: seq<Node>, key: string)
    requires key != ""
    ensures LabelSeen(sim, FirstOfLabel(sim, nodes), key) <==>
            exists k :: 0 <= k < |nodes| && !nodes[k].IsCode() && sim.norm(nodes[k].Label()) == key
  {
    if nodes != [] {
      var n := |nodes| - 1;
      LabelSeenIff(sim, nodes[..n], key);
      var front := FirstOfLabel(sim, nodes[..n]);
      assert forall k :: 0 <= k < n ==> nodes[..n][k] == nodes[k];
      assert nodes[n] in front + [nodes[n]];
      if Norm(sim, nodes[n]) != "" { LabelSeenIff(sim, nodes[..n], Norm(sim, nodes[n])); }
    }
  }

  /** The nodes that are compared are exactly the first of each label whose label has entropy enough, in order. */
  lemma {:induction false} CandidatesAreFirsts(sim: Similarity, nodes: seq<Node>) returns (at: seq<nat>)
    ensures PicksOut(nodes, Candidates(sim, nodes), at)
    ensures forall i: nat :: i < |nodes| ==>
              (i in at <==> FirstOfItsLabel(sim, nodes, i) && sim.entropy(nodes[i].text.GetOr("")) >= 2.5)
  {
    if nodes == [] {
      at := [];
    } else {
      var n := |nodes| - 1;
      var front, last := nodes[..n], nodes[n];
      var before := CandidatesAreFirsts(sim, front);
      PickMore(front, Candidates(sim, front), before, last);
      assert nodes == front + [last];
      CandidatesStep(sim, front, last);
      FirstLabelOfFront(sim, front, last, n);
      at := if FirstOfItsLabel(sim, nodes, n) && sim.entropy(last.text.GetOr("")) >= ENTROPY_THRESHOLD
            then before + [n] else before;
      forall i: nat | i < |nodes|
        ensures i in at <==> FirstOfItsLabel(sim, nodes, i) && sim.entropy(nodes[i].text.GetOr("")) >= ENTROPY_THRESHOLD
      {
        FirstLabelOfFront(sim, front, last, i);
      }
    }
  }

  lemma FirstLabelOfFront(sim: Similarity, front: seq<Node>, last: Node, i: nat)
    requires i <= |front|
    ensures i < |front| ==> FirstOfItsLabel(sim, front + [last], i) == FirstOfItsLabel(sim, front, i)
    ensures i == |front| ==>
              FirstOfItsLabel(sim, front + [last], i) ==
              (!last.IsCode() && Norm(sim, last) != "" && !LabelSeen(sim, FirstOfLabel(sim, front), Norm(sim, last)))
  {
    var nodes := front + [last];
    assert forall k :: 0 <= k < |front| ==> nodes[k] == front[k];
    if Norm(sim, last) != "" { LabelSeenIff(sim, front, Norm(sim, last)); }
  }

  lemma CandidatesStep(sim: Similarity, front: seq<Node>, last: Node)
    ensures Candidates(sim, front + [last]) ==
            Candidates(sim, front) +
            if !last.IsCode() && Norm(sim, last) != "" && !LabelSeen(sim, FirstOfLabel(sim, front), Norm(sim, last))
               && sim.entropy(last.text.GetOr("")) >= ENTROPY_THRESHOLD
            then [last] else []
  {
    var first := FirstOfLabel(sim, front);
    assert (front + [last])[..|front|] == front && (first + [last])[..|first|] == first;
  }

  ghost predicate IsAsked(sim: Similarity, community: map<string, int>, merged: Links<string>, pair: (Node, Node)) {
    !Connected(merged, pair.0.id, pair.1.id) && AmbiguousPair(sim, community, pair.0, pair.1)
  }

  /** The node at `i` with one behind it. */
  ghost predicate PairsWithLater(cands: seq<Node>, i: nat, m: nat, pair: (Node, Node))
    requires i < |cands| && m <= |cands|
  {
    exists j :: i < j < m && pair == (cands[i], cands[j])
  }

  ghost predicate PairedWithLater(cands: seq<Node>, n: nat, pair: (Node, Node))
    requires n <= |cands|
  {
    exists i :: 0 <= i < n && PairsWithLater(cands, i, |cands|, pair)
  }

  /** A pair is put to the model exactly when its nodes are candidates, in order, still apart and ambiguous. */
  lemma {:induction false} AmbiguousIff(sim: Similarity, community: map<string, int>, cands: seq<Node>,
                                        merged: Links<string>, n: nat, pair: (Node, Node))
    requires n <= |cands|
    ensures pair in Ambiguous(sim, community, cands, merged, n) <==>
            IsAsked(sim, community, merged, pair) && PairedWithLater(cands, n, pair)
  {
    if n > 0 {
      AmbiguousIff(sim, community, cands, merged, n - 1, pair);
      AmbiguousStep(sim, community, cands, merged, n, pair);
      OneMoreRow(cands, n, pair);
    } else {
      assert !PairedWithLater(cands, n, pair);
    }
  }

  lemma {:induction false} AmbiguousStep(sim: Similarity, community: map<string, int>, cands: seq<Node>,
                                         merged: Links<string>, n: nat, pair: (Node, Node))
    requires 0 < n <= |cands|
    ensures pair in Ambiguous(sim, community, cands, merged, n) <==>
            || pair in Ambiguous(sim, community, cands, merged, n - 1)
            || (IsAsked(sim, community, merged, pair) && PairsWithLater(cands, n - 1, |cands|, pair))
  {
    AmbiguousRowIff(sim, community, cands, merged, n - 1, |cands|, pair);
  }

  lemma OneMoreRow(cands: seq<Node>, n: nat, pair: (Node, Node))
    requires 0 < n <= |cands|
    ensures PairedWithLater(cands, n, pair) <==>
            PairedWithLater(cands, n - 1, pair) || PairsWithLater(cands, n - 1, |cands|, pair)
  {
  }

  lemma {:induction false} AmbiguousRowIff(sim: Similarity, community: map<string, int>, cands: seq<Node>,
                                           merged: Links<string>, i: nat, m: nat, pair: (Node, Node))
    requires i < |cands| && m <= |cands|
    ensures pair in AmbiguousRow(sim, community, cands, merged, i, m) <==>
            IsAsked(sim, community, merged, pair) && PairsWithLater(cands, i, m, pair)
    decreases m
  {
    if i + 1 < m {
      AmbiguousRowIff(sim, community, cands, merged, i, m - 1, pair);
    }
  }

  /** Nodes of two named repositories are refused, and nothing else is. */
  lemma RefusedIff(nodes: seq<Node>, edges: seq<Edge>, sim: Similarity, community: map<string, int>, judge: Judge)
    ensures Deduplicated(nodes, edges, sim, community, judge).Err? <==>
            exists a, b :: a in nodes && b in nodes && a.repo != "" && b.repo != "" && a.repo != b.repo
  {
    ReposIff(nodes);
  }

  lemma ReposIff(nodes: seq<Node>)
    ensures |Repos(nodes)| > 1 <==> exists a, b :: a in nodes && b in nodes && a.repo != "" && b.repo != "" && a.repo != b.repo
  {
    var repos := Repos(nodes);
    if |repos| > 1 {
      var r := Pick(repos);
      assert |repos - {r}| > 0;
      var q := Pick(repos - {r});
      var a :| a in nodes && a.repo == r;
      var b :| b in nodes && b.repo == q;
      assert a.repo != b.repo;
    }
    if a, b :| a in nodes && b in nodes && a.repo != "" && b.repo != "" && a.repo != b.repo {
      assert |repos - {a.repo}| == |repos| - 1 && b.repo in repos - {a.repo};
    }
  }

  lemma {:induction false} FilterPicksOut<T(!new)>(keep: T -> bool, s: seq<T>) returns (at: seq<nat>)
    ensures PicksOut(s, Filter(keep, s), at) && forall i: nat :: i < |s| ==> (i in at <==> keep(s[i]))
  {
    if s == [] {
      at := [];
    } else {
      var n := |s| - 1;
      var before := FilterPicksOut(keep, s[..n]);
      PickMore(s[..n], Filter(keep, s[..n]), before, s[n]);
      assert s == s[..n] + [s[n]];
      at := if keep(s[n]) then before + [n] else before;
      forall i: nat | i < |s|
        ensures i in at <==> keep(s[i])
      {
        assert i < n ==> s[..n][i] == s[i];
      }
    }
  }

  /** The nodes returned, in order: the first of each nonempty id, unless that id is merged into another. */
  lemma NodesSurvive(nodes: seq<Node>, edges: seq<Edge>, sim: Similarity, community: map<string, int>, judge: Judge)
    returns (at: seq<nat>)
    requires |nodes| > 1 && Deduplicated(nodes, edges, sim, community, judge).Ok?
    ensures PicksOut(nodes, Deduplicated(nodes, edges, sim, community, judge).value.0, at)
    ensures var remap := Renaming(Unique(nodes), AllLinks(sim, community, judge, Unique(nodes)));
            forall i: nat :: i < |nodes| ==> (i in at <==> FirstOfItsId(nodes, i) && nodes[i].id !in remap)
  {
    var links := AllLinks(sim, community, judge, Unique(nodes));
    if |Unique(nodes)| <= 1 { LoneNodeStays(Unique(nodes), links); }
    at := KeptArePicked(nodes, Renaming(Unique(nodes), links));
  }

  lemma KeptArePicked(nodes: seq<Node>, remap: map<string, string>) returns (at: seq<nat>)
    ensures PicksOut(nodes, if remap == map[] then Unique(nodes) else Filter((n: Node) => n.id !in remap, Unique(nodes)), at)
    ensures forall i: nat :: i < |nodes| ==> (i in at <==> FirstOfItsId(nodes, i) && nodes[i].id !in remap)
  {
    var unique := Unique(nodes);
    var first := UniqueKeepsFirsts(nodes);
    at := first;
    if remap != map[] {
      var kept := FilterPicksOut((n: Node) => n.id !in remap, unique);
      at := Composed(nodes, unique, first, Filter((n: Node) => n.id !in remap, unique), kept);
      forall i: nat | i < |nodes|
        ensures i in at <==> FirstOfItsId(nodes, i) && nodes[i].id !in remap
      {
        if i in first { assert unique[IndexOf(first, i)] == nodes[i]; }
      }
    }
  }

  lemma Composed<T>(all: seq<T>, some: seq<T>, first: seq<nat>, few: seq<T>, second: seq<nat>) returns (at: seq<nat>)
    requires PicksOut(all, some, first) && PicksOut(some, few, second)
    ensures PicksOut(all, few, at)
    ensures forall i :: i in at ==> i in first
    ensures forall k :: 0 <= k < |first| ==> (first[k] in at <==> k in second)
  {
    at := seq(|second|, j requires 0 <= j < |second| => first[second[j]]);
    forall k | 0 <= k < |first|
      ensures first[k] in at <==> k in second
    {
      if k in second { assert at[IndexOf(second, k)] == first[k]; }
      if first[k] in at { assert second[IndexOf(at, first[k])] == k; }
    }
  }

  lemma LoneNodeStays(nodes: seq<Node>, links: Links<string>)
    requires |nodes| <= 1
    ensures Renaming(nodes, links) == map[]
  {
    RenamingIsCanonical(nodes, links);
    if nodes != [] { assert Ids(nodes) == {nodes[0].id}; }
  }

  // ---- what the pipeline guarantees ----

  /** The survivor of a class belongs to the class, is shared by the whole class, and survives itself. */
  lemma SurvivorOfClass(nodes: seq<Node>, links: Links<string>, id: string, other: string)
    requires id in Ids(nodes) && other in Ids(nodes)
    ensures Survivor(nodes, links, id) in Ids(nodes)
    ensures Connected(links, id, Survivor(nodes, links, id))
    ensures Survivor(nodes, links, id) == Survivor(nodes, links, other) <==> Connected(links, id, other)
  {
    ClassMembers(nodes, links, id);
    ClassMembers(nodes, links, other);
    if Connected(links, id, other) {
      SameClass(nodes, links, id, other);
    }
    if Survivor(nodes, links, id) == Survivor(nodes, links, other) {
      Symmetric(links, other, Survivor(nodes, links, other));
      Transitive(links, id, Survivor(nodes, links, id), other);
    }
  }

  lemma {:induction false} SameClass(nodes: seq<Node>, links: Links<string>, id: string, other: string)
    requires Connected(links, id, other)
    ensures Class(nodes, links, id) == Class(nodes, links, other)
  {
    if nodes != [] {
      SameClass(nodes[..|nodes| - 1], links, id, other);
      var last := nodes[|nodes| - 1].id;
      Symmetric(links, id, other);
      if Connected(links, id, last) { Transitive(links, other, id, last); }
      if Connected(links, other, last) { Transitive(links, id, other, last); }
    }
  }

  /** Every removed id goes to a survivor of its own class; the renaming is idempotent;
      two nodes are merged exactly when the closure relates them. */
  lemma RenamingIsCanonical(nodes: seq<Node>, links: Links<string>)
    ensures var remap := Renaming(nodes, links);
            && (forall id :: id in remap ==>
                  && id in Ids(nodes) && remap[id] in Ids(nodes)
                  && remap[id] != id && remap[id] !in remap
                  && Connected(links, id, remap[id]))
            && (forall a, b :: a in Ids(nodes) && b in Ids(nodes) ==>
                  (Target(remap, a) == Target(remap, b) <==> Connected(links, a, b)))
  {
    var remap := Renaming(nodes, links);
    forall id | id in remap
      ensures remap[id] in Ids(nodes) && remap[id] !in remap && Connected(links, id, remap[id])
    {
      SurvivorOfClass(nodes, links, id, id);
      SurvivorOfClass(nodes, links, id, remap[id]);
    }
    forall a, b | a in Ids(nodes) && b in Ids(nodes)
      ensures Target(remap, a) == Target(remap, b) <==> Connected(links, a, b)
    {
      SurvivorOfClass(nodes, links, a, b);
    }
  }

  lemma LinksAvoidCode(sim: Similarity, community: map<string, int>, judge: Judge, nodes: seq<Node>)
    ensures EndsIn(AllLinks(sim, community, judge, nodes), NonCodeIds(nodes))
  {
    CandidatesAreNodes(sim, nodes);
    var cands, scored := Candidates(sim, nodes), ScoredLinks(sim, community, nodes);
    AmbiguousAreCandidates(sim, community, cands, scored, |cands|);
    forall link | link in AllLinks(sim, community, judge, nodes)
      ensures link.0 in NonCodeIds(nodes) && link.1 in NonCodeIds(nodes)
    {
    }
  }

  /** No code node is ever removed, and none absorbs another node. */
  lemma CodeIsUntouched(sim: Similarity, community: map<string, int>, judge: Judge, nodes: seq<Node>, code: Node)
    requires IdsDecideNodes(nodes) && code in nodes && code.IsCode()
    ensures var remap := Renaming(nodes, AllLinks(sim, community, judge, nodes));
            code.id !in remap && forall id :: id in remap ==> remap[id] != code.id
  {
    var links := AllLinks(sim, community, judge, nodes);
    var remap := Renaming(nodes, links);
    LinksAvoidCode(sim, community, judge, nodes);
    RenamingIsCanonical(nodes, links);
    forall id | id in remap
      ensures id != code.id && remap[id] != code.id
    {
      ConnectedEndsIn(links, NonCodeIds(nodes), id, remap[id]);
    }
  }

  /** The edge with its ends renamed, under the standard keys alone, and everything else as it was. */
  ghost predicate IsImage(before: Edge, after: Edge, remap: map<string, string>) {
    var src, tgt := Endpoint(before.source, before.from_), Endpoint(before.target, before.to);
    && src.Some? && tgt.Some? && Joins(before, src.value, tgt.value)
    && after.source == Some(Some(Target(remap, src.value)))
    && after.target == Some(Some(Target(remap, tgt.value)))
    && after.source != after.target && after.from_ == None && after.to == None && after.attrs == before.attrs
  }

  /** A standard key decides the end even when it holds nothing; the other key stands in only where it is missing. */
  lemma EndpointIff(main: Option<Option<string>>, fallback: Option<string>, id: string)
    ensures Endpoint(main, fallback) == Some(id) <==> main == Some(Some(id)) || (main == None && fallback == Some(id))
  {
  }

  /** Both ends are there and are not renamed to one id. */
  ghost predicate HasImage(e: Edge, remap: map<string, string>) {
    exists src, tgt :: Joins(e, src, tgt) && Target(remap, src) != Target(remap, tgt)
  }

  ghost predicate Joins(e: Edge, src: string, tgt: string) {
    && (e.source == Some(Some(src)) || (e.source == None && e.from_ == Some(src)))
    && (e.target == Some(Some(tgt)) || (e.target == None && e.to == Some(tgt)))
  }

  /** `after[j]` is the image of the edge at `at[j]`, positions ascend, and no edge that has an image is left out. */
  ghost predicate ImagesInOrder(before: seq<Edge>, after: seq<Edge>, remap: map<string, string>, at: seq<nat>) {
    && |at| == |after|
    && (forall j :: 0 <= j < |at| ==> at[j] < |before| && IsImage(before[at[j]], after[j], remap))
    && (forall j, k :: 0 <= j < k < |at| ==> at[j] < at[k])
    && (forall i: nat :: i < |before| && HasImage(before[i], remap) ==> i in at)
  }

  lemma {:induction false} NoMoreImages(before: seq<Edge>, after: seq<Edge>, remap: map<string, string>, at: seq<nat>, e: Edge)
    requires ImagesInOrder(before, after, remap, at) && !HasImage(e, remap)
    ensures ImagesInOrder(before + [e], after, remap, at)
  {
    assert forall i :: 0 <= i < |before| ==> (before + [e])[i] == before[i];
  }

  lemma {:induction false} OneMoreImage(before: seq<Edge>, after: seq<Edge>, remap: map<string, string>, at: seq<nat>,
                                        e: Edge, image: Edge)
    requires ImagesInOrder(before, after, remap, at) && IsImage(e, image, remap)
    ensures ImagesInOrder(before + [e], after + [image], remap, at + [|before|])
  {
    var edges, images, at' := before + [e], after + [image], at + [|before|];
    assert edges[|before|] == e && images[|after|] == image && at'[|at|] == |before|;
    forall j | 0 <= j < |at|
      ensures edges[at'[j]] == before[at[j]] && images[j] == after[j]
    {
    }
    forall i: nat | i < |edges| && HasImage(edges[i], remap)
      ensures i in at'
    {
      if i < |before| { assert edges[i] == before[i]; }
    }
  }

  /** The rewrite keeps one image of every edge that has one, in order, and nothing else. */
  lemma {:induction false} RewriteIsComplete(edges: seq<Edge>, remap: map<string, string>) returns (at: seq<nat>)
    ensures ImagesInOrder(edges, RewriteEdges(edges, remap), remap, at)
  {
    if edges == [] {
      at := [];
    } else {
      var n := |edges| - 1;
      var front, last := edges[..n], edges[n];
      at := RewriteIsComplete(front, remap);
      HasImageIff(last, remap);
      assert edges == front + [last];
      if RewriteEdge(last, remap) == [] {
        NoMoreImages(front, RewriteEdges(front, remap), remap, at, last);
      } else {
        OneMoreImage(front, RewriteEdges(front, remap), remap, at, last, RewriteEdge(last, remap)[0]);
        at := at + [n];
      }
    }
  }

  lemma HasImageIff(e: Edge, remap: map<string, string>)
    ensures HasImage(e, remap) <==> RewriteEdge(e, remap) != []
  {
    var src, tgt := Endpoint(e.source, e.from_), Endpoint(e.target, e.to);
    if src.Some? && tgt.Some? { assert Joins(e, src.value, tgt.value); }
    if s, t :| Joins(e, s, t) && Target(remap, s) != Target(remap, t) {
      EndpointIff(e.source, e.from_, s);
      EndpointIff(e.target, e.to, t);
    }
  }

  /** What the pipeline does to the edges: nothing when it merges nothing, else one image of each edge that has one. */
  lemma EdgesSurvive(nodes: seq<Node>, edges: seq<Edge>, sim: Similarity, community: map<string, int>, judge: Judge)
    returns (at: seq<nat>)
    requires |nodes| > 1 && Deduplicated(nodes, edges, sim, community, judge).Ok?
    ensures var es := Deduplicated(nodes, edges, sim, community, judge).value.1;
            var remap := Renaming(Unique(nodes), AllLinks(sim, community, judge, Unique(nodes)));
            if |Unique(nodes)| <= 1 || remap == map[] then es == edges else ImagesInOrder(edges, es, remap, at)
  {
    at := RewriteIsComplete(edges, Renaming(Unique(nodes), AllLinks(sim, community, judge, Unique(nodes))));
  }

  /** After the rewrite no edge is a self-loop, and an endpoint that named a node still names one. */
  lemma {:induction false} RewriteKeepsEndpoints(edges: seq<Edge>, nodes: seq<Node>, links: Links<string>, e: Edge)
    requires e in RewriteEdges(edges, Renaming(nodes, links))
    ensures exists before :: before in edges && IsImage(before, e, Renaming(nodes, links))
                             && (Endpoint(before.source, before.from_).value in Ids(nodes) ==>
                                   e.source.value.value in SurvivingIds(nodes, links))
                             && (Endpoint(before.target, before.to).value in Ids(nodes) ==>
                                   e.target.value.value in SurvivingIds(nodes, links))
  {
    var n := |edges| - 1;
    if e in RewriteEdges(edges[..n], Renaming(nodes, links)) {
      RewriteKeepsEndpoints(edges[..n], nodes, links, e);
    } else {
      RenamingIsCanonical(nodes, links);
      assert e in RewriteEdge(edges[n], Renaming(nodes, links));
      assert edges[n] in edges && IsImage(edges[n], e, Renaming(nodes, links));
    }
  }

  ghost function SurvivingIds(nodes: seq<Node>, links: Links<string>): set<string> {
    Ids(nodes) - Renaming(nodes, links).Keys
  }

  /** An end that named an input node names an output node; nothing but the ends changes. */
  ghost predicate Follows(before: Edge, after: Edge, input: set<string>, output: set<string>) {
    var src, tgt, src', tgt' := Endpoint(before.source, before.from_), Endpoint(before.target, before.to),
                                Endpoint(after.source, after.from_), Endpoint(after.target, after.to);
    && after.attrs == before.attrs && (src.Some? <==> src'.Some?) && (tgt.Some? <==> tgt'.Some?)
    && (src.Some? && src.value in input ==> src'.value in output)
    && (tgt.Some? && tgt.value in input ==> tgt'.value in output)
  }

  lemma SurvivorsAreKept(nodes: seq<Node>, remap: map<string, string>)
    ensures forall n :: n in Filter((n: Node) => n.id !in remap, nodes) <==> n in nodes && n.id !in remap
    ensures Ids(Filter((n: Node) => n.id !in remap, nodes)) == Ids(nodes) - remap.Keys
  {
    var kept := Filter((n: Node) => n.id !in remap, nodes);
    forall n
      ensures n in kept <==> n in nodes && n.id !in remap
    {
      FilterMembers((n: Node) => n.id !in remap, nodes, n);
    }
    forall id | id in Ids(nodes) - remap.Keys
      ensures id in Ids(kept)
    {
      var n :| n in nodes && n.id == id;
      assert n in kept;
    }
  }

  /** The returned graph: one node per id, all of them input nodes, all code nodes among them, no edge end lost. */
  lemma OutputIsWellFormed(nodes: seq<Node>, edges: seq<Edge>, sim: Similarity, community: map<string, int>, judge: Judge)
    requires |nodes| > 1 && Deduplicated(nodes, edges, sim, community, judge).Ok?
    ensures var (ns, es) := Deduplicated(nodes, edges, sim, community, judge).value;
            && IdsDecideNodes(ns) && (forall n :: n in ns ==> n in nodes)
            && (forall c :: c in Unique(nodes) && c.IsCode() ==> c in ns)
            && forall e :: e in es ==> exists before :: before in edges && Follows(before, e, Ids(nodes) - {""}, Ids(ns))
  {
    var unique := Unique(nodes);
    var links := AllLinks(sim, community, judge, unique);
    var remap := Renaming(unique, links);
    var (ns, es) := Deduplicated(nodes, edges, sim, community, judge).value;
    UniqueIsUnique(nodes);
    SurvivorsAreKept(unique, remap);
    if |unique| <= 1 || remap == map[] {
      assert forall e :: e in es ==> Follows(e, e, Ids(nodes) - {""}, Ids(ns));
    } else {
      forall c | c in unique && c.IsCode()
        ensures c in ns
      {
        CodeIsUntouched(sim, community, judge, unique, c);
      }
      forall e | e in es
        ensures exists before :: before in edges && Follows(before, e, Ids(unique), SurvivingIds(unique, links))
      {
        ImageFollows(edges, unique, links, e);
      }
    }
  }

  lemma ImageFollows(edges: seq<Edge>, nodes: seq<Node>, links: Links<string>, e: Edge)
    requires e in RewriteEdges(edges, Renaming(nodes, links))
    ensures exists before :: before in edges && Follows(before, e, Ids(nodes), SurvivingIds(nodes, links))
  {
    RewriteKeepsEndpoints(edges, nodes, links, e);
    var before :| before in edges && IsImage(before, e, Renaming(nodes, links))
                  && (Endpoint(before.source, before.from_).value in Ids(nodes) ==>
                        e.source.value.value in SurvivingIds(nodes, links))
                  && (Endpoint(before.target, before.to).value in Ids(nodes) ==>
                        e.target.value.value in SurvivingIds(nodes, links));
    assert Follows(before, e, Ids(nodes), SurvivingIds(nodes, links));
  }
}
