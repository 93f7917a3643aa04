/** The transitive impact map, and the watch planner's blast radius. */
module ImpactMap {
  import opened Basics

  datatype GraphEdge = GraphEdge(source: string, target: string, isBroken: bool)

  // ---------- Paths ----------

  /** a links to b by an edge that is not broken. */
  predicate Links(edges: seq<GraphEdge>, a: string, b: string) { GraphEdge(a, b, false) in edges }

  /** A walk over one edge or more. */
  ghost predicate IsPath(edges: seq<GraphEdge>, p: seq<string>, from: string, to: string) {
    && |p| >= 2 && p[0] == from && p[|p| - 1] == to
    && forall i :: 0 <= i < |p| - 1 ==> Links(edges, p[i], p[i + 1])
  }

  /** from depends on to, directly or through others. */
  ghost predicate Reaches(edges: seq<GraphEdge>, from: string, to: string) {
    exists p :: IsPath(edges, p, from, to)
  }

  lemma LinkReaches(edges: seq<GraphEdge>, from: string, to: string)
    requires Links(edges, from, to)
    ensures Reaches(edges, from, to)
  {
    assert IsPath(edges, [from, to], from, to);
  }

  lemma LinkThenReaches(edges: seq<GraphEdge>, from: string, via: string, to: string)
    requires Links(edges, from, via) && Reaches(edges, via, to)
    ensures Reaches(edges, from, to)
  {
    var p :| IsPath(edges, p, via, to);
    assert IsPath(edges, [from] + p, from, to);
  }

  /** A set that holds whatever links to the goal or to a member holds all that reach the goal. */
  lemma {:induction false} ClosedHoldsPath(edges: seq<GraphEdge>, members: set<string>, p: seq<string>, from: string,
                                           to: string)
    requires forall c :: Links(edges, c, to) ==> c in members
    requires forall c, m :: m in members && Links(edges, c, m) ==> c in members
    requires IsPath(edges, p, from, to)
    ensures from in members
  {
    assert Links(edges, p[0], p[1]);
    if |p| > 2 {
      var tail := p[1..];
      forall i | 0 <= i < |tail| - 1 ensures Links(edges, tail[i], tail[i + 1]) {
        assert Links(edges, p[i + 1], p[i + 2]);
      }
      ClosedHoldsPath(edges, members, tail, p[1], to);
    }
  }

  // ---------- The map ----------

  /** For each target the distinct sources that link to it, in the order they first appear. */
  function DirectImpacts(edges: seq<GraphEdge>): map<string, seq<string>> {
    if edges == [] then map[]
    else
      var sofar, e := DirectImpacts(edges[..|edges| - 1]), edges[|edges| - 1];
      if e.isBroken then sofar
      else
        var sources := if e.target in sofar then sofar[e.target] else [];
        sofar[e.target := if e.source in sources then sources else sources + [e.source]]
  }

  lemma {:induction false} DirectExactly(edges: seq<GraphEdge>)
    ensures forall t :: t in DirectImpacts(edges) <==> exists c :: Links(edges, c, t)
    ensures forall t, c :: t in DirectImpacts(edges) ==> (c in DirectImpacts(edges)[t] <==> Links(edges, c, t))
  {
    if edges != [] {
      var front, e := edges[..|edges| - 1], edges[|edges| - 1];
      DirectExactly(front);
      assert edges == front + [e];
      assert forall c, t :: Links(edges, c, t) <==> Links(front, c, t) || e == GraphEdge(c, t, false);
      assert !e.isBroken ==> Links(edges, e.source, e.target);
    }
  }

  method CollectDirect(edges: seq<GraphEdge>) returns (direct: map<string, seq<string>>)
    ensures direct == DirectImpacts(edges)
  {
    direct := map[];
    for i := 0 to |edges|
      invariant direct == DirectImpacts(edges[..i])
    {
      assert edges[..i + 1][..i] == edges[..i];
      var e := edges[i];
      if !e.isBroken {
        if e.target !in direct { direct := direct[e.target := []]; }
        if e.source !in direct[e.target] { direct := direct[e.target := direct[e.target] + [e.source]]; }
      }
    }
    assert edges[..|edges|] == edges;
  }

  function ImpactsOf(direct: map<string, seq<string>>, c: string): seq<string> { if c in direct then direct[c] else [] }

  /** Every value that the search can meet. */
  function Sources(edges: seq<GraphEdge>): set<string> { set e | e in edges :: e.source }

  /** What the search keeps: everything seen reaches the goal, nothing is visited twice, and
      whatever links to the goal or to a visited concept is visited or waits. */
  ghost predicate Searching(edges: seq<GraphEdge>, goal: string, visited: seq<string>, queue: seq<string>) {
    && NoDuplicates(visited)
    && (forall c :: c in visited || c in queue ==> Reaches(edges, c, goal) && c in Sources(edges))
    && (forall c :: Links(edges, c, goal) ==> c in visited || c in queue)
    && forall c, v :: v in visited && Links(edges, c, v) ==> c in visited || c in queue
  }

  method Dependents(edges: seq<GraphEdge>, direct: map<string, seq<string>>, goal: string)
    returns (visited: seq<string>)
    requires direct == DirectImpacts(edges)
    ensures NoDuplicates(visited)
    ensures forall c :: c in visited <==> Reaches(edges, c, goal)
  {
    visited := [];
    var queue := ImpactsOf(direct, goal);
    SearchStarts(edges, goal);
    while |queue| > 0
      invariant Searching(edges, goal, visited, queue)
      decreases |Sources(edges) - Elements(visited)|, |queue|
    {
      var current := queue[0];
      SearchStep(edges, goal, visited, queue);
      queue := queue[1..];
      if current !in visited {
        visited := visited + [current];
        queue := queue + ImpactsOf(direct, current);
      }
    }
    SearchEnds(edges, goal, visited);
  }

  function Elements(s: seq<string>): set<string> { set c | c in s }

  lemma SearchStarts(edges: seq<GraphEdge>, goal: string)
    ensures Searching(edges, goal, [], ImpactsOf(DirectImpacts(edges), goal))
  {
    DirectExactly(edges);
    forall c | c in ImpactsOf(DirectImpacts(edges), goal) ensures Reaches(edges, c, goal) && c in Sources(edges) {
      LinkReaches(edges, c, goal);
    }
  }

  lemma SearchStep(edges: seq<GraphEdge>, goal: string, visited: seq<string>, queue: seq<string>)
    requires Searching(edges, goal, visited, queue) && queue != []
    ensures queue[0] in visited ==> Searching(edges, goal, visited, queue[1..])
    ensures queue[0] !in visited ==>
              Searching(edges, goal, visited + [queue[0]], queue[1..] + ImpactsOf(DirectImpacts(edges), queue[0]))
              && |Sources(edges) - Elements(visited + [queue[0]])| < |Sources(edges) - Elements(visited)|
  {
    var current := queue[0];
    assert queue == [current] + queue[1..];
    if current !in visited {
      SearchVisits(edges, goal, visited, queue[1..], current);
      assert Sources(edges) - Elements(visited + [current]) == Sources(edges) - Elements(visited) - {current};
    }
  }

  lemma SearchVisits(edges: seq<GraphEdge>, goal: string, visited: seq<string>, rest: seq<string>, current: string)
    requires Searching(edges, goal, visited, [current] + rest) && current !in visited
    ensures Searching(edges, goal, visited + [current], rest + ImpactsOf(DirectImpacts(edges), current))
  {
    DirectExactly(edges);
    var impacts := ImpactsOf(DirectImpacts(edges), current);
    assert Reaches(edges, current, goal) by { assert current in [current] + rest; }
    forall c | c in impacts ensures Reaches(edges, c, goal) && c in Sources(edges) {
      LinkThenReaches(edges, c, current, goal);
    }
    forall c, v | v in visited + [current] && Links(edges, c, v)
      ensures c in visited + [current] || c in rest + impacts
    {
      if v == current { assert c in impacts; }
    }
  }

  lemma SearchEnds(edges: seq<GraphEdge>, goal: string, visited: seq<string>)
    requires Searching(edges, goal, visited, [])
    ensures forall c :: c in visited <==> Reaches(edges, c, goal)
  {
    forall c | Reaches(edges, c, goal) ensures c in visited {
      var p :| IsPath(edges, p, c, goal);
      ClosedHoldsPath(edges, Elements(visited), p, c, goal);
    }
  }

  /** The map lists, for exactly the concepts that something links to, without repetition exactly
      the concepts that depend on them. */
  ghost predicate IsImpactMap(edges: seq<GraphEdge>, impacts: map<string, seq<string>>) {
    && (forall t :: t in impacts <==> exists c :: Links(edges, c, t))
    && (forall t :: t in impacts ==> NoDuplicates(impacts[t]))
    && forall t, c :: t in impacts ==> (c in impacts[t] <==> Reaches(edges, c, t))
  }

  method ComputeImpactMap(edges: seq<GraphEdge>) returns (impacts: map<string, seq<string>>)
    ensures IsImpactMap(edges, impacts)
  {
    var direct := CollectDirect(edges);
    DirectExactly(edges);
    impacts := map[];
    var keys := direct.Keys;
    while keys != {}
      invariant keys <= direct.Keys && impacts.Keys == direct.Keys - keys
      invariant forall t :: t in impacts ==> NoDuplicates(impacts[t])
      invariant forall t, c :: t in impacts ==> (c in impacts[t] <==> Reaches(edges, c, t))
      decreases |keys|
    {
      var t :| t in keys;
      var visited := Dependents(edges, direct, t);
      impacts := impacts[t := visited];
      keys := keys - {t};
    }
  }

  // ---------- The watch planner ----------

  datatype Document = Document(conceptId: string, filePath: string)

  datatype WatchImpactPlan = WatchImpactPlan(
    matchedConceptId: Option<string>,
    impactedConceptIds: seq<string>,
    requiresFullRebuild: bool,
    affectedTargetTypes: seq<string>)

  predicate EndsWith(s: string, suffix: string) { |suffix| <= |s| && s[|s| - |suffix|..] == suffix }

  predicate IsConfiguration(baseName: string) {
    baseName == "akcp.yaml" || baseName == "capabilities.json"
    || EndsWith(baseName, ".policy.yaml") || EndsWith(baseName, ".policy.json")
  }

  function FirstMatch(documents: seq<Document>, matches: Document -> bool): (d: Option<Document>)
    ensures d.Some? ==> d.value in documents && matches(d.value)
    ensures d.None? ==> forall x :: x in documents ==> !matches(x)
  {
    if documents == [] then None
    else if matches(documents[0]) then Some(documents[0])
    else FirstMatch(documents[1..], matches)
  }

  function ConceptIds(documents: seq<Document>): seq<string> {
    seq(|documents|, i requires 0 <= i < |documents| => documents[i].conceptId)
  }

  predicate NotForConcepts(t: string) { t == "policy-bundle" || t == "mcp-tools" }

  /** The configured types without the policy and tool types, unless nothing else is configured. */
  function AffectedTypes(targetTypes: seq<string>): (affected: seq<string>)
    ensures affected == [] <==> targetTypes == []
    ensures forall t :: t in affected ==>
              t in targetTypes && (NotForConcepts(t) ==> forall u :: u in targetTypes ==> NotForConcepts(u))
    ensures forall t :: t in targetTypes && !NotForConcepts(t) ==> t in affected
    ensures (forall t :: t in targetTypes ==> NotForConcepts(t)) ==> affected == targetTypes
  {
    var affected := Filter(targetTypes, t => !NotForConcepts(t));
    if affected != [] then
      assert affected[0] in affected;
      affected
    else
      assert forall u :: u in targetTypes && !NotForConcepts(u) ==> u in affected;
      targetTypes
  }

  /** By name: the files that ask for a full rebuild, and the target types that a changed concept
      affects, the policy and tool types only where nothing else is configured. */
  lemma PlanByName(baseName: string, targetTypes: seq<string>, t: string)
    ensures IsConfiguration(baseName)
       <==> baseName in {"akcp.yaml", "capabilities.json"}
            || exists stem :: baseName in {stem + ".policy.yaml", stem + ".policy.json"}
    ensures t in AffectedTypes(targetTypes)
       <==> t in targetTypes
            && (t in {"policy-bundle", "mcp-tools"} ==>
                  forall u :: u in targetTypes ==> u in {"policy-bundle", "mcp-tools"})
  {
    EndsWithExactly(baseName, ".policy.yaml");
    EndsWithExactly(baseName, ".policy.json");
    assert forall u :: NotForConcepts(u) <==> u in {"policy-bundle", "mcp-tools"};
  }

  lemma EndsWithExactly(s: string, suffix: string)
    ensures EndsWith(s, suffix) <==> exists stem :: s == stem + suffix
  {
    if EndsWith(s, suffix) { assert s == s[..|s| - |suffix|] + suffix; }
  }

  /** Whether a document is the changed file is decided by the file system's paths: matches. */
  method ComputeWatchImpactPlan(baseName: string, matches: Document -> bool, documents: seq<Document>,
                                edges: seq<GraphEdge>, targetTypes: seq<string>)
    returns (plan: WatchImpactPlan)
    ensures plan.requiresFullRebuild <==> IsConfiguration(baseName) || FirstMatch(documents, matches).None?
    ensures plan.requiresFullRebuild ==> plan.matchedConceptId.None? && plan.affectedTargetTypes == targetTypes
    ensures IsConfiguration(baseName) ==>
              |plan.impactedConceptIds| == |documents|
              && forall i :: 0 <= i < |documents| ==> plan.impactedConceptIds[i] == documents[i].conceptId
    ensures plan.requiresFullRebuild && !IsConfiguration(baseName) ==> plan.impactedConceptIds == []
    ensures !plan.requiresFullRebuild ==>
              plan.matchedConceptId == Some(FirstMatch(documents, matches).value.conceptId)
              && IsBlastRadius(edges, plan.matchedConceptId.value, plan.impactedConceptIds)
              && plan.affectedTargetTypes == AffectedTypes(targetTypes)
  {
    if IsConfiguration(baseName) {
      return WatchImpactPlan(None, ConceptIds(documents), true, targetTypes);
    }
    var matched := FirstMatch(documents, matches);
    if matched.None? {
      return WatchImpactPlan(None, [], true, targetTypes);
    }
    var id := matched.value.conceptId;
    var impacts := ComputeImpactMap(edges);
    var downstream := if id in impacts then impacts[id] else [];
    var impacted := WithoutRepeats([id] + downstream);
    ImpactedExactly(edges, impacts, id);
    plan := WatchImpactPlan(Some(id), impacted, false, AffectedTypes(targetTypes));
  }

  /** The changed concept and exactly those that depend on it, each once. */
  ghost predicate IsBlastRadius(edges: seq<GraphEdge>, id: string, impacted: seq<string>) {
    NoDuplicates(impacted) && forall c :: c in impacted <==> c == id || Reaches(edges, c, id)
  }

  lemma ImpactedExactly(edges: seq<GraphEdge>, impacts: map<string, seq<string>>, id: string)
    requires IsImpactMap(edges, impacts)
    ensures IsBlastRadius(edges, id, WithoutRepeats([id] + if id in impacts then impacts[id] else []))
  {
    forall c | Reaches(edges, c, id) ensures id in impacts {
      var p :| IsPath(edges, p, c, id);
      assert Links(edges, p[|p| - 2], p[|p| - 1]);
    }
  }

  /** Whatever depends on an impacted concept is impacted, and it is the least such set. */
  lemma BlastRadiusIsClosed(edges: seq<GraphEdge>, id: string, impacted: seq<string>, others: set<string>)
    requires IsBlastRadius(edges, id, impacted)
    ensures forall c, m :: m in impacted && Links(edges, c, m) ==> c in impacted
    ensures id in others && (forall c, m :: m in others && Links(edges, c, m) ==> c in others) ==>
            Elements(impacted) <= others
  {
    forall c, m | m in impacted && Links(edges, c, m) ensures c in impacted {
      if m == id { LinkReaches(edges, c, id); } else { LinkThenReaches(edges, c, m, id); }
    }
    if id in others && (forall c, m :: m in others && Links(edges, c, m) ==> c in others) {
      forall c | c in impacted ensures c in others {
        if c != id {
          var p :| IsPath(edges, p, c, id);
          ClosedHoldsPath(edges, others, p, c, id);
        }
      }
    }
  }
}
