/** Building a candidate graph and replacing the current one (`__init__`, `refresh_from`):
    all or nothing, with an optional error-correction hook. */
module Refresh {
  import opened Wrappers
  import opened Components
  import opened Digraph
  import opened Collections
  import opened Graph
  import opened Validation

  /** The error-correction hook. It is given the candidate graph and returns the graph
      it corrected, or `None` when it raises. */
  type Hook = Staging -> Option<Staging>

  /** The graph after a refresh attempt, and the error the attempt raised, if any. */
  datatype Refreshed = Refreshed(graph: ComponentGraph, error: Option<Error>)

  /** No later component in `cs` has the same id as the one at `k`. */
  ghost predicate LastWithId(cs: seq<Component>, k: int)
    requires 0 <= k < |cs|
  {
    forall k' :: k < k' < |cs| ==> cs[k'].id != cs[k].id
  }

  /** Adding the components as nodes in iteration order: a node is keyed by its
      component's id, and the node ids are exactly the components' ids. */
  function BuildNodes(cs: seq<Component>): (m: map<int, Component>)
    ensures forall i :: i in m ==> m[i].id == i
    ensures m.Keys == set k | 0 <= k < |cs| :: cs[k].id
  {
    if cs == [] then map[]
    else
      var init := cs[..|cs| - 1];
      var last := cs[|cs| - 1];
      assert forall k :: 0 <= k < |init| ==> init[k] == cs[k];
      assert (set k | 0 <= k < |cs| :: cs[k].id) == (set k | 0 <= k < |init| :: init[k].id) + {last.id};
      BuildNodes(init)[last.id := last]
  }

  /** Every node's data is one of the components. */
  lemma {:induction false} BuildNodesFrom(cs: seq<Component>, i: int)
    requires i in BuildNodes(cs)
    ensures exists k :: 0 <= k < |cs| && cs[k] == BuildNodes(cs)[i]
    decreases |cs|
  {
    var init := cs[..|cs| - 1];
    var last := cs[|cs| - 1];
    if i != last.id {
      BuildNodesFrom(init, i);
      var k :| 0 <= k < |init| && init[k] == BuildNodes(init)[i];
      assert cs[k] == init[k];
    } else {
      assert cs[|cs| - 1] == BuildNodes(cs)[i];
    }
  }

  /** When several components share an id, the one added last is the node's data. */
  lemma {:induction false} BuildNodesLastWins(cs: seq<Component>, k: int)
    requires 0 <= k < |cs| && LastWithId(cs, k)
    ensures cs[k].id in BuildNodes(cs) && BuildNodes(cs)[cs[k].id] == cs[k]
    decreases |cs|
  {
    var init := cs[..|cs| - 1];
    if k < |cs| - 1 {
      assert init[k] == cs[k];
      assert LastWithId(init, k) by {
        forall k' | k < k' < |init|
          ensures init[k'].id != init[k].id
        {
          assert init[k'] == cs[k'];
        }
      }
      BuildNodesLastWins(init, k);
    }
  }

  /** All components have distinct ids. */
  ghost predicate DistinctIds(cs: seq<Component>)
  {
    forall k, k' :: 0 <= k < k' < |cs| ==> cs[k].id != cs[k'].id
  }

  /** With distinct ids, the node data are exactly the given components. */
  lemma BuildNodesDistinct(cs: seq<Component>)
    requires DistinctIds(cs)
    ensures BuildNodes(cs).Values == set k | 0 <= k < |cs| :: cs[k]
  {
    var m := BuildNodes(cs);
    forall k | 0 <= k < |cs|
      ensures cs[k] in m.Values
    {
      assert LastWithId(cs, k);
      BuildNodesLastWins(cs, k);
    }
    forall c | c in m.Values
      ensures exists k :: 0 <= k < |cs| && cs[k] == c
    {
      var i := PickKey(m, c);
      BuildNodesFrom(cs, i);
    }
  }

  /** The ids named by the connections. */
  function Endpoints(conns: set<Connection>): set<int>
  {
    (set e | e in conns :: e.start) + (set e | e in conns :: e.end)
  }

  /** The graph `refresh_from` builds before validating it: one node per component, and
      one edge per connection, which also creates (data-less) nodes for ids that no
      component has. A node's data is an input component with that id, the last one
      when several share it. */
  function Candidate(cs: seq<Component>, conns: set<Connection>): (g: Staging)
    ensures g.edges == conns
    ensures forall i :: i in g.ids <==>
      (exists k :: 0 <= k < |cs| && cs[k].id == i) || (exists e :: e in conns && (e.start == i || e.end == i))
    ensures forall i :: i in g.data <==> exists k :: 0 <= k < |cs| && cs[k].id == i
    ensures forall k :: 0 <= k < |cs| && LastWithId(cs, k) ==> g.data[cs[k].id] == cs[k]
    ensures forall i :: i in g.data ==> exists k :: 0 <= k < |cs| && cs[k] == g.data[i]
  {
    var m := BuildNodes(cs);
    var g := DiGraph(m.Keys + Endpoints(conns), m, conns);
    assert forall e :: e in conns ==> e.start in Endpoints(conns) && e.end in Endpoints(conns);
    forall k | 0 <= k < |cs| && LastWithId(cs, k)
      ensures g.data[cs[k].id] == cs[k]
    {
      BuildNodesLastWins(cs, k);
    }
    forall i | i in g.data
      ensures exists k :: 0 <= k < |cs| && cs[k] == g.data[i]
    {
      BuildNodesFrom(cs, i);
    }
    forall i | i in g.data
      ensures exists k :: 0 <= k < |cs| && cs[k].id == i
    {
      assert i in set k | 0 <= k < |cs| :: cs[k].id;
    }
    g
  }

  ghost predicate ComponentsValid(cs: seq<Component>, componentValid: Component -> bool)
  {
    forall k :: 0 <= k < |cs| ==> componentValid(cs[k])
  }

  ghost predicate ConnectionsValid(conns: set<Connection>, connectionValid: Connection -> bool)
  {
    forall e :: e in conns ==> connectionValid(e)
  }

  /** `refresh_from`. On any failure the current graph is kept unchanged; on success the
      new graph is valid. Invalid components or connections are refused before anything
      is built. The hook runs only when one is given and the candidate fails validation,
      and its result is always validated again. */
  function RefreshFrom(
    current: ComponentGraph,
    cs: seq<Component>,
    conns: set<Connection>,
    componentValid: Component -> bool,
    connectionValid: Connection -> bool,
    correctErrors: Option<Hook>
  ): (r: Refreshed)
    ensures r.error.Some? ==> r.graph == current
    ensures r.error.None? ==> ValidGraph(r.graph)
    ensures r.error == Some(InvalidGraph(InvalidComponents)) <==> !ComponentsValid(cs, componentValid)
    ensures r.error == Some(InvalidGraph(InvalidConnections)) <==>
      ComponentsValid(cs, componentValid) && !ConnectionsValid(conns, connectionValid)
    ensures r.error == Some(HookRaised) ==> correctErrors.Some?
    ensures correctErrors.None? || ValidGraph(Candidate(cs, conns)) ==>
      && (r.error.None? <==>
            ComponentsValid(cs, componentValid) && ConnectionsValid(conns, connectionValid)
            && ValidGraph(Candidate(cs, conns)))
      && (r.error.None? ==> r.graph == Candidate(cs, conns))
    ensures correctErrors.Some? && !ValidGraph(Candidate(cs, conns)) ==>
      var fixed := correctErrors.value(Candidate(cs, conns));
      && (r.error.None? <==>
            ComponentsValid(cs, componentValid) && ConnectionsValid(conns, connectionValid)
            && fixed.Some? && ValidGraph(fixed.value))
      && (r.error.None? ==> r.graph == fixed.value)
  {
    if exists k | 0 <= k < |cs| :: !componentValid(cs[k]) then
      Refreshed(current, Some(InvalidGraph(InvalidComponents)))
    else if exists e | e in conns :: !connectionValid(e) then
      Refreshed(current, Some(InvalidGraph(InvalidConnections)))
    else
      var candidate := Candidate(cs, conns);
      var corrected :=
        if correctErrors.Some? && Validate(candidate).Fail? then correctErrors.value(candidate)
        else Some(candidate);
      match corrected
      case None => Refreshed(current, Some(HookRaised))
      case Some(g) =>
        match Validate(g)
        case Fail(reason) => Refreshed(current, Some(InvalidGraph(reason)))
        case Pass => Refreshed(g, None)
  }

  /** `__init__`: with neither argument the graph starts empty; with only one, or with
      an empty one, construction fails; otherwise the graph is built as by a refresh
      (without a hook) from the empty graph and validated once more. */
  function NewGraph(
    cs: Option<seq<Component>>,
    conns: Option<set<Connection>>,
    componentValid: Component -> bool,
    connectionValid: Connection -> bool
  ): (r: Result<ComponentGraph, Error>)
    ensures cs.None? && conns.None? ==> r == Ok(Empty)
    ensures (cs.Some? || conns.Some?) && (cs.None? || |cs.value| == 0) ==>
      r == Err(InvalidGraph(MissingComponents))
    ensures cs.Some? && |cs.value| > 0 && (conns.None? || |conns.value| == 0) ==>
      r == Err(InvalidGraph(MissingConnections))
    ensures r.Ok? && r.value != Empty ==>
      && cs.Some? && conns.Some?
      && ValidGraph(r.value)
      && r.value == Candidate(cs.value, conns.value)
    ensures cs.Some? && conns.Some? && |cs.value| > 0 && |conns.value| > 0 ==>
      (r.Ok? <==>
        && ComponentsValid(cs.value, componentValid)
        && ConnectionsValid(conns.value, connectionValid)
        && ValidGraph(Candidate(cs.value, conns.value)))
  {
    if cs.None? && conns.None? then Ok(Empty)
    else if cs.None? || |cs.value| == 0 then Err(InvalidGraph(MissingComponents))
    else if conns.None? || |conns.value| == 0 then Err(InvalidGraph(MissingConnections))
    else
      var refreshed := RefreshFrom(Empty, cs.value, conns.value, componentValid, connectionValid, None);
      if refreshed.error.Some? then Err(refreshed.error.value)
      else
        match Validate(refreshed.graph)
        case Fail(reason) => Err(InvalidGraph(reason))
        case Pass => Ok(refreshed.graph)
  }

  /** A candidate graph in which every node carries data holds exactly the input:
      `components()` returns the input components (when their ids are distinct) and
      `connections()` the input connections. */
  lemma CandidateRoundTrip(cs: seq<Component>, conns: set<Connection>)
    requires DistinctIds(cs)
    requires Candidate(cs, conns).Populated()
    ensures var g: ComponentGraph := Candidate(cs, conns);
      && FilterComponents(g, None, None) == (set k | 0 <= k < |cs| :: cs[k])
      && FilterConnections(g, None, None) == conns
  {
    var g: ComponentGraph := Candidate(cs, conns);
    BuildNodesDistinct(cs);
    assert FilterComponents(g, None, None) == Nodes(g);
  }

  /** Round trip: valid input that forms a valid graph is accepted whatever the hook,
      and afterwards `components()` and `connections()` return exactly the input. */
  lemma RefreshRoundTrip(
    current: ComponentGraph,
    cs: seq<Component>,
    conns: set<Connection>,
    componentValid: Component -> bool,
    connectionValid: Connection -> bool,
    correctErrors: Option<Hook>
  )
    requires DistinctIds(cs)
    ensures var r := RefreshFrom(current, cs, conns, componentValid, connectionValid, correctErrors);
      ComponentsValid(cs, componentValid) && ConnectionsValid(conns, connectionValid)
      && ValidGraph(Candidate(cs, conns)) ==>
        && r.error.None?
        && FilterComponents(r.graph, None, None) == (set k | 0 <= k < |cs| :: cs[k])
        && FilterConnections(r.graph, None, None) == conns
  {
    var r := RefreshFrom(current, cs, conns, componentValid, connectionValid, correctErrors);
    if ComponentsValid(cs, componentValid) && ConnectionsValid(conns, connectionValid)
      && ValidGraph(Candidate(cs, conns))
    {
      CandidateRoundTrip(cs, conns);
    }
  }

  /** A connection naming an id that no component has creates a node without data, so
      without a hook the refresh is refused and the current graph kept. */
  lemma UnknownEndpointRejected(
    current: ComponentGraph,
    cs: seq<Component>,
    conns: set<Connection>,
    componentValid: Component -> bool,
    connectionValid: Connection -> bool,
    e: Connection
  )
    requires e in conns
    requires forall k :: 0 <= k < |cs| ==> cs[k].id != e.end
    ensures var r := RefreshFrom(current, cs, conns, componentValid, connectionValid, None);
      r.error.Some? && r.graph == current
  {
    var g := Candidate(cs, conns);
    assert e.end in g.ids;
    assert e.end !in g.data;
  }
}
