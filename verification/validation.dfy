/** The five-stage validator (`validate` and its `_validate_*` checks). Each stage is an
    executable check that fails fast with the reason `validate` reports, and is proved
    equivalent to a declarative statement of what an accepted graph looks like. */
module Validation {
  import opened Wrappers
  import opened Components
  import opened Digraph
  import opened Collections
  import opened Graph

  /** The outcome of a check: pass, or the reason of the InvalidGraphError raised. */
  datatype Check = Pass | Fail(reason: Reason)

  /** Some connection enters node `i`. */
  ghost predicate HasIn(g: DiGraph, i: int)
  {
    exists e :: e in g.edges && e.end == i
  }

  /** Some connection leaves node `i`. */
  ghost predicate HasOut(g: DiGraph, i: int)
  {
    exists e :: e in g.edges && e.start == i
  }

  /** The edge-level statements agree with the neighbour sets the checks compute. */
  lemma DegreeFacts(g: DiGraph, i: int)
    ensures HasIn(g, i) <==> Preds(g.edges, i) != {}
    ensures HasOut(g, i) <==> Succs(g.edges, i) != {}
  {
    if HasIn(g, i) {
      var e :| e in g.edges && e.end == i;
      assert e.start in Preds(g.edges, i);
    }
    if Preds(g.edges, i) != {} {
      var j := Pick(Preds(g.edges, i));
      var e :| e in g.edges && e.end == i && e.start == j;
    }
    if HasOut(g, i) {
      var e :| e in g.edges && e.start == i;
      assert e.end in Succs(g.edges, i);
    }
    if Succs(g.edges, i) != {} {
      var j := Pick(Succs(g.edges, i));
      var e :| e in g.edges && e.start == i && e.end == j;
    }
  }

  // ---------------------------------------------------------------------------
  // Declarative statement of an accepted graph

  /** Stage 1: at least one node and one connection, no cycle, every node carries its
      component (so a connection naming an unknown id is refused), no isolated node. */
  ghost predicate StructureOk(g: DiGraph)
  {
    && g.ids != {}
    && g.edges != {}
    && Acyclic(g.edges)
    && g.Populated()
    && (forall i :: i in g.ids ==> HasIn(g, i) || HasOut(g, i))
  }

  const RootCategories: set<Category> := {NoneCategory, Grid}

  /** A node without predecessors whose category is NONE or GRID. Nodes of other
      categories without predecessors are not root candidates at all. */
  ghost predicate IsRootCandidate(g: DiGraph, i: int)
  {
    i in g.data && !HasIn(g, i) && g.data[i].category in RootCategories
  }

  /** Stage 2: exactly one root candidate, and it has a successor. */
  ghost predicate RootOk(g: DiGraph)
  {
    exists r ::
      && IsRootCandidate(g, r)
      && (forall r' :: IsRootCandidate(g, r') ==> r' == r)
      && HasOut(g, r)
  }

  ghost predicate IsGrid(g: DiGraph, i: int)
  {
    i in g.data && g.data[i].category == Grid
  }

  /** Stage 3: at most one GRID node; if there is one, it has no predecessor and at
      least one successor. */
  ghost predicate GridOk(g: DiGraph)
  {
    && (forall i, j :: IsGrid(g, i) && IsGrid(g, j) ==> i == j)
    && (forall i :: IsGrid(g, i) ==> !HasIn(g, i) && HasOut(g, i))
  }

  /** Stage 4: every INVERTER has a predecessor (successors are not required). */
  ghost predicate InvertersOk(g: DiGraph)
  {
    forall i :: i in g.data && g.data[i].category == Inverter ==> HasIn(g, i)
  }

  const LeafCategories: set<Category> := {Battery, EvCharger}

  /** Stage 5: every BATTERY and EV_CHARGER has a predecessor and no successor. */
  ghost predicate LeavesOk(g: DiGraph)
  {
    forall i :: i in g.data && g.data[i].category in LeafCategories ==> HasIn(g, i) && !HasOut(g, i)
  }

  /** Everything an accepted graph satisfies. */
  ghost predicate ValidGraph(g: DiGraph)
  {
    StructureOk(g) && RootOk(g) && GridOk(g) && InvertersOk(g) && LeavesOk(g)
  }

  // ---------------------------------------------------------------------------
  // The executable stages

  /** `_validate_graph`. */
  function ValidateGraph(g: Staging): (r: Check)
    ensures r == Pass <==> StructureOk(g)
    ensures r == Fail(NotATree) <==> g.ids != {} && g.edges != {} && !Acyclic(g.edges)
    ensures r == Fail(MissingDefinition) ==> !g.Populated()
    ensures r.Fail? ==> r.reason in {NoComponents, NoConnections, NotATree, MissingDefinition, Unconnected}
  {
    IsDagCorrect(g.ids, g.edges);
    forall i ensures HasIn(g, i) || HasOut(g, i) <==> Preds(g.edges, i) != {} || Succs(g.edges, i) != {} {
      DegreeFacts(g, i);
    }
    if |g.ids| == 0 then Fail(NoComponents)
    else if |g.edges| == 0 then Fail(NoConnections)
    else if !IsDag(g.ids, g.edges) then Fail(NotATree)
    else if !g.Populated() then Fail(MissingDefinition)
    else if exists i | i in g.ids :: Preds(g.edges, i) == {} && Succs(g.edges, i) == {} then Fail(Unconnected)
    else Pass
  }

  /** The ids of the root candidates. */
  function RootCandidates(g: ComponentGraph): (roots: set<int>)
    ensures forall i :: i in roots <==> IsRootCandidate(g, i)
  {
    forall i ensures HasIn(g, i) <==> Preds(g.edges, i) != {} {
      DegreeFacts(g, i);
    }
    set i | i in g.ids && Preds(g.edges, i) == {} && g.data[i].category in RootCategories
  }

  /** `_validate_graph_root`. */
  function ValidateRoot(g: ComponentGraph): (r: Check)
    ensures r == Pass <==> RootOk(g)
    ensures r == Fail(NoValidRoot) <==> forall i :: !IsRootCandidate(g, i)
    ensures r == Fail(MultipleRoots) <==>
      exists i, j :: IsRootCandidate(g, i) && IsRootCandidate(g, j) && i != j
    ensures r.Fail? ==> r.reason in {NoValidRoot, MultipleRoots, RootWithoutSuccessors}
  {
    var roots := RootCandidates(g);
    forall i ensures HasOut(g, i) <==> Succs(g.edges, i) != {} {
      DegreeFacts(g, i);
    }
    CardinalityFacts(roots);
    if |roots| == 0 then Fail(NoValidRoot)
    else if |roots| > 1 then Fail(MultipleRoots)
    else if exists i | i in roots :: Succs(g.edges, i) == {} then Fail(RootWithoutSuccessors)
    else Pass
  }

  /** Cardinality zero, one or more, in terms of elements. */
  lemma CardinalityFacts<T>(s: set<T>)
    ensures |s| == 0 <==> forall x :: x !in s
    ensures |s| == 1 <==> exists x :: x in s && forall y :: y in s ==> y == x
    ensures |s| > 1 <==> exists x, y :: x in s && y in s && x != y
  {
    if |s| > 0 {
      var x := Pick(s);
      if |s| == 1 {
        Singleton(s);
      } else {
        var a, b := PickTwo(s);
      }
    }
    if exists x, y :: x in s && y in s && x != y {
      var x, y :| x in s && y in s && x != y;
      assert {x, y} <= s;
      assert |{x, y}| == 2;
      SubsetCard({x, y}, s);
    }
  }

  /** The ids of the GRID nodes. */
  function GridIds(g: ComponentGraph): (grids: set<int>)
    ensures forall i :: i in grids <==> IsGrid(g, i)
  {
    set i | i in g.ids && g.data[i].category == Grid
  }

  lemma TwoGrids(g: ComponentGraph)
    requires |GridIds(g)| > 1
    ensures exists i, j :: IsGrid(g, i) && IsGrid(g, j) && i != j
  {
    var i, j := PickTwo(GridIds(g));
    assert IsGrid(g, i) && IsGrid(g, j);
  }

  /** `_validate_grid_endpoint`. */
  function ValidateGridEndpoint(g: ComponentGraph): (r: Check)
    ensures r == Pass <==> GridOk(g)
    ensures r == Fail(MultipleGrids) <==> exists i, j :: IsGrid(g, i) && IsGrid(g, j) && i != j
    ensures r.Fail? ==> r.reason in {MultipleGrids, GridHasPredecessors, GridWithoutSuccessors}
  {
    var grids := GridIds(g);
    forall i ensures (HasIn(g, i) <==> Preds(g.edges, i) != {}) && (HasOut(g, i) <==> Succs(g.edges, i) != {}) {
      DegreeFacts(g, i);
    }
    CardinalityFacts(grids);
    if |grids| == 0 then Pass
    else if |grids| > 1 then TwoGrids(g); Fail(MultipleGrids)
    else if exists i | i in grids :: Preds(g.edges, i) != {} then Fail(GridHasPredecessors)
    else if exists i | i in grids :: Succs(g.edges, i) == {} then Fail(GridWithoutSuccessors)
    else Pass
  }

  /** `_validate_intermediary_components`: only INVERTER is checked, and only for
      predecessors. */
  function ValidateIntermediaries(g: ComponentGraph): (r: Check)
    ensures r == Pass <==> InvertersOk(g)
    ensures r.Fail? ==> r.reason == InverterWithoutPredecessors
  {
    forall i ensures HasIn(g, i) <==> Preds(g.edges, i) != {} {
      DegreeFacts(g, i);
    }
    if exists i | i in g.ids :: g.data[i].category == Inverter && Preds(g.edges, i) == {}
    then Fail(InverterWithoutPredecessors)
    else Pass
  }

  /** `_validate_leaf_components`. */
  function ValidateLeaves(g: ComponentGraph): (r: Check)
    ensures r == Pass <==> LeavesOk(g)
    ensures r.Fail? ==> r.reason in {LeafWithoutPredecessors, LeafWithSuccessors}
  {
    forall i ensures (HasIn(g, i) <==> Preds(g.edges, i) != {}) && (HasOut(g, i) <==> Succs(g.edges, i) != {}) {
      DegreeFacts(g, i);
    }
    if exists i | i in g.ids :: g.data[i].category in LeafCategories && Preds(g.edges, i) == {}
    then Fail(LeafWithoutPredecessors)
    else if exists i | i in g.ids :: g.data[i].category in LeafCategories && Succs(g.edges, i) != {}
    then Fail(LeafWithSuccessors)
    else Pass
  }

  /** `validate`: the five stages in order, stopping at the first failure. A graph passes
      exactly when it satisfies every declarative rule; the structural stage runs first,
      so the later stages only ever see a graph whose nodes all carry data. */
  function Validate(g: Staging): (r: Check)
    ensures r == Pass <==> ValidGraph(g)
    ensures r == Pass ==> g.Populated()
    ensures r.Fail? ==> r.reason !in {MissingComponents, MissingConnections, InvalidComponents, InvalidConnections}
  {
    var s1 := ValidateGraph(g);
    if s1.Fail? then s1
    else
      var cg: ComponentGraph := g;
      var s2 := ValidateRoot(cg);
      if s2.Fail? then s2
      else
        var s3 := ValidateGridEndpoint(cg);
        if s3.Fail? then s3
        else
          var s4 := ValidateIntermediaries(cg);
          if s4.Fail? then s4
          else ValidateLeaves(cg)
  }
}
