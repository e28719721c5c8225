/** The component graph store and its read-only queries (`components`, `connections`,
    `predecessors`, `successors`). */
module Graph {
  import opened Wrappers
  import opened Components
  import opened Digraph
  import opened Collections

  /** The directed graph as `_MicrogridComponentGraph` holds it: the node ids, the
      component stored as each node's data, and the connections. A node that only a connection mentions
      exists but carries no data, which is why `data` may cover fewer ids than `ids`. */
  datatype DiGraph = DiGraph(ids: set<int>, data: map<int, Component>, edges: set<Connection>)
  {
    /** Every connection joins two nodes, and a node's data is the component with that id. */
    ghost predicate WellFormed()
    {
      && data.Keys <= ids
      && (forall i :: i in data ==> data[i].id == i)
      && EdgesWithin(edges, ids)
    }

    /** Every node carries its component. */
    predicate Populated()
    {
      data.Keys == ids
    }
  }

  /** A graph under construction or under correction: nodes may lack data. */
  type Staging = g: DiGraph | g.WellFormed() witness DiGraph({}, map[], {})

  /** A graph that may be current: the empty graph or one that passed validation,
      so every node carries its component. */
  type ComponentGraph = g: DiGraph | g.WellFormed() && g.Populated() witness DiGraph({}, map[], {})

  /** Why a proposed graph was refused. */
  datatype Reason =
    | MissingComponents
    | MissingConnections
    | InvalidComponents
    | InvalidConnections
    | NoComponents
    | NoConnections
    | NotATree
    | MissingDefinition
    | Unconnected
    | NoValidRoot
    | MultipleRoots
    | RootWithoutSuccessors
    | MultipleGrids
    | GridHasPredecessors
    | GridWithoutSuccessors
    | InverterWithoutPredecessors
    | LeafWithoutPredecessors
    | LeafWithSuccessors

  /** The exceptions the graph raises. */
  datatype Error =
    | InvalidGraph(reason: Reason)   // InvalidGraphError
    | KeyNotFound(id: int)           // KeyError from predecessors/successors
    | RootNotFound                   // ValueError: no component of the root category
    | DescendantNotFound             // ValueError: no successor in the requested categories
    | HookRaised                     // an exception escaping the error-correction hook

  const Empty: ComponentGraph := DiGraph({}, map[], {})

  /** The components of the graph. */
  function Nodes(g: ComponentGraph): set<Component>
  {
    g.data.Values
  }

  lemma InNodes(g: ComponentGraph, c: Component)
    ensures c in Nodes(g) <==> c.id in g.ids && g.data[c.id] == c
  {
    if c in Nodes(g) {
      var i := PickKey(g.data, c);
    }
  }

  /** `components(ids, categories)`: the graph's components whose id is among `ids` and
      whose category is among `cats`; an absent filter admits everything, and ids that
      are not in the graph are ignored. */
  function FilterComponents(g: ComponentGraph, ids: Option<set<int>>, cats: Option<set<Category>>)
    : (r: set<Component>)
    ensures forall c :: c in r <==>
      && c in Nodes(g)
      && (ids.Some? ==> c.id in ids.value)
      && (cats.Some? ==> c.category in cats.value)
  {
    var selection := if ids.None? then g.ids else ids.value * g.ids;
    var selected := set i | i in selection :: g.data[i];
    assert forall c :: c in selected <==> c in Nodes(g) && (ids.Some? ==> c.id in ids.value) by {
      forall c
        ensures c in selected <==> c in Nodes(g) && (ids.Some? ==> c.id in ids.value)
      {
        InNodes(g, c);
      }
    }
    if cats.None? then selected else set c | c in selected && c.category in cats.value
  }

  /** The connections leaving any of `starts`. */
  function OutEdges(g: ComponentGraph, starts: set<int>): set<Connection>
  {
    set e | e in g.edges && e.start in starts
  }

  /** The connections entering any of `ends`. */
  function InEdges(g: ComponentGraph, ends: set<int>): set<Connection>
  {
    set e | e in g.edges && e.end in ends
  }

  /** `connections(start, end)`: with both filters, the connections that leave `start`
      AND enter `end` (the intersection, not the union); with one filter only the out-
      or in-connections; with none, all of them. */
  function FilterConnections(g: ComponentGraph, start: Option<set<int>>, end: Option<set<int>>)
    : (r: set<Connection>)
    ensures forall e :: e in r <==>
      && e in g.edges
      && (start.Some? ==> e.start in start.value)
      && (end.Some? ==> e.end in end.value)
  {
    match (start, end)
    case (None, None) => g.edges
    case (None, Some(ends)) => InEdges(g, ends)
    case (Some(starts), None) => OutEdges(g, starts)
    case (Some(starts), Some(ends)) => OutEdges(g, starts) * InEdges(g, ends)
  }

  /** The stored components of a set of node ids. */
  function ComponentsOf(g: ComponentGraph, ids: set<int>): set<Component>
    requires ids <= g.ids
  {
    set i | i in ids :: g.data[i]
  }

  lemma PredsInGraph(g: ComponentGraph, id: int)
    ensures Preds(g.edges, id) <= g.ids
    ensures Succs(g.edges, id) <= g.ids
  {
    forall j | j in Preds(g.edges, id)
      ensures j in g.ids
    {
      var e :| e in g.edges && e.end == id && e.start == j;
    }
    forall j | j in Succs(g.edges, id)
      ensures j in g.ids
    {
      var e :| e in g.edges && e.start == id && e.end == j;
    }
  }

  /** `predecessors(id)`: fails for an id not in the graph; otherwise exactly the
      components with a connection into `id`. */
  function Predecessors(g: ComponentGraph, id: int): (r: Result<set<Component>, Error>)
    ensures r.Err? <==> id !in g.ids
    ensures r.Err? ==> r.error == KeyNotFound(id)
    ensures r.Ok? ==> forall c :: c in r.value <==> c in Nodes(g) && Connection(c.id, id) in g.edges
  {
    if id !in g.ids then Err(KeyNotFound(id))
    else
      PredsInGraph(g, id);
      var r := ComponentsOf(g, Preds(g.edges, id));
      assert forall c :: c in r <==> c in Nodes(g) && Connection(c.id, id) in g.edges by {
        forall c
          ensures c in r <==> c in Nodes(g) && Connection(c.id, id) in g.edges
        {
          InNodes(g, c);
          if Connection(c.id, id) in g.edges {
            assert c.id in Preds(g.edges, id);
          }
        }
      }
      Ok(r)
  }

  /** `successors(id)`: fails for an id not in the graph; otherwise exactly the
      components with a connection out of `id`. */
  function Successors(g: ComponentGraph, id: int): (r: Result<set<Component>, Error>)
    ensures r.Err? <==> id !in g.ids
    ensures r.Err? ==> r.error == KeyNotFound(id)
    ensures r.Ok? ==> forall c :: c in r.value <==> c in Nodes(g) && Connection(id, c.id) in g.edges
  {
    if id !in g.ids then Err(KeyNotFound(id))
    else
      PredsInGraph(g, id);
      var r := ComponentsOf(g, Succs(g.edges, id));
      assert forall c :: c in r <==> c in Nodes(g) && Connection(id, c.id) in g.edges by {
        forall c
          ensures c in r <==> c in Nodes(g) && Connection(id, c.id) in g.edges
        {
          InNodes(g, c);
          if Connection(id, c.id) in g.edges {
            assert c.id in Succs(g.edges, id);
          }
        }
      }
      Ok(r)
  }

  /** The set returned by `successors` has one component per successor id. */
  lemma SuccessorsCount(g: ComponentGraph, id: int)
    requires id in g.ids
    ensures |Successors(g, id).value| == |Succs(g.edges, id)|
    ensures |Predecessors(g, id).value| == |Preds(g.edges, id)|
  {
    PredsInGraph(g, id);
    ImageCount(g, Succs(g.edges, id));
    ImageCount(g, Preds(g.edges, id));
  }

  /** Looking up the data of distinct ids gives distinct components. */
  lemma {:induction false} ImageCount(g: ComponentGraph, ids: set<int>)
    requires ids <= g.ids
    ensures |ComponentsOf(g, ids)| == |ids|
    decreases |ids|
  {
    if ids != {} {
      var i := Pick(ids);
      var rest := ids - {i};
      ImageCount(g, rest);
      assert ComponentsOf(g, ids) == ComponentsOf(g, rest) + {g.data[i]};
      assert g.data[i] !in ComponentsOf(g, rest);
    }
  }
}
