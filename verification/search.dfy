/** The two searches over the component graph: the pruning depth-first search `dfs`
    and `find_first_descendant_component`. */
module Search {
  import opened Wrappers
  import opened Components
  import opened Digraph
  import opened Collections
  import opened Graph

  /** What a search returns (`found`) together with the caller's `visited` set as the
      search leaves it (`dfs` mutates that set in place). */
  datatype Searched = Searched(found: set<Component>, visited: set<Component>)

  /** Every component of `found` satisfies the condition and is reachable from `start`. */
  ghost predicate Sound(g: ComponentGraph, condition: Component -> bool, found: set<Component>, start: Component)
  {
    forall n :: n in found ==> condition(n) && Reachable(g.edges, start.id, n.id)
  }

  /** Every component of `added` that satisfies the condition is in `found`. */
  ghost predicate Complete(condition: Component -> bool, added: set<Component>, found: set<Component>)
  {
    forall n :: n in added && condition(n) ==> n in found
  }

  /** Every successor of a component of `added` that fails the condition is in `after`. */
  ghost predicate Closed(g: ComponentGraph, condition: Component -> bool, added: set<Component>, after: set<Component>)
  {
    forall x, s :: x in added && !condition(x) && s in Nodes(g) && Connection(x.id, s.id) in g.edges ==> s in after
  }

  /** Every component of `added` other than `start` is a successor of a component of
      `added` that fails the condition: the search never went below a component that
      satisfies it. */
  ghost predicate Pruned(g: ComponentGraph, condition: Component -> bool, added: set<Component>, start: Component)
  {
    forall n :: n in added && n != start ==>
      exists x :: x in added && !condition(x) && Connection(x.id, n.id) in g.edges
  }

  /** In a pruned search, a component whose only predecessors among the newly visited
      ones satisfy the condition is not visited, unless it is the start: for S -> A -> B
      with A satisfying the condition, B is not visited from S. */
  lemma StopsAtMatch(g: ComponentGraph, condition: Component -> bool, added: set<Component>,
                     start: Component, n: Component)
    requires Pruned(g, condition, added, start)
    requires n != start
    requires forall x :: x in added && Connection(x.id, n.id) in g.edges ==> condition(x)
    ensures n !in added
  {
  }

  /** `dfs(current, visited, condition)`. A visited component yields nothing; otherwise
      the component is marked visited and, if it satisfies the condition, it alone is
      the answer and the search does not descend below it; otherwise the successors are
      searched in some order, sharing one visited set. Of the newly visited components,
      those that satisfy the condition are exactly the ones found, and all of them are
      reachable from the start; every one that does not satisfy it has all its
      successors visited; and every one but the start was reached from one that does
      not, so the search stops at a component that satisfies the condition. */
  method Dfs(g: ComponentGraph, current: Component, visited: set<Component>, condition: Component -> bool)
    returns (r: Result<Searched, Error>)
    ensures current in visited ==> r == Ok(Searched({}, visited))
    ensures current !in visited && condition(current) ==>
      r == Ok(Searched({current}, visited + {current}))
    ensures r.Err? <==> current !in visited && !condition(current) && current.id !in g.ids
    ensures r.Err? ==> r.error == KeyNotFound(current.id)
    ensures r.Ok? ==> visited + {current} <= r.value.visited
    ensures r.Ok? ==> r.value.visited - visited <= Nodes(g) + {current}
    ensures r.Ok? ==> r.value.found <= r.value.visited - visited
    ensures r.Ok? ==> Sound(g, condition, r.value.found, current)
    ensures r.Ok? ==> Complete(condition, r.value.visited - visited, r.value.found)
    ensures r.Ok? ==> Closed(g, condition, r.value.visited - visited, r.value.visited)
    ensures r.Ok? ==> Pruned(g, condition, r.value.visited - visited, current)
    decreases |Nodes(g) - visited|, if current in Nodes(g) then 0 else 1
  {
    if current in visited {
      return Ok(Searched({}, visited));
    }
    var seen := visited + {current};
    if condition(current) {
      ReachableSelf(g.edges, current.id);
      return Ok(Searched({current}, seen));
    }
    var successors := Successors(g, current.id);
    if successors.Err? {
      return Err(successors.error);
    }
    var found: set<Component> := {};
    var todo := successors.value;
    while todo != {}
      invariant todo <= successors.value
      invariant visited + {current} <= seen
      invariant seen - visited <= Nodes(g) + {current}
      invariant found <= seen - visited
      invariant Sound(g, condition, found, current)
      invariant Complete(condition, seen - visited, found)
      invariant Closed(g, condition, seen - visited - {current}, seen)
      invariant successors.value - todo <= seen
      invariant current.id in g.ids
      invariant Pruned(g, condition, seen - visited, current)
      decreases todo
    {
      var s :| s in todo;
      todo := todo - {s};
      assert s in Nodes(g) && Connection(current.id, s.id) in g.edges;
      InNodes(g, s);
      Progress(Nodes(g), visited, seen, current);
      var sub := Dfs(g, s, seen, condition);
      var res := sub.value;
      SoundStep(g, condition, found, res.found, current, s);
      Within(visited, seen, res.visited, Nodes(g), current, s);
      SearchStep(g, condition, visited, seen, res.visited, found, res.found, current, s);
      found := found + res.found;
      seen := res.visited;
    }
    CloseAtStart(g, condition, visited, seen, current, successors.value);
    return Ok(Searched(found, seen));
  }

  /** Once all successors of the start are visited, the start's successors are closed
      too. */
  lemma CloseAtStart(g: ComponentGraph, condition: Component -> bool, visited: set<Component>,
                     seen: set<Component>, current: Component, succs: set<Component>)
    requires current in seen && current.id in g.ids
    requires Successors(g, current.id) == Ok(succs)
    requires succs <= seen
    requires Closed(g, condition, seen - visited - {current}, seen)
    ensures Closed(g, condition, seen - visited, seen)
  {
    forall s | s in Nodes(g) && Connection(current.id, s.id) in g.edges
      ensures s in seen
    {
      InNodes(g, s);
    }
  }

  /** What is found below a successor `s` of the start is reachable from the start. */
  lemma SoundStep(g: ComponentGraph, condition: Component -> bool, found: set<Component>,
                  subFound: set<Component>, current: Component, s: Component)
    requires Connection(current.id, s.id) in g.edges
    requires Sound(g, condition, found, current) && Sound(g, condition, subFound, s)
    ensures Sound(g, condition, found + subFound, current)
  {
    forall n | n in subFound
      ensures Reachable(g.edges, current.id, n.id)
    {
      ReachableStep(g.edges, current.id, s.id, n.id);
    }
  }

  /** Searching below a successor `s` of a start that fails the condition keeps the
      newly visited components complete, closed and pruned. */
  lemma SearchStep(g: ComponentGraph, condition: Component -> bool, visited: set<Component>,
                   seen: set<Component>, later: set<Component>, found: set<Component>,
                   subFound: set<Component>, current: Component, s: Component)
    requires visited + {current} <= seen <= later
    requires current !in visited && !condition(current)
    requires Connection(current.id, s.id) in g.edges
    requires found <= seen - visited && subFound <= later - seen
    requires Complete(condition, seen - visited, found) && Complete(condition, later - seen, subFound)
    requires Closed(g, condition, seen - visited - {current}, seen) && Closed(g, condition, later - seen, later)
    requires Pruned(g, condition, seen - visited, current) && Pruned(g, condition, later - seen, s)
    ensures found + subFound <= later - visited
    ensures Complete(condition, later - visited, found + subFound)
    ensures Closed(g, condition, later - visited - {current}, later)
    ensures Pruned(g, condition, later - visited, current)
  {
    forall n | n in later - visited && n != current
      ensures exists x :: x in later - visited && !condition(x) && Connection(x.id, n.id) in g.edges
    {
      if n in seen {
        var x :| x in seen - visited && !condition(x) && Connection(x.id, n.id) in g.edges;
        assert x in later - visited;
      } else if n == s {
        assert current in later - visited;
      } else {
        var x :| x in later - seen && !condition(x) && Connection(x.id, n.id) in g.edges;
        assert x in later - visited;
      }
    }
  }

  /** Marking `current` visited leaves no more unvisited nodes, and strictly fewer when
      `current` is a node. */
  lemma Progress(nodes: set<Component>, visited: set<Component>, seen: set<Component>, current: Component)
    requires visited + {current} <= seen
    requires current !in visited
    ensures |nodes - seen| <= |nodes - visited|
    ensures current in nodes ==> |nodes - seen| < |nodes - visited|
  {
    SubsetCard(nodes - seen, nodes - visited);
    if current in nodes {
      SubsetCard(nodes - seen, nodes - visited - {current});
      assert nodes - visited == (nodes - visited - {current}) + {current};
    }
  }

  /** What a nested search marks visited stays among the nodes and the start. */
  lemma Within<T>(visited: set<T>, seen: set<T>, later: set<T>, nodes: set<T>, current: T, s: T)
    requires seen - visited <= nodes + {current}
    requires later - seen <= nodes + {s}
    requires s in nodes
    ensures later - visited <= nodes + {current}
  {
    forall x | x in later - visited
      ensures x in nodes + {current}
    {
      if x !in seen {
        assert x in later - seen;
      }
    }
  }

  /** Declaratively, `c` is the first descendant of node `root` for the categories
      `cats`: an immediate successor of `root` whose category is the earliest entry of
      `cats` that any successor has, with the smallest id among the successors of that
      category. */
  ghost predicate IsFirstDescendant(g: ComponentGraph, root: int, cats: seq<Category>, c: Component)
  {
    && c in Nodes(g)
    && Connection(root, c.id) in g.edges
    && (exists k ::
          && 0 <= k < |cats|
          && c.category == cats[k]
          && forall j, s :: 0 <= j < k && s in g.data && Connection(root, s) in g.edges ==>
               g.data[s].category != cats[j])
    && forall s :: s in g.data && Connection(root, s) in g.edges && g.data[s].category == c.category ==>
         c.id <= s
  }

  /** No successor of `root` has a category listed in `cats`. */
  ghost predicate NoDescendantIn(g: ComponentGraph, root: int, cats: seq<Category>)
  {
    forall k, s :: 0 <= k < |cats| && s in g.data && Connection(root, s) in g.edges ==>
      g.data[s].category != cats[k]
  }

  /** The successor-selection step of `find_first_descendant_component`, for a given
      root: the categories are tried in order, and for the first one that any successor
      has, the successor of that category with the smallest id is returned. */
  function FirstDescendant(g: ComponentGraph, root: int, cats: seq<Category>): (r: Option<Component>)
    requires root in g.ids
    ensures r.Some? ==> IsFirstDescendant(g, root, cats, r.value)
    ensures r.None? <==> NoDescendantIn(g, root, cats)
    decreases |cats|
  {
    PredsInGraph(g, root);
    if cats == [] then None
    else
      var matching := set s | s in Succs(g.edges, root) && g.data[s].category == cats[0];
      if matching != {} then
        var m := Min(matching);
        var c := g.data[m];
        assert IsFirstDescendant(g, root, cats, c) by {
          NeighbourMember(g.edges, root, m);
          InNodes(g, c);
          assert c.category == cats[0];
          forall s | s in g.data && Connection(root, s) in g.edges && g.data[s].category == c.category
            ensures c.id <= s
          {
            NeighbourMember(g.edges, root, s);
            assert s in matching;
          }
        }
        Some(c)
      else
        assert forall s :: s in g.data && Connection(root, s) in g.edges ==> g.data[s].category != cats[0] by {
          forall s | s in g.data && Connection(root, s) in g.edges
            ensures g.data[s].category != cats[0]
          {
            NeighbourMember(g.edges, root, s);
            assert s !in matching;
          }
        }
        var rest := FirstDescendant(g, root, cats[1..]);
        SkipCategory(g, root, cats, rest);
        rest
  }

  /** A category that no successor has can be skipped: the answer for the remaining
      categories is the answer for all of them. */
  lemma SkipCategory(g: ComponentGraph, root: int, cats: seq<Category>, rest: Option<Component>)
    requires cats != []
    requires forall s :: s in g.data && Connection(root, s) in g.edges ==> g.data[s].category != cats[0]
    requires rest.Some? ==> IsFirstDescendant(g, root, cats[1..], rest.value)
    requires rest.None? <==> NoDescendantIn(g, root, cats[1..])
    ensures rest.Some? ==> IsFirstDescendant(g, root, cats, rest.value)
    ensures rest.None? <==> NoDescendantIn(g, root, cats)
  {
    if rest.Some? {
      var c := rest.value;
      var k :| 0 <= k < |cats[1..]| && c.category == cats[1..][k]
        && forall j, s :: 0 <= j < k && s in g.data && Connection(root, s) in g.edges ==>
             g.data[s].category != cats[1..][j];
      assert c.category == cats[k + 1];
      forall j, s | 0 <= j < k + 1 && s in g.data && Connection(root, s) in g.edges
        ensures g.data[s].category != cats[j]
      {
        if j > 0 {
          assert cats[j] == cats[1..][j - 1];
        }
      }
    } else {
      forall k, s | 0 <= k < |cats| && s in g.data && Connection(root, s) in g.edges
        ensures g.data[s].category != cats[k]
      {
        if k > 0 {
          assert cats[k] == cats[1..][k - 1];
        }
      }
    }
    if NoDescendantIn(g, root, cats) {
      forall k, s | 0 <= k < |cats[1..]| && s in g.data && Connection(root, s) in g.edges
        ensures g.data[s].category != cats[1..][k]
      {
        assert cats[1..][k] == cats[k + 1];
      }
    }
  }

  /** For a given root, at most one component is its first descendant. */
  lemma FirstDescendantUnique(g: ComponentGraph, root: int, cats: seq<Category>, a: Component, b: Component)
    requires IsFirstDescendant(g, root, cats, a) && IsFirstDescendant(g, root, cats, b)
    ensures a == b
  {
    var ka :| 0 <= ka < |cats| && a.category == cats[ka]
      && forall j, s :: 0 <= j < ka && s in g.data && Connection(root, s) in g.edges ==>
           g.data[s].category != cats[j];
    var kb :| 0 <= kb < |cats| && b.category == cats[kb]
      && forall j, s :: 0 <= j < kb && s in g.data && Connection(root, s) in g.edges ==>
           g.data[s].category != cats[j];
    InNodes(g, a);
    InNodes(g, b);
    assert g.data[a.id] == a && g.data[b.id] == b;
    assert ka == kb;
    assert a.id <= b.id && b.id <= a.id;
  }

  /** `find_first_descendant_component`. Fails when no component has the root category;
      otherwise picks one such component (which one is not specified when there are
      several) and returns its first descendant, failing if it has none. */
  method FindFirstDescendantComponent(g: ComponentGraph, rootCategory: Category, cats: seq<Category>)
    returns (r: Result<Component, Error>)
    ensures r == Err(RootNotFound) <==> forall c :: c in Nodes(g) ==> c.category != rootCategory
    ensures r.Ok? ==> exists root ::
      root in Nodes(g) && root.category == rootCategory && IsFirstDescendant(g, root.id, cats, r.value)
    ensures r.Err? ==> r.error == RootNotFound || r.error == DescendantNotFound
    ensures r == Err(DescendantNotFound) ==> exists root ::
      root in Nodes(g) && root.category == rootCategory && NoDescendantIn(g, root.id, cats)
  {
    var roots := FilterComponents(g, None, Some({rootCategory}));
    if roots == {} {
      return Err(RootNotFound);
    }
    var root :| root in roots;
    InNodes(g, root);
    var found := FirstDescendant(g, root.id, cats);
    if found.None? {
      return Err(DescendantNotFound);
    }
    return Ok(found.value);
  }
}
