/** The classifier predicates (`is_grid_meter`, `is_pv_inverter`, `is_pv_meter`,
    `is_pv_chain` and their battery, EV-charger and CHP counterparts). The four
    families differ only in which leaf they test for, so they are one definition
    parameterised by a `Kind`. */
module Classifiers {
  import opened Wrappers
  import opened Components
  import opened Collections
  import opened Graph

  /** The energy-source kinds for which chains are formed. */
  datatype Kind = Pv | BatteryKind | EvChargerKind | ChpKind

  /** `is_pv_inverter`, `is_battery_inverter`, `is_ev_charger` and `is_chp`. Only
      inverters, EV chargers and CHPs are of a kind; an inverter is of a kind exactly
      when its type is known and is SOLAR (PV) or BATTERY; an EV charger or CHP is of
      its own kind and of no other. */
  function IsKind(k: Kind, c: Component): (r: bool)
    ensures r ==> c.category in {Inverter, EvCharger, Chp}
    ensures c.category == Inverter ==>
      (r <==> c.inverterType.Some? && (k, c.inverterType.value) in {(Pv, SolarInverter), (BatteryKind, BatteryInverter)})
    ensures c.category == EvCharger ==> (r <==> k == EvChargerKind)
    ensures c.category == Chp ==> (r <==> k == ChpKind)
  {
    match k
    case Pv => c.category == Inverter && c.inverterType == Some(SolarInverter)
    case BatteryKind => c.category == Inverter && c.inverterType == Some(BatteryInverter)
    case EvChargerKind => c.category == EvCharger
    case ChpKind => c.category == Chp
  }

  /** A component is of at most one kind. */
  lemma KindsExclusive(k1: Kind, k2: Kind, c: Component)
    requires IsKind(k1, c) && IsKind(k2, c)
    ensures k1 == k2
  {
  }

  /** Declaratively, a grid meter is a METER whose only incoming connection comes from
      a GRID node, and that GRID node's only outgoing connection goes to the meter. */
  ghost predicate GridMeterSpec(g: ComponentGraph, c: Component)
  {
    && c.category == Meter
    && exists p ::
      && p in g.data
      && g.data[p].category == Grid
      && (forall q :: Connection(q, c.id) in g.edges <==> q == p)
      && (forall s :: Connection(p, s) in g.edges <==> s == c.id)
  }

  /** `is_grid_meter`. Only a METER is looked up in the graph, so only a METER that is
      not in the graph raises. */
  function IsGridMeter(g: ComponentGraph, c: Component): (r: Result<bool, Error>)
    ensures c.category != Meter ==> r == Ok(false)
    ensures r.Err? <==> c.category == Meter && c.id !in g.ids
    ensures r.Ok? ==> (r.value <==> GridMeterSpec(g, c))
  {
    if c.category != Meter then Ok(false)
    else
      match Predecessors(g, c.id)
      case Err(e) => Err(e)
      case Ok(preds) =>
        GridMeterHasOneGridPred(g, c);
        if |preds| != 1 then Ok(false)
        else
          Singleton(preds);
          var p :| p in preds;
          InNodes(g, p);
          if p.category != Grid then Ok(false)
          else
            var gridSuccessors := Successors(g, p.id).value;
            SuccessorsGridMeter(g, c, p, preds, gridSuccessors);
            Ok(|gridSuccessors| == 1)
  }

  /** A grid meter in the graph has exactly one predecessor, and it is a GRID. */
  lemma GridMeterHasOneGridPred(g: ComponentGraph, c: Component)
    requires c.id in g.ids
    ensures GridMeterSpec(g, c) ==>
      && |Predecessors(g, c.id).value| == 1
      && forall x :: x in Predecessors(g, c.id).value ==> x.category == Grid
  {
    if GridMeterSpec(g, c) {
      var p :| p in g.data && g.data[p].category == Grid
        && (forall q :: Connection(q, c.id) in g.edges <==> q == p)
        && (forall s :: Connection(p, s) in g.edges <==> s == c.id);
      var preds := Predecessors(g, c.id).value;
      InNodes(g, g.data[p]);
      assert g.data[p] in preds;
      forall x | x in preds
        ensures x == g.data[p]
      {
        InNodes(g, x);
      }
      assert preds == {g.data[p]};
    }
  }

  /** The step of `IsGridMeter` that looks at the grid's successors. */
  lemma SuccessorsGridMeter(g: ComponentGraph, c: Component, p: Component, preds: set<Component>, succs: set<Component>)
    requires c.category == Meter && c.id in g.ids
    requires Predecessors(g, c.id) == Ok(preds) && preds == {p}
    requires p.category == Grid && p in Nodes(g)
    requires Successors(g, p.id) == Ok(succs)
    ensures |succs| == 1 <==> GridMeterSpec(g, c)
  {
    InNodes(g, p);
    InNodes(g, g.data[c.id]);
    assert Connection(p.id, c.id) in g.edges;
    assert g.data[c.id] in succs;
    forall q
      ensures Connection(q, c.id) in g.edges <==> q == p.id
    {
      if Connection(q, c.id) in g.edges {
        assert q in g.ids;
        InNodes(g, g.data[q]);
        assert g.data[q] in preds;
      }
    }
    if |succs| == 1 {
      Singleton(succs);
      forall s | Connection(p.id, s) in g.edges
        ensures s == c.id
      {
        assert s in g.ids;
        InNodes(g, g.data[s]);
        assert g.data[s] in succs;
      }
      assert GridMeterSpec(g, c);
    }
    if GridMeterSpec(g, c) {
      var p' :| p' in g.data && g.data[p'].category == Grid
        && (forall q :: Connection(q, c.id) in g.edges <==> q == p')
        && (forall s :: Connection(p', s) in g.edges <==> s == c.id);
      assert p' == p.id;
      forall x | x in succs
        ensures x == g.data[c.id]
      {
        InNodes(g, x);
      }
      assert succs == {g.data[c.id]};
    }
  }

  /** Declaratively, a meter of kind `k` is a METER that is not the grid meter, has at
      least one outgoing connection, and all of whose successors are of kind `k`. */
  ghost predicate MeterOfSpec(g: ComponentGraph, k: Kind, c: Component)
  {
    && c.category == Meter
    && !GridMeterSpec(g, c)
    && (exists s :: Connection(c.id, s) in g.edges)
    && (forall s :: Connection(c.id, s) in g.edges ==> s in g.data && IsKind(k, g.data[s]))
  }

  /** `is_pv_meter`, `is_battery_meter`, `is_ev_charger_meter` and `is_chp_meter`. The
      successors are fetched before the category is checked, so any component whose id
      is not in the graph raises, a non-meter included. */
  function IsMeterOf(g: ComponentGraph, k: Kind, c: Component): (r: Result<bool, Error>)
    ensures r.Err? <==> c.id !in g.ids
    ensures r.Err? ==> r.error == KeyNotFound(c.id)
    ensures r.Ok? ==> (r.value <==> MeterOfSpec(g, k, c))
  {
    match Successors(g, c.id)
    case Err(e) => Err(e)
    case Ok(succs) =>
      var notGridMeter := c.category == Meter && !IsGridMeter(g, c).value;
      var r := notGridMeter && |succs| > 0 && forall s | s in succs :: IsKind(k, s);
      assert r <==> MeterOfSpec(g, k, c) by {
        forall s | Connection(c.id, s) in g.edges
          ensures s in g.ids && g.data[s] in succs
        {
          assert s in g.ids;
          InNodes(g, g.data[s]);
        }
        if |succs| > 0 {
          var x := Pick(succs);
          InNodes(g, x);
        }
        forall x | x in succs
          ensures Connection(c.id, x.id) in g.edges && g.data[x.id] == x
        {
          InNodes(g, x);
        }
      }
      Ok(r)
  }

  /** `is_pv_chain` and its counterparts: the component is of the kind, or a meter of
      it. A component of the kind is accepted without looking it up in the graph. */
  function IsChain(g: ComponentGraph, k: Kind, c: Component): (r: Result<bool, Error>)
    ensures r.Err? <==> !IsKind(k, c) && c.id !in g.ids
    ensures r.Ok? ==> (r.value <==> IsKind(k, c) || MeterOfSpec(g, k, c))
  {
    if IsKind(k, c) then Ok(true) else IsMeterOf(g, k, c)
  }

  /** A meter whose successors include components of two different kinds belongs to no
      chain of either kind, nor of any other. */
  lemma MixedSuccessorsNoMeter(g: ComponentGraph, c: Component, a: int, b: int, ka: Kind, kb: Kind, k: Kind)
    requires c.id in g.ids
    requires Connection(c.id, a) in g.edges && Connection(c.id, b) in g.edges
    requires IsKind(ka, g.data[a]) && IsKind(kb, g.data[b]) && ka != kb
    ensures IsMeterOf(g, k, c) == Ok(false)
  {
    assert a in g.ids && b in g.ids;
    if IsMeterOf(g, k, c) == Ok(true) {
      KindsExclusive(ka, k, g.data[a]);
      KindsExclusive(kb, k, g.data[b]);
    }
  }

  /** A meter belongs to the meter chains of at most one kind. */
  lemma MeterKindsExclusive(g: ComponentGraph, c: Component, k1: Kind, k2: Kind)
    requires IsMeterOf(g, k1, c) == Ok(true) && IsMeterOf(g, k2, c) == Ok(true)
    ensures k1 == k2
  {
    var s :| Connection(c.id, s) in g.edges;
    KindsExclusive(k1, k2, g.data[s]);
  }

  /** The grid meter and a meter without successors are meters of no kind. */
  lemma GridMeterAndLeafMeterInNoChain(g: ComponentGraph, c: Component, k: Kind)
    requires c.id in g.ids
    requires IsGridMeter(g, c) == Ok(true) || forall s :: Connection(c.id, s) !in g.edges
    ensures IsMeterOf(g, k, c) == Ok(false)
  {
  }
}
