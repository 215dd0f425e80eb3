// The model map of a scene graph (anigraph/scene/AModelGraph.ts). The graph
// is itself a node of the store; its model map records the models that have
// been added below it, keyed by uid.

module ModelGraphs {
  import opened SceneGraph
  import opened ObjectNode

  /** What the graph signals to its listeners, with the uid of the model concerned. */
  datatype GraphEvent = NodeAdded(uid: Uid) | NodeRemoved(uid: Uid) | NodeReleased(uid: Uid)

  /** A model as the map holds it: its uid and its name. */
  datatype ModelRef = ModelRef(uid: Uid, name: string)

  /** The nodes of `us` that are point lights, in the order of `us`. */
  function PointLightsIn(s: Store, us: seq<Uid>): (r: seq<Uid>)
    requires forall u :: u in us ==> u in s
    ensures forall u :: u in r <==> u in us && s[u].kind == PointLight
    ensures |r| <= |us|
  {
    if us == [] then []
    else (if s[us[0]].kind == PointLight then [us[0]] else []) + PointLightsIn(s, us[1..])
  }

  /** The point lights below node `n`: every point light of its subtree other than `n` itself. */
  lemma PointLightsExact(s: Store, d: Depths, maxDepth: nat, n: Uid)
    requires WellFormed(s, d, maxDepth) && n in s
    ensures var all := Descendants(s, d, maxDepth, n);
      && (forall u :: u in all ==> u in s)
      && forall u :: u in PointLightsIn(s, all) <==>
           u in s && u != n && Under(s, d, u, n) && s[u].kind == PointLight
  {
    DescendantsExact(s, d, maxDepth, n);
  }

  /** Every descendant of a stored node is stored. */
  lemma DescendantsStored(s: Store, d: Depths, maxDepth: nat, n: Uid)
    requires WellFormed(s, d, maxDepth) && n in s
    ensures forall u :: u in Descendants(s, d, maxDepth, n) ==> u in s
  {
    DescendantsExact(s, d, maxDepth, n);
  }

  /** Filtering keeps the order of the list it filters: it distributes over concatenation. */
  lemma {:induction false} PointLightsConcat(s: Store, a: seq<Uid>, b: seq<Uid>)
    requires (forall u :: u in a ==> u in s) && (forall u :: u in b ==> u in s)
    ensures PointLightsIn(s, a + b) == PointLightsIn(s, a) + PointLightsIn(s, b)
    decreases |a|
  {
    if a == [] {
      assert a + b == b;
    } else {
      assert (a + b)[0] == a[0] && (a + b)[1..] == a[1..] + b;
      var head := if s[a[0]].kind == PointLight then [a[0]] else [];
      PointLightsConcat(s, a[1..], b);
      calc {
        PointLightsIn(s, a + b);
        head + PointLightsIn(s, a[1..] + b);
        head + (PointLightsIn(s, a[1..]) + PointLightsIn(s, b));
        (head + PointLightsIn(s, a[1..])) + PointLightsIn(s, b);
      }
    }
  }

  /** The filtering loop of `filterDescendants`, with the point-light test. */
  method FilterPointLights(s: Store, all: seq<Uid>) returns (r: seq<Uid>)
    requires forall u :: u in all ==> u in s
    ensures r == PointLightsIn(s, all)
  {
    r := [];
    for i := 0 to |all|
      invariant r == PointLightsIn(s, all[..i])
    {
      PointLightsConcat(s, all[..i], [all[i]]);
      assert all[..i + 1] == all[..i] + [all[i]];
      if s[all[i]].kind == PointLight {
        r := r + [all[i]];
      }
    }
    assert all[..|all|] == all;
  }

  class ModelGraph {
    /** The store holding the graph's own node and everything below it. */
    const store: NodeStore
    /** The uid of the graph's own node. */
    const uid: Uid
    var modelMap: map<Uid, ModelRef>
    var events: seq<GraphEvent>

    constructor(store: NodeStore, uid: Uid)
      ensures this.store == store && this.uid == uid && modelMap == map[] && events == []
    {
      this.store := store;
      this.uid := uid;
      modelMap := map[];
      events := [];
    }

    /** `hasModel`: whether the model's uid is a key of the map. */
    predicate HasModel(m: ModelRef)
      reads this
    {
      m.uid in modelMap
    }

    /** Every model is recorded under its own uid. */
    predicate KeyedByUid()
      reads this
    {
      forall k :: k in modelMap ==> modelMap[k].uid == k
    }

    /** `hasModelID`: agrees with `hasModel` on every model carrying that uid. */
    method HasModelID(modelID: Uid) returns (r: bool)
      ensures r <==> modelID in modelMap
      ensures forall m: ModelRef :: m.uid == modelID ==> (r <==> HasModel(m))
    {
      r := modelID in modelMap;
    }

    /**
     * `_addModel`: record the model under its uid unless that uid is already
     * recorded (an existing entry is never overwritten), then signal that a
     * node was added.
     */
    method AddModel(m: ModelRef)
      modifies this`modelMap, this`events
      ensures HasModel(m)
      ensures old(KeyedByUid()) ==> KeyedByUid()
      ensures m.uid in old(modelMap) ==> modelMap == old(modelMap)
      ensures m.uid !in old(modelMap) ==> modelMap == old(modelMap)[m.uid := m]
      ensures events == old(events) + [NodeAdded(m.uid)]
    {
      if !HasModel(m) {
        modelMap := modelMap[m.uid := m];
      }
      events := events + [NodeAdded(m.uid)];
    }

    /** `_removeModel`: the map is left as it is; only the event is signalled. */
    method RemoveModel(m: ModelRef)
      modifies this`events
      ensures events == old(events) + [NodeRemoved(m.uid)]
    {
      events := events + [NodeRemoved(m.uid)];
    }

    /** `_releaseModel`: delete exactly the model's uid from the map, then signal. */
    method ReleaseModel(m: ModelRef)
      modifies this`modelMap, this`events
      ensures !HasModel(m)
      ensures old(KeyedByUid()) ==> KeyedByUid()
      ensures modelMap == old(modelMap) - {m.uid}
      ensures events == old(events) + [NodeReleased(m.uid)]
    {
      modelMap := modelMap - {m.uid};
      events := events + [NodeReleased(m.uid)];
    }

    /** `getPointLights`: the point lights among the graph node's descendants, in descendant order. */
    method GetPointLights() returns (r: seq<Uid>)
      requires store.Valid() && uid in store.nodes
      ensures var all := Descendants(store.nodes, store.depth, store.maxDepth, uid);
        && (forall u :: u in all ==> u in store.nodes)
        && r == PointLightsIn(store.nodes, all)
    {
      var all := store.GetDescendantList(uid);
      DescendantsStored(store.nodes, store.depth, store.maxDepth, uid);
      r := FilterPointLights(store.nodes, all);
    }
  }
}
