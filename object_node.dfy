// The operations of anigraph/base/aobject/AObjectNode.ts on a store of
// nodes. Each method takes the uid of the node the source calls it on; the
// events the source signals along the way are not modelled.

module ObjectNode {
  import opened Wrappers
  import opened SceneGraph

  /** Every node of a well-formed store has one root across its subtree. */
  lemma UniformRootOf(s: Store, d: Depths, maxDepth: nat, n: Uid)
    requires WellFormed(s, d, maxDepth) && n in s
    ensures UniformRoot(s, d, n)
  {
    forall u | u in s && Under(s, d, u, n)
      ensures s[u].root == s[n].root
    {
      UnderSameRoot(s, d, u, n);
    }
  }

  /** Adding a fresh node with no links keeps a store well formed. */
  lemma AddNodeWellFormed(s: Store, d: Depths, maxDepth: nat, uid: Uid, node: Node)
    requires WellFormed(s, d, maxDepth) && uid !in s
    requires node.parent.None? && node.root == uid && node.children == []
    ensures WellFormed(s[uid := node], d[uid := 0], maxDepth)
  {
    var t := s[uid := node];
    forall u, i | u in t && 0 <= i < |t[u].children|
      ensures t[u].children[i] in t && t[t[u].children[i]].parent == Some(u)
    {
      assert u != uid && s[u].children[i] in s;
    }
  }

  /** The links `addChild` writes after the root setter has run give the attached store. */
  lemma AttachState(s0: Store, d0: Depths, m0: nat, p: Uid, c: Uid, k: nat, s1: Store, s2: Store)
    requires CanAttach(s0, d0, m0, p, c, k) && s1 == RootsSet(s0, d0, c, s0[p].root)
    requires p in s1 && c in s1
    requires s2 == s1[c := s1[c].(parent := Some(p))][p := s1[p].(children := Insert(s0[p].children, c, k))]
    ensures p != c && s2 == Attached(s0, d0, p, c, k)
    ensures WellFormed(s2, AttachDepths(s0, d0, p, c), m0 + m0 + 1)
  {
    AttachWellFormed(s0, d0, m0, p, c, k);
  }

  /** The links `removeChild` writes after the root setter has run give the detached store. */
  lemma DetachState(s0: Store, d0: Depths, m0: nat, p: Uid, c: Uid, k: nat, s1: Store, s2: Store)
    requires CanDetach(s0, d0, m0, p, c, k) && s1 == RootsSet(s0, d0, c, c)
    requires p in s1 && c in s1
    requires s2 == s1[c := s1[c].(parent := None)][p := s1[p].(children := RemoveAt(s0[p].children, k))]
    ensures p != c && s2 == Detached(s0, d0, p, c, k)
    ensures WellFormed(s2, DetachDepths(s0, d0, c), m0)
  {
    DetachWellFormed(s0, d0, m0, p, c, k);
  }

  /** The store once `c` has left its parent, if it had one: the first half of `reparent`. */
  ghost function Unparented(s: Store, d: Depths, maxDepth: nat, c: Uid): Store
    requires WellFormed(s, d, maxDepth) && c in s
  {
    match s[c].parent
    case None => s
    case Some(q) => Detached(s, d, q, c, IndexOf(s[q].children, c))
  }

  ghost function UnparentedDepths(s: Store, d: Depths, c: Uid): Depths
    requires Layered(s, d) && c in s
  {
    if s[c].parent.None? then d else DetachDepths(s, d, c)
  }

  /** After leaving its parent, `c` can be attached under any node outside its own subtree. */
  lemma UnparentedFacts(s: Store, d: Depths, maxDepth: nat, c: Uid, np: Uid)
    requires WellFormed(s, d, maxDepth) && c in s && np in s && !Under(s, d, np, c)
    ensures var t := Unparented(s, d, maxDepth, c);
      var dt := UnparentedDepths(s, d, c);
      && WellFormed(t, dt, maxDepth) && t.Keys == s.Keys && np in t && c in t
      && t[c].parent.None? && c !in t[np].children && !Under(t, dt, np, c)
  {
    var t := Unparented(s, d, maxDepth, c);
    var dt := UnparentedDepths(s, d, c);
    if s[c].parent.Some? {
      var q := s[c].parent.value;
      var k := IndexOf(s[q].children, c);
      DetachWellFormed(s, d, maxDepth, q, c, k);
      DetachedAt(s, d, q, c, k, c);
      DetachedParents(s, d, q, c, k);
      UnderSameParentsBut(s, d, t, dt, np, c);
    }
  }

  /**
   * `reparent(np)` on `c`: `c` leaves its parent, if any, and is appended to
   * `np`'s children.
   */
  ghost function Reparented(s: Store, d: Depths, maxDepth: nat, c: Uid, np: Uid): Store
    requires WellFormed(s, d, maxDepth) && c in s && np in s && !Under(s, d, np, c)
  {
    var t := Unparented(s, d, maxDepth, c);
    UnparentedFacts(s, d, maxDepth, c, np);
    assert np != c;
    Attached(t, UnparentedDepths(s, d, c), np, c, |t[np].children|)
  }

  /** Reparenting a child onto its own parent only moves it to the end of the child list. */
  lemma ReparentedSameParent(s: Store, d: Depths, maxDepth: nat, c: Uid, p: Uid)
    requires WellFormed(s, d, maxDepth) && c in s && s[c].parent == Some(p)
    ensures p in s && !Under(s, d, p, c) && c in s[p].children
    ensures Reparented(s, d, maxDepth, c, p) == s[p := s[p].(children := MoveToEnd(s[p].children, c))]
  {
    assert p in s && c in s[p].children;
    var k := IndexOf(s[p].children, c);
    assert !Under(s, d, p, c) by {
      if Under(s, d, p, c) {
        UnderDepth(s, d, p, c);
      }
    }
    ReparentToSameParent(s, d, maxDepth, p, c, k);
  }

  /** How many uids at the front of `uids` name children in `cs`: where `reorderChildren` stops. */
  function ListedPrefix(uids: seq<Uid>, cs: seq<Uid>): (k: nat)
    ensures k <= |uids|
    ensures forall j :: 0 <= j < k ==> uids[j] in cs
    ensures k < |uids| ==> uids[k] !in cs
  {
    if uids == [] || uids[0] !in cs then 0 else 1 + ListedPrefix(uids[1..], cs)
  }

  lemma ListedPrefixAt(uids: seq<Uid>, cs: seq<Uid>, i: nat)
    requires i <= |uids| && (forall u :: u in uids[..i] ==> u in cs) && (i < |uids| ==> uids[i] !in cs)
    ensures ListedPrefix(uids, cs) == i
  {
  }

  /** Reordering keeps the set of children. */
  lemma MoveAllToEndMembers(cs: seq<Uid>, uids: seq<Uid>)
    requires forall u :: u in uids ==> u in cs
    ensures forall u :: u in MoveAllToEnd(cs, uids) <==> u in cs
  {
    MoveAllToEndPermutes(cs, uids);
    assert forall u :: u in MoveAllToEnd(cs, uids) <==> u in multiset(MoveAllToEnd(cs, uids));
  }

  lemma MoveAllToEndMember(cs: seq<Uid>, uids: seq<Uid>, u: Uid)
    requires forall u :: u in uids ==> u in cs
    ensures u in MoveAllToEnd(cs, uids) <==> u in cs
  {
    MoveAllToEndMembers(cs, uids);
  }

  lemma ChildrenTwice(s: Store, n: Uid, a: seq<Uid>, b: seq<Uid>)
    requires n in s
    ensures var t := s[n := s[n].(children := a)];
      t[n := t[n].(children := b)] == s[n := s[n].(children := b)]
  {
  }

  lemma TakeOneMore(s: seq<Uid>, i: nat)
    requires i < |s|
    ensures s[..i + 1] == s[..i] + [s[i]]
  {
  }

  lemma SnocTail(uids: seq<Uid>, x: Uid)
    requires uids != []
    ensures (uids + [x])[0] == uids[0] && (uids + [x])[1..] == uids[1..] + [x]
  {
  }

  /** After the first listed child moves, the remaining ones are still children. */
  lemma TailListed(cs: seq<Uid>, uids: seq<Uid>)
    requires uids != [] && forall u :: u in uids ==> u in cs
    ensures forall u :: u in uids[1..] ==> u in MoveToEnd(cs, uids[0])
  {
    forall u | u in uids[1..]
      ensures u in MoveToEnd(cs, uids[0])
    {
      assert u in uids;
    }
  }

  /** Moving one more listed child extends the fold by one step. */
  lemma {:induction false} MoveAllToEndSnoc(cs: seq<Uid>, uids: seq<Uid>, x: Uid)
    requires (forall u :: u in uids ==> u in cs) && x in cs
    ensures x in MoveAllToEnd(cs, uids)
    ensures MoveAllToEnd(cs, uids + [x]) == MoveToEnd(MoveAllToEnd(cs, uids), x)
    decreases |uids|
  {
    MoveAllToEndMember(cs, uids, x);
    if uids == [] {
      assert uids + [x] == [x] && [x][1..] == [];
    } else {
      var cs', rest := MoveToEnd(cs, uids[0]), uids[1..];
      SnocTail(uids, x);
      TailListed(cs, uids);
      MoveAllToEndSnoc(cs', rest, x);
      assert MoveAllToEnd(cs, uids) == MoveAllToEnd(cs', rest);
      assert MoveAllToEnd(cs, uids + [x]) == MoveAllToEnd(cs', rest + [x]);
    }
  }

  /**
   * The children `removeChildren` leaves behind, as written: its for-of loop
   * walks the live child list by index `i` while each visit removes the
   * child it is on, so the child that slides into the visited slot is never
   * visited. Half of the children (rounded down) stay attached.
   */
  function ChildrenLeftAsWritten(cs: seq<Uid>, i: nat): (r: seq<Uid>)
    ensures |r| == if i >= |cs| then |cs| else i + (|cs| - i) / 2
    decreases |cs| - i
  {
    if i >= |cs| then cs else ChildrenLeftAsWritten(RemoveAt(cs, i), i + 1)
  }

  /** With children `a`, `b`, `c`, `removeChildren` as written leaves `b` attached. */
  lemma RemoveChildrenAsWrittenSkips()
    ensures ChildrenLeftAsWritten(["a", "b", "c"], 0) == ["b"]
  {
    assert RemoveAt(["a", "b", "c"], 0) == ["b", "c"];
    assert RemoveAt(["b", "c"], 1) == ["b"];
  }

  /**
   * Part way through removing all children of `n` (store `s0` before,
   * `s` now): the same nodes; the children left are former children; every
   * former child is still a child or has no parent; every other node keeps
   * its parent.
   */
  ghost predicate Emptying(s0: Store, s: Store, n: Uid)
    requires n in s0
  {
    && s.Keys == s0.Keys && n in s
    && (forall c :: c in s[n].children ==> c in s0[n].children)
    && (forall c :: c in s0[n].children ==> c in s[n].children || (c in s && s[c].parent.None?))
    && (forall u :: u in s && u in s0 && u !in s0[n].children ==> s[u].parent == s0[u].parent)
  }

  lemma EmptyingStep(s0: Store, s1: Store, s2: Store, n: Uid)
    requires n in s0 && Emptying(s0, s1, n) && s1[n].children != []
    requires s2.Keys == s1.Keys && n in s2 && s2[n].children == s1[n].children[1..]
    requires s1[n].children[0] in s2 && s2[s1[n].children[0]].parent.None?
    requires forall u :: u in s2 && u in s1 && u != s1[n].children[0] ==> s2[u].parent == s1[u].parent
    ensures Emptying(s0, s2, n)
  {
    var cs := s1[n].children;
    assert forall c :: c in cs[1..] ==> c in cs;
  }

  /** The name the constructor gives: the one passed, or the class label when it is missing or empty. */
  function NodeName(name: Option<string>, classLabel: string): (r: string)
    ensures name.Some? && name.value != "" ==> r == name.value
    ensures name.None? || name.value == "" ==> r == classLabel
  {
    if name.Some? && name.value != "" then name.value else classLabel
  }

  class NodeStore {
    var nodes: Store
    ghost var depth: Depths
    ghost var maxDepth: nat

    ghost predicate Valid()
      reads this
    {
      WellFormed(nodes, depth, maxDepth)
    }

    constructor()
      ensures Valid() && nodes == map[]
    {
      nodes := map[];
      depth := map[];
      maxDepth := 0;
    }

    /** The `AObjectNode` constructor: a new node with no parent, no children, and itself as root. */
    method AddNode(uid: Uid, name: Option<string>, classLabel: string, kind: Kind)
      requires Valid() && uid !in nodes
      modifies this
      ensures Valid()
      ensures nodes == old(nodes)[uid := Node(NodeName(name, classLabel), kind, None, uid, [])]
    {
      var node := Node(NodeName(name, classLabel), kind, None, uid, []);
      AddNodeWellFormed(nodes, depth, maxDepth, uid, node);
      nodes := nodes[uid := node];
      depth := depth[uid := 0];
    }

    /**
     * The `root` setter on `n`: when `n`'s root is not `r` already, give `n`
     * root `r` and apply the setter to each child in turn.
     */
    method SetRoot(n: Uid, r: Uid)
      requires Shaped(nodes, depth, maxDepth) && ParentLinks(nodes) && n in nodes
      requires UniformRoot(nodes, depth, n)
      modifies this`nodes
      ensures nodes == RootsSet(old(nodes), depth, n, r)
      decreases maxDepth - depth[n]
    {
      if nodes[n].root == r {
        RootsSetNoop(nodes, depth, n, r);
        return;
      }
      ghost var s0 := nodes;
      RootsSetStart(s0, depth, n, r);
      nodes := nodes[n := nodes[n].(root := r)];
      var cs := nodes[n].children;
      var i := 0;
      while i < |cs|
        invariant 0 <= i <= |cs| && cs == s0[n].children
        invariant nodes == RootsSetUpTo(s0, depth, n, i, r)
      {
        RootsSetStep(s0, depth, maxDepth, n, i, r);
        assert depth[cs[i]] == depth[n] + 1;
        SetRoot(cs[i], r);
        i := i + 1;
      }
      RootsSetDone(s0, depth, n, r);
    }

    /**
     * `addChild(c, position)` on `p`. It fails, changing nothing, when `c` is
     * already a child of `p` or already has a parent; otherwise `c` gets
     * parent `p`, is spliced into `p`'s children at `position` (pushed when
     * there is none), and its subtree takes `p`'s root.
     */
    method AddChild(p: Uid, c: Uid, position: Option<int>) returns (result: Result<(), string>)
      requires Valid() && p in nodes && c in nodes && (nodes[c].parent.None? ==> !Under(nodes, depth, p, c))
      modifies this
      ensures Valid()
      ensures result.Err? <==> c in old(nodes)[p].children || old(nodes)[c].parent.Some?
      ensures result.Err? ==> nodes == old(nodes)
      ensures result.Ok? ==>
        && p != c
        && nodes == Attached(old(nodes), old(depth), p, c, InsertIndex(position, |old(nodes)[p].children|))
    {
      if c in nodes[p].children {
        return Err("Tried to add existing child");
      }
      if nodes[c].parent.Some? {
        return Err("Child already has a parent");
      }
      Attach(p, c, InsertIndex(position, |nodes[p].children|));
      return Ok(());
    }

    /** The link updates of a successful `addChild`: root setter first, then parent and child list. */
    method Attach(p: Uid, c: Uid, k: nat)
      requires Valid() && p in nodes && c in nodes && nodes[c].parent.None? && c !in nodes[p].children
      requires !Under(nodes, depth, p, c) && k <= |nodes[p].children|
      modifies this
      ensures Valid() && p != c
      ensures nodes == Attached(old(nodes), old(depth), p, c, k)
    {
      ghost var s0, d0, m0 := nodes, depth, maxDepth;
      var cs := nodes[p].children;
      UniformRootOf(s0, d0, m0, c);
      SetRoot(c, nodes[p].root);
      ghost var s1 := nodes;
      nodes := nodes[c := nodes[c].(parent := Some(p))][p := nodes[p].(children := Insert(cs, c, k))];
      depth := AttachDepths(s0, d0, p, c);
      maxDepth := m0 + m0 + 1;
      AttachState(s0, d0, m0, p, c, k, s1, nodes);
    }

    /** The link updates of a successful `removeChild`, with `c` found at index `k`. */
    method Detach(p: Uid, c: Uid, k: nat)
      requires Valid() && p in nodes && k < |nodes[p].children| && nodes[p].children[k] == c
      modifies this
      ensures Valid() && c in old(nodes) && p != c
      ensures nodes == Detached(old(nodes), old(depth), p, c, k)
    {
      ghost var s0, d0 := nodes, depth;
      var cs := nodes[p].children;
      ChildOf(s0, d0, maxDepth, p, c, k);
      UniformRootOf(s0, d0, maxDepth, c);
      SetRoot(c, c);
      ghost var s1 := nodes;
      nodes := nodes[c := nodes[c].(parent := None)][p := nodes[p].(children := RemoveAt(cs, k))];
      depth := DetachDepths(s0, d0, c);
      DetachState(s0, d0, maxDepth, p, c, k, s1, nodes);
    }

    /**
     * `removeChild(c)` on `p`. It fails, changing nothing, when `c` is not a
     * child of `p`; otherwise `c` leaves `p`'s children, loses its parent,
     * and its subtree takes `c` as root.
     */
    method RemoveChild(p: Uid, c: Uid) returns (result: Result<(), string>)
      requires Valid() && p in nodes
      modifies this
      ensures Valid()
      ensures result.Err? <==> c !in old(nodes)[p].children
      ensures result.Err? ==> nodes == old(nodes)
      ensures result.Ok? ==>
        && c in old(nodes) && p != c
        && nodes == Detached(old(nodes), old(depth), p, c, IndexOf(old(nodes)[p].children, c))
    {
      var cs := nodes[p].children;
      for k := 0 to |cs|
        invariant forall j :: 0 <= j < k ==> cs[j] != c
      {
        if cs[k] == c {
          Detach(p, c, k);
          return Ok(());
        }
      }
      return Err("Tried to remove node that is not a child");
    }

    /**
     * `removeChildren` on `n`, as evidently intended: every child of `n`
     * is removed, one `removeChild` at a time, until none is left. Each
     * former child ends up with no parent; no other node's parent changes.
     */
    method RemoveChildren(n: Uid)
      requires Valid() && n in nodes
      modifies this
      ensures Valid() && nodes.Keys == old(nodes).Keys
      ensures nodes[n].children == []
      ensures forall c :: c in old(nodes)[n].children ==> nodes[c].parent.None?
      ensures forall u :: u in nodes && u !in old(nodes)[n].children ==> nodes[u].parent == old(nodes)[u].parent
    {
      ghost var s0 := nodes;
      while nodes[n].children != []
        invariant Valid() && n in nodes && Emptying(s0, nodes, n)
        decreases |nodes[n].children|
      {
        ghost var s1 := nodes;
        RemoveFirstChild(n);
        EmptyingStep(s0, s1, nodes, n);
      }
    }

    /** One step of `RemoveChildren`: `removeChild` on the first child of `n`. */
    method RemoveFirstChild(n: Uid)
      requires Valid() && n in nodes && nodes[n].children != []
      modifies this
      ensures Valid() && nodes.Keys == old(nodes).Keys
      ensures nodes[n].children == old(nodes)[n].children[1..]
      ensures old(nodes)[n].children[0] in nodes && nodes[old(nodes)[n].children[0]].parent.None?
      ensures forall u :: u in nodes && u in old(nodes) && u != old(nodes)[n].children[0] ==> nodes[u].parent == old(nodes)[u].parent
    {
      ghost var s0, d0 := nodes, depth;
      var cs := nodes[n].children;
      var c := cs[0];
      var result := RemoveChild(n, c);
      assert IndexOf(cs, c) == 0;
      DetachedParents(s0, d0, n, c, 0);
      DetachedAt(s0, d0, n, c, 0, n);
      DetachedAt(s0, d0, n, c, 0, c);
    }

    /**
     * `getAncestorList` on `n`: follow parent links, nearest first, until a
     * node has no parent or is its own parent (which a well-formed store
     * never has).
     */
    method GetAncestorList(n: Uid) returns (r: seq<Uid>)
      requires Valid() && n in nodes
      ensures r == Ancestors(nodes, depth, n)
    {
      r := [];
      var parent := nodes[n].parent;
      var last := n;
      while parent.Some? && parent.value != last
        invariant last in nodes && parent == nodes[last].parent
        invariant r + Ancestors(nodes, depth, last) == Ancestors(nodes, depth, n)
        decreases depth[last]
      {
        assert Ancestors(nodes, depth, last) == [parent.value] + Ancestors(nodes, depth, parent.value);
        assert r + [parent.value] + Ancestors(nodes, depth, parent.value) == r + Ancestors(nodes, depth, last);
        r := r + [parent.value];
        last := parent.value;
        parent := nodes[last].parent;
      }
    }

    /** `getDescendantList` on `n`: each child, followed at once by that child's own descendant list. */
    method GetDescendantList(n: Uid) returns (r: seq<Uid>)
      requires Valid() && n in nodes
      ensures r == Descendants(nodes, depth, maxDepth, n)
      decreases maxDepth - depth[n]
    {
      r := [];
      var cs := nodes[n].children;
      for i := 0 to |cs|
        invariant r == DescendantsOfFirst(nodes, depth, maxDepth, n, i)
      {
        var c := cs[i];
        assert c in nodes && depth[c] == depth[n] + 1;
        var below := GetDescendantList(c);
        r := r + [c] + below;
      }
    }

    /** `getChildWithID` on `n`: the child with that uid, if `n` has one. */
    method GetChildWithID(n: Uid, uid: Uid) returns (r: Option<Uid>)
      requires n in nodes
      ensures r.Some? <==> uid in nodes[n].children
      ensures r.Some? ==> r.value == uid
    {
      var cs := nodes[n].children;
      for i := 0 to |cs|
        invariant uid !in cs[..i]
      {
        if cs[i] == uid {
          return Some(cs[i]);
        }
      }
      assert cs[..|cs|] == cs;
      return None;
    }

    /** `_uidsToChildrenList` on `n`: the children named by `uids`, in that order; it fails on a uid that names none. */
    method UidsToChildrenList(n: Uid, uids: seq<Uid>) returns (result: Result<seq<Uid>, string>)
      requires n in nodes
      ensures result.Ok? <==> forall u :: u in uids ==> u in nodes[n].children
      ensures result.Ok? ==> result.value == uids
    {
      var found: seq<Uid> := [];
      for i := 0 to |uids|
        invariant found == uids[..i]
        invariant forall j :: 0 <= j < i ==> uids[j] in nodes[n].children
      {
        var child := GetChildWithID(n, uids[i]);
        if child.None? {
          return Err("unrecognized child uid");
        }
        found := found + [child.value];
      }
      assert uids[..|uids|] == uids;
      return Ok(found);
    }

    /** `reparent(newParent)` on `c`: leave the current parent, if any, then join `newParent` at the end. */
    method Reparent(c: Uid, newParent: Uid)
      requires Valid() && c in nodes && newParent in nodes && !Under(nodes, depth, newParent, c)
      modifies this
      ensures Valid() && nodes == Reparented(old(nodes), old(depth), old(maxDepth), c, newParent)
    {
      ghost var s0, d0, m0 := nodes, depth, maxDepth;
      UnparentedFacts(s0, d0, m0, c, newParent);
      if nodes[c].parent.Some? {
        var removed := RemoveChild(nodes[c].parent.value, c);
      }
      assert nodes == Unparented(s0, d0, m0, c);
      LayeredUnique(nodes, depth, UnparentedDepths(s0, d0, c));
      var added := AddChild(newParent, c, None);
    }

    /**
     * `reorderChildren(uids)` on `n`: each listed child in turn is reparented
     * onto `n`, which moves it to the end. A uid that names no child stops
     * the loop with an error, after the children before it have moved.
     */
    method ReorderChildren(n: Uid, uids: seq<Uid>) returns (result: Result<(), string>)
      requires Valid() && n in nodes
      modifies this
      ensures Valid()
      ensures result.Ok? <==> forall u :: u in uids ==> u in old(nodes)[n].children
      ensures var k := ListedPrefix(uids, old(nodes)[n].children);
        nodes == old(nodes)[n := old(nodes)[n].(children := MoveAllToEnd(old(nodes)[n].children, uids[..k]))]
    {
      ghost var s0 := nodes;
      ghost var cs0 := nodes[n].children;
      assert uids[..0] == [];
      assert s0 == s0[n := s0[n].(children := MoveAllToEnd(cs0, uids[..0]))];
      for i := 0 to |uids|
        invariant Valid() && n in nodes
        invariant forall u :: u in uids[..i] ==> u in cs0
        invariant nodes == s0[n := s0[n].(children := MoveAllToEnd(cs0, uids[..i]))]
      {
        var child := GetChildWithID(n, uids[i]);
        MoveAllToEndMember(cs0, uids[..i], uids[i]);
        if child.None? {
          assert ListedPrefix(uids, cs0) == i by {
            ListedPrefixAt(uids, cs0, i);
          }
          return Err("Tried to reorder children with uid that does not belong to parent.");
        }
        var c := child.value;
        assert c == uids[i] && c in cs0;
        MoveListedChild(n, c, s0, cs0, uids[..i]);
        TakeOneMore(uids, i);
      }
      assert uids[..|uids|] == uids;
      ListedPrefixAt(uids, cs0, |uids|);
      return Ok(());
    }

    /** One step of `reorderChildren`: the listed child `c` of `n` moves to the end. */
    method MoveListedChild(n: Uid, c: Uid, ghost s0: Store, ghost cs0: seq<Uid>, ghost done: seq<Uid>)
      requires Valid() && n in s0 && (forall u :: u in done ==> u in cs0) && c in cs0
      requires nodes == s0[n := s0[n].(children := MoveAllToEnd(cs0, done))]
      modifies this
      ensures Valid() && n in nodes
      ensures nodes == s0[n := s0[n].(children := MoveAllToEnd(cs0, done + [c]))]
    {
      ghost var moved := MoveAllToEnd(cs0, done);
      MoveAllToEndSnoc(cs0, done, c);
      assert c in nodes[n].children;
      ReparentedSameParent(nodes, depth, maxDepth, c, n);
      ChildrenTwice(s0, n, moved, MoveToEnd(moved, c));
      Reparent(c, n);
    }
  }
}
