// The scene graph's node links (anigraph/base/aobject/AObjectNode.ts). Every
// node has a uid, an optional parent, a root and an ordered list of
// children. Nodes are kept in a store indexed by uid: the source compares
// nodes by uid (removal, lookup) or by identity (`children.includes`), and in
// the model the two coincide.

module SceneGraph {
  import opened Wrappers

  type Uid = string

  /** What kind of model a node is; only point lights are told apart (AModelGraph). */
  datatype Kind = PointLight | OtherNode

  /** The link fields of one node: `_parent`, `_root` and `_children`. */
  datatype Node = Node(name: string, kind: Kind, parent: Option<Uid>, root: Uid, children: seq<Uid>)

  type Store = map<Uid, Node>

  /**
   * Depth of every node below its topmost ancestor. It is bookkeeping of the
   * model (the source has no such field): it shows that parent links never
   * form a cycle and it bounds the recursions over children.
   */
  type Depths = map<Uid, nat>

  // ---------------------------------------------------------------------------
  // Well-formed stores
  // ---------------------------------------------------------------------------

  /** Every child named in a child list is a node whose parent is the owner of the list, and no list repeats a child. */
  ghost predicate ChildLinks(s: Store) {
    && (forall u, i :: u in s && 0 <= i < |s[u].children| ==>
          s[u].children[i] in s && s[s[u].children[i]].parent == Some(u))
    && (forall u, i, j :: u in s && 0 <= i < j < |s[u].children| ==> s[u].children[i] != s[u].children[j])
  }

  /** A node listed among the children of `u` is a node whose parent is `u`. */
  lemma ListedChild(s: Store, u: Uid, x: Uid)
    requires ChildLinks(s) && u in s && x in s[u].children
    ensures x in s && s[x].parent == Some(u)
  {
    var i :| 0 <= i < |s[u].children| && s[u].children[i] == x;
  }

  /** A node with a parent is listed among that parent's children. */
  ghost predicate ParentLinks(s: Store) {
    forall u :: u in s && s[u].parent.Some? ==> s[u].parent.value in s && u in s[s[u].parent.value].children
  }

  /** Depths count parent links: a node with a parent lies one below it, a node without one at 0. */
  ghost predicate Layered(s: Store, d: Depths) {
    && d.Keys == s.Keys
    && (forall u :: u in s && s[u].parent.None? ==> d[u] == 0)
    && (forall u :: u in s && s[u].parent.Some? ==> s[u].parent.value in s && d[u] == d[s[u].parent.value] + 1)
  }

  ghost predicate Bounded(d: Depths, maxDepth: nat) {
    forall u :: u in d ==> d[u] <= maxDepth
  }

  /** The `root` of a node without a parent is itself; every other node shares its parent's root. */
  ghost predicate RootsAgree(s: Store) {
    && (forall u :: u in s && s[u].parent.None? ==> s[u].root == u)
    && (forall u :: u in s && s[u].parent.Some? && s[u].parent.value in s ==> s[u].root == s[s[u].parent.value].root)
  }

  /** The invariant every public operation keeps. */
  ghost predicate WellFormed(s: Store, d: Depths, maxDepth: nat) {
    ChildLinks(s) && ParentLinks(s) && Layered(s, d) && Bounded(d, maxDepth) && RootsAgree(s)
  }

  // ---------------------------------------------------------------------------
  // Ancestors and subtrees
  // ---------------------------------------------------------------------------

  /** `getAncestorList`: the parent, its parent, and so on, nearest first. */
  ghost function Ancestors(s: Store, d: Depths, u: Uid): (r: seq<Uid>)
    requires Layered(s, d) && u in s
    ensures |r| == d[u]
    ensures forall k :: 0 <= k < |r| ==> r[k] in s
    decreases d[u]
  {
    if s[u].parent.None? then [] else [s[u].parent.value] + Ancestors(s, d, s[u].parent.value)
  }

  /** `u` is `n` or lies somewhere below it. */
  ghost predicate Under(s: Store, d: Depths, u: Uid, n: Uid)
    requires Layered(s, d) && u in s
    decreases d[u]
  {
    u == n || (s[u].parent.Some? && Under(s, d, s[u].parent.value, n))
  }

  lemma {:induction false} UnderDepth(s: Store, d: Depths, u: Uid, n: Uid)
    requires Layered(s, d) && u in s && Under(s, d, u, n)
    ensures n in s && d[n] <= d[u] && (d[n] == d[u] ==> u == n)
    decreases d[u]
  {
    if u != n {
      UnderDepth(s, d, s[u].parent.value, n);
    }
  }

  /** Two nodes at the same depth above `u` are the same node: subtrees of different siblings are disjoint. */
  lemma {:induction false} UnderUnique(s: Store, d: Depths, u: Uid, a: Uid, b: Uid)
    requires Layered(s, d) && u in s && Under(s, d, u, a) && Under(s, d, u, b)
    requires a in s && b in s && d[a] == d[b]
    ensures a == b
    decreases d[u]
  {
    if u == a {
      UnderDepth(s, d, u, b);
    } else if u == b {
      UnderDepth(s, d, u, a);
    } else {
      UnderUnique(s, d, s[u].parent.value, a, b);
    }
  }

  /** Below a child is below its parent. */
  lemma {:induction false} UnderChild(s: Store, d: Depths, u: Uid, c: Uid, n: Uid)
    requires Layered(s, d) && u in s && c in s && Under(s, d, u, c) && s[c].parent == Some(n)
    ensures Under(s, d, u, n)
    decreases d[u]
  {
    if u != c {
      UnderChild(s, d, s[u].parent.value, c, n);
    }
  }

  /** Strictly below `n` means below one of its children. */
  lemma {:induction false} UnderSomeChild(s: Store, d: Depths, u: Uid, n: Uid)
    requires ParentLinks(s) && Layered(s, d) && u in s && u != n && Under(s, d, u, n)
    ensures n in s && exists j :: 0 <= j < |s[n].children| && Under(s, d, u, s[n].children[j])
    decreases d[u]
  {
    var p := s[u].parent.value;
    if p == n {
      var j :| 0 <= j < |s[n].children| && s[n].children[j] == u;
      assert Under(s, d, u, s[n].children[j]);
    } else {
      UnderSomeChild(s, d, p, n);
      var j :| 0 <= j < |s[n].children| && Under(s, d, p, s[n].children[j]);
      assert Under(s, d, u, s[n].children[j]);
    }
  }

  /** Every node below `n` carries `n`'s root. */
  lemma {:induction false} UnderSameRoot(s: Store, d: Depths, u: Uid, n: Uid)
    requires Layered(s, d) && RootsAgree(s) && u in s && Under(s, d, u, n)
    ensures n in s && s[u].root == s[n].root
    decreases d[u]
  {
    if u != n {
      UnderSameRoot(s, d, s[u].parent.value, n);
    }
  }

  /** Whether a node is below another depends only on parent links. */
  lemma {:induction false} UnderSameParents(s: Store, t: Store, d: Depths, u: Uid, n: Uid)
    requires Layered(s, d) && Layered(t, d) && u in s
    requires s.Keys == t.Keys && forall v :: v in s ==> t[v].parent == s[v].parent
    ensures Under(s, d, u, n) == Under(t, d, u, n)
    decreases d[u]
  {
    if u != n && s[u].parent.Some? {
      UnderSameParents(s, t, d, s[u].parent.value, n);
    }
  }

  /** The last ancestor is the root; a node without ancestors is its own root. */
  lemma {:induction false} AncestorsEndAtRoot(s: Store, d: Depths, u: Uid)
    requires Layered(s, d) && RootsAgree(s) && u in s
    ensures var a := Ancestors(s, d, u);
      (|a| == 0 ==> s[u].root == u) && (|a| > 0 ==> a[|a| - 1] == s[u].root)
    decreases d[u]
  {
    if s[u].parent.Some? {
      AncestorsEndAtRoot(s, d, s[u].parent.value);
    }
  }

  /**
   * The ancestor list holds exactly the nodes strictly above `u`, each one
   * level higher than the one before it, so none repeats.
   */
  lemma {:induction false} AncestorsExact(s: Store, d: Depths, u: Uid)
    requires Layered(s, d) && u in s
    ensures forall a :: a in Ancestors(s, d, u) <==> a in s && a != u && Under(s, d, u, a)
    ensures forall k :: 0 <= k < d[u] ==> d[Ancestors(s, d, u)[k]] == d[u] - 1 - k
    decreases d[u]
  {
    if s[u].parent.Some? {
      var q := s[u].parent.value;
      AncestorsExact(s, d, q);
      forall a | a in s && Under(s, d, q, a)
        ensures a != u
      {
        UnderDepth(s, d, q, a);
      }
    }
  }

  lemma AncestorsNoRepeats(s: Store, d: Depths, u: Uid)
    requires Layered(s, d) && u in s
    ensures NoRepeats(Ancestors(s, d, u))
  {
    AncestorsExact(s, d, u);
  }

  /** A store's depths are fixed by its parent links: two layerings of one store agree. */
  lemma LayeredUnique(s: Store, d1: Depths, d2: Depths)
    requires Layered(s, d1) && Layered(s, d2)
    ensures d1 == d2
  {
    forall u | u in s
      ensures d1[u] == d2[u]
    {
      LayeredUniqueAt(s, d1, d2, u);
    }
  }

  lemma {:induction false} LayeredUniqueAt(s: Store, d1: Depths, d2: Depths, u: Uid)
    requires Layered(s, d1) && Layered(s, d2) && u in s
    ensures d1[u] == d2[u]
    decreases d1[u]
  {
    if s[u].parent.Some? {
      LayeredUniqueAt(s, d1, d2, s[u].parent.value);
    }
  }

  // ---------------------------------------------------------------------------
  // Descendants
  // ---------------------------------------------------------------------------

  ghost predicate Shaped(s: Store, d: Depths, maxDepth: nat) {
    ChildLinks(s) && Layered(s, d) && Bounded(d, maxDepth)
  }

  /** `getDescendantList`: every child, each immediately followed by its own descendants. */
  ghost function Descendants(s: Store, d: Depths, maxDepth: nat, n: Uid): seq<Uid>
    requires Shaped(s, d, maxDepth) && n in s
    decreases maxDepth - d[n] + 1, |s[n].children| + 1
  {
    DescendantsOfFirst(s, d, maxDepth, n, |s[n].children|)
  }

  /** The part of `getDescendantList` contributed by the first `i` children. */
  ghost function DescendantsOfFirst(s: Store, d: Depths, maxDepth: nat, n: Uid, i: nat): seq<Uid>
    requires Shaped(s, d, maxDepth) && n in s && i <= |s[n].children|
    decreases maxDepth - d[n] + 1, i
  {
    if i == 0 then []
    else
      var c := s[n].children[i - 1];
      assert c in s && s[c].parent == Some(n);
      DescendantsOfFirst(s, d, maxDepth, n, i - 1) + [c] + Descendants(s, d, maxDepth, c)
  }

  predicate NoRepeats(r: seq<Uid>) {
    forall i, j :: 0 <= i < j < |r| ==> r[i] != r[j]
  }

  lemma ConcatNoRepeats(a: seq<Uid>, b: seq<Uid>)
    requires NoRepeats(a) && NoRepeats(b) && forall u :: u in a ==> u !in b
    ensures NoRepeats(a + b)
  {
    forall i, j | 0 <= i < j < |a + b|
      ensures (a + b)[i] != (a + b)[j]
    {
      if i < |a| && j >= |a| {
        assert (a + b)[i] in a && (a + b)[j] in b;
      }
    }
  }

  /** `u` lies below one of the first `i` children of `n`. */
  ghost predicate BelowFirst(s: Store, d: Depths, n: Uid, i: nat, u: Uid)
    requires Layered(s, d) && n in s && i <= |s[n].children|
  {
    u in s && exists j :: 0 <= j < i && Under(s, d, u, s[n].children[j])
  }

  /** Subtrees of two different children of a node share no node. */
  lemma SiblingsDisjoint(s: Store, d: Depths, n: Uid, j: nat, k: nat, u: Uid)
    requires ChildLinks(s) && Layered(s, d) && n in s && j < |s[n].children| && k < |s[n].children| && j != k
    requires u in s && Under(s, d, u, s[n].children[j])
    ensures !Under(s, d, u, s[n].children[k])
  {
    var a, b := s[n].children[j], s[n].children[k];
    assert a in s && s[a].parent == Some(n) && b in s && s[b].parent == Some(n);
    assert a != b;
    if Under(s, d, u, b) {
      UnderUnique(s, d, u, a, b);
    }
  }

  /**
   * `getDescendantList(n)` lists exactly the nodes strictly below `n`, each
   * once.
   */
  lemma {:induction false} DescendantsExact(s: Store, d: Depths, maxDepth: nat, n: Uid)
    requires Shaped(s, d, maxDepth) && ParentLinks(s) && n in s
    ensures forall u :: u in Descendants(s, d, maxDepth, n) <==> u in s && u != n && Under(s, d, u, n)
    ensures NoRepeats(Descendants(s, d, maxDepth, n))
    decreases maxDepth - d[n] + 1, |s[n].children| + 1
  {
    var ch := s[n].children;
    DescendantsOfFirstExact(s, d, maxDepth, n, |ch|);
    forall u | u in s && u != n && Under(s, d, u, n)
      ensures u in Descendants(s, d, maxDepth, n)
    {
      UnderSomeChild(s, d, u, n);
      assert BelowFirst(s, d, n, |ch|, u);
    }
    forall u | u in Descendants(s, d, maxDepth, n)
      ensures u in s && u != n && Under(s, d, u, n)
    {
      assert BelowFirst(s, d, n, |ch|, u);
      var j :| 0 <= j < |ch| && Under(s, d, u, ch[j]);
      UnderChild(s, d, u, ch[j], n);
      UnderDepth(s, d, u, ch[j]);
    }
  }

  lemma {:induction false} DescendantsOfFirstExact(s: Store, d: Depths, maxDepth: nat, n: Uid, i: nat)
    requires Shaped(s, d, maxDepth) && ParentLinks(s) && n in s && i <= |s[n].children|
    ensures forall u :: u in DescendantsOfFirst(s, d, maxDepth, n, i) <==> BelowFirst(s, d, n, i, u)
    ensures NoRepeats(DescendantsOfFirst(s, d, maxDepth, n, i))
    decreases maxDepth - d[n] + 1, i
  {
    if i > 0 {
      var ch := s[n].children;
      var c := ch[i - 1];
      assert c in s && s[c].parent == Some(n);
      var before := DescendantsOfFirst(s, d, maxDepth, n, i - 1);
      var below := Descendants(s, d, maxDepth, c);
      assert DescendantsOfFirst(s, d, maxDepth, n, i) == before + ([c] + below);
      DescendantsOfFirstExact(s, d, maxDepth, n, i - 1);
      DescendantsExact(s, d, maxDepth, c);
      assert forall u :: u in [c] + below <==> u in s && Under(s, d, u, c);
      BelowFirstDisjoint(s, d, n, i, before, [c] + below);
      ConcatNoRepeats([c], below);
      ConcatNoRepeats(before, [c] + below);
      BelowFirstJoin(s, d, n, i, before, [c] + below);
    }
  }

  lemma BelowFirstDisjoint(s: Store, d: Depths, n: Uid, i: nat, before: seq<Uid>, rest: seq<Uid>)
    requires ChildLinks(s) && Layered(s, d) && n in s && 0 < i <= |s[n].children|
    requires forall u :: u in before ==> BelowFirst(s, d, n, i - 1, u)
    requires forall u :: u in rest ==> u in s && Under(s, d, u, s[n].children[i - 1])
    ensures forall u :: u in before ==> u !in rest
  {
    forall u | u in before
      ensures u !in rest
    {
      var j :| 0 <= j < i - 1 && Under(s, d, u, s[n].children[j]);
      SiblingsDisjoint(s, d, n, j, i - 1, u);
    }
  }

  lemma BelowFirstJoin(s: Store, d: Depths, n: Uid, i: nat, before: seq<Uid>, rest: seq<Uid>)
    requires Layered(s, d) && n in s && 0 < i <= |s[n].children|
    requires forall u :: u in before <==> BelowFirst(s, d, n, i - 1, u)
    requires forall u :: u in rest <==> u in s && Under(s, d, u, s[n].children[i - 1])
    ensures forall u :: u in before + rest <==> BelowFirst(s, d, n, i, u)
  {
    BelowFirstStep(s, d, n, i);
  }

  lemma BelowFirstStep(s: Store, d: Depths, n: Uid, i: nat)
    requires Layered(s, d) && n in s && 0 < i <= |s[n].children|
    ensures forall u :: BelowFirst(s, d, n, i, u) <==>
      BelowFirst(s, d, n, i - 1, u) || (u in s && Under(s, d, u, s[n].children[i - 1]))
  {
    forall u | BelowFirst(s, d, n, i, u) && !(u in s && Under(s, d, u, s[n].children[i - 1]))
      ensures BelowFirst(s, d, n, i - 1, u)
    {
      var j :| 0 <= j < i && Under(s, d, u, s[n].children[j]);
      assert j < i - 1;
    }
  }

  // ---------------------------------------------------------------------------
  // Root propagation
  // ---------------------------------------------------------------------------

  /** Two stores with the same nodes, parents and children; they may differ in roots. */
  ghost predicate SameLinks(s: Store, t: Store) {
    s.Keys == t.Keys && forall u :: u in s ==> t[u].parent == s[u].parent && t[u].children == s[u].children
  }

  lemma SameLinksShape(s: Store, t: Store, d: Depths, maxDepth: nat)
    requires Shaped(s, d, maxDepth) && ParentLinks(s) && SameLinks(s, t)
    ensures Shaped(t, d, maxDepth) && ParentLinks(t)
    ensures forall u, n :: u in s ==> Under(t, d, u, n) == Under(s, d, u, n)
  {
    forall u, n | u in s
      ensures Under(t, d, u, n) == Under(s, d, u, n)
    {
      UnderSameParents(s, t, d, u, n);
    }
  }

  /** What the `root` setter on `n` leaves: every node of `n`'s subtree gets root `r`. */
  ghost function RootsSet(s: Store, d: Depths, n: Uid, r: Uid): (t: Store)
    requires Layered(s, d)
    ensures SameLinks(s, t)
  {
    map u | u in s :: if Under(s, d, u, n) then s[u].(root := r) else s[u]
  }

  /** Part way through the setter: `n` and the subtrees of its first `i` children have root `r`. */
  ghost function RootsSetUpTo(s: Store, d: Depths, n: Uid, i: nat, r: Uid): (t: Store)
    requires Layered(s, d) && n in s && i <= |s[n].children|
    ensures SameLinks(s, t)
  {
    map u | u in s :: if u == n || BelowFirst(s, d, n, i, u) then s[u].(root := r) else s[u]
  }

  /** All of `n`'s subtree shares `n`'s root (what `RootsAgree` gives every node). */
  ghost predicate UniformRoot(s: Store, d: Depths, n: Uid)
    requires Layered(s, d) && n in s
  {
    forall u :: u in s && Under(s, d, u, n) ==> s[u].root == s[n].root
  }

  lemma RootsSetNoop(s: Store, d: Depths, n: Uid, r: Uid)
    requires Layered(s, d) && n in s && UniformRoot(s, d, n) && s[n].root == r
    ensures RootsSet(s, d, n, r) == s
  {
    var t := RootsSet(s, d, n, r);
    forall u | u in s
      ensures t[u] == s[u]
    {
    }
  }

  lemma RootsSetStart(s: Store, d: Depths, n: Uid, r: Uid)
    requires Layered(s, d) && n in s
    ensures RootsSetUpTo(s, d, n, 0, r) == s[n := s[n].(root := r)]
  {
  }

  /**
   * One more child handled: the setter applied to child `i` of `n` (whose
   * subtree still has one root) extends the finished part by that subtree.
   */
  lemma RootsSetStep(s0: Store, d: Depths, maxDepth: nat, n: Uid, i: nat, r: Uid)
    requires Shaped(s0, d, maxDepth) && ParentLinks(s0) && n in s0 && i < |s0[n].children|
    requires UniformRoot(s0, d, n)
    ensures var cur := RootsSetUpTo(s0, d, n, i, r);
      var c := s0[n].children[i];
      && Shaped(cur, d, maxDepth) && ParentLinks(cur) && c in cur
      && UniformRoot(cur, d, c)
      && RootsSet(cur, d, c, r) == RootsSetUpTo(s0, d, n, i + 1, r)
  {
    var cur := RootsSetUpTo(s0, d, n, i, r);
    var c := s0[n].children[i];
    assert c in s0 && s0[c].parent == Some(n);
    SameLinksShape(s0, cur, d, maxDepth);
    forall u | u in s0 && Under(s0, d, u, c)
      ensures cur[u] == s0[u] && s0[u].root == s0[n].root
    {
      SubtreeUntouched(s0, d, maxDepth, n, i, r, u);
    }
    assert UniformRoot(cur, d, c);
    RootsSetExtend(s0, d, maxDepth, n, i, r);
  }

  /** Before child `i` is handled, no node of its subtree has changed, and each has `n`'s root. */
  lemma SubtreeUntouched(s0: Store, d: Depths, maxDepth: nat, n: Uid, i: nat, r: Uid, u: Uid)
    requires Shaped(s0, d, maxDepth) && n in s0 && i < |s0[n].children|
    requires UniformRoot(s0, d, n)
    requires u in s0 && Under(s0, d, u, s0[n].children[i])
    ensures RootsSetUpTo(s0, d, n, i, r)[u] == s0[u] && s0[u].root == s0[n].root
  {
    var c := s0[n].children[i];
    assert c in s0 && s0[c].parent == Some(n);
    UnderDepth(s0, d, u, c);
    if BelowFirst(s0, d, n, i, u) {
      var j :| 0 <= j < i && Under(s0, d, u, s0[n].children[j]);
      SiblingsDisjoint(s0, d, n, j, i, u);
    }
    UnderChild(s0, d, u, c, n);
  }

  lemma RootsSetExtend(s0: Store, d: Depths, maxDepth: nat, n: Uid, i: nat, r: Uid)
    requires Shaped(s0, d, maxDepth) && ParentLinks(s0) && n in s0 && i < |s0[n].children|
    ensures var cur := RootsSetUpTo(s0, d, n, i, r);
      RootsSet(cur, d, s0[n].children[i], r) == RootsSetUpTo(s0, d, n, i + 1, r)
  {
    var cur := RootsSetUpTo(s0, d, n, i, r);
    var c := s0[n].children[i];
    assert c in s0 && s0[c].parent == Some(n);
    SameLinksShape(s0, cur, d, maxDepth);
    BelowFirstStep(s0, d, n, i + 1);
    var next := RootsSet(cur, d, c, r);
    var want := RootsSetUpTo(s0, d, n, i + 1, r);
    forall u | u in s0
      ensures next[u] == want[u]
    {
      if Under(s0, d, u, c) {
        UnderDepth(s0, d, u, c);
      }
    }
  }

  /** Once every child is handled, the whole subtree of `n` has root `r`. */
  lemma RootsSetDone(s: Store, d: Depths, n: Uid, r: Uid)
    requires ChildLinks(s) && ParentLinks(s) && Layered(s, d) && n in s
    ensures RootsSetUpTo(s, d, n, |s[n].children|, r) == RootsSet(s, d, n, r)
  {
    var ch := s[n].children;
    forall u | u in s
      ensures (u == n || BelowFirst(s, d, n, |ch|, u)) == Under(s, d, u, n)
    {
      if u != n && Under(s, d, u, n) {
        UnderSomeChild(s, d, u, n);
      }
      if BelowFirst(s, d, n, |ch|, u) {
        var j :| 0 <= j < |ch| && Under(s, d, u, ch[j]);
        assert ch[j] in s && s[ch[j]].parent == Some(n);
        UnderChild(s, d, u, ch[j], n);
      }
    }
  }

  // ---------------------------------------------------------------------------
  // Child lists
  // ---------------------------------------------------------------------------

  /**
   * Where `children.splice(position, 0, child)` puts the child: a negative
   * position counts from the end, one past the end appends; no position
   * means `push`.
   */
  function InsertIndex(position: Option<int>, len: nat): (k: nat)
    ensures k <= len
    ensures position.None? ==> k == len
    ensures position.Some? && 0 <= position.value <= len ==> k == position.value
    ensures position.Some? && position.value > len ==> k == len
    ensures position.Some? && position.value < 0 ==> k == (if len + position.value < 0 then 0 else len + position.value)
  {
    match position
    case None => len
    case Some(p) =>
      if p < 0 then (if len + p < 0 then 0 else len + p)
      else if p > len then len
      else p
  }

  function Insert(cs: seq<Uid>, x: Uid, k: nat): (r: seq<Uid>)
    requires k <= |cs|
    ensures |r| == |cs| + 1 && r[k] == x && r[..k] == cs[..k] && r[k + 1..] == cs[k..]
    ensures forall y :: y in r <==> y == x || y in cs
  {
    cs[..k] + [x] + cs[k..]
  }

  function RemoveAt(cs: seq<Uid>, k: nat): (r: seq<Uid>)
    requires k < |cs|
    ensures |r| == |cs| - 1 && r[..k] == cs[..k] && r[k..] == cs[k + 1..]
  {
    cs[..k] + cs[k + 1..]
  }

  lemma InsertAtEnd(cs: seq<Uid>, x: Uid)
    ensures Insert(cs, x, |cs|) == cs + [x]
  {
    assert cs[..|cs|] == cs;
  }

  lemma InsertNoRepeats(cs: seq<Uid>, x: Uid, k: nat)
    requires k <= |cs| && NoRepeats(cs) && x !in cs
    ensures NoRepeats(Insert(cs, x, k))
  {
    assert Insert(cs, x, k) == cs[..k] + ([x] + cs[k..]);
    ConcatNoRepeats([x], cs[k..]);
    ConcatNoRepeats(cs[..k], [x] + cs[k..]);
  }

  /** Removing the only copy of `cs[k]` keeps every other element and drops that one. */
  lemma RemoveAtFacts(cs: seq<Uid>, k: nat)
    requires k < |cs| && NoRepeats(cs)
    ensures NoRepeats(RemoveAt(cs, k))
    ensures forall y :: y in RemoveAt(cs, k) <==> y in cs && y != cs[k]
  {
    var r := RemoveAt(cs, k);
    assert cs == cs[..k] + [cs[k]] + cs[k + 1..];
    ConcatNoRepeats(cs[..k], cs[k + 1..]);
  }

  lemma RemoveAtInsert(cs: seq<Uid>, x: Uid, k: nat)
    requires k <= |cs|
    ensures RemoveAt(Insert(cs, x, k), k) == cs
  {
    assert cs == cs[..k] + cs[k..];
  }

  /** Position of `x` in a list that holds it (the loop of `_removeChild` stops at the first match). */
  function IndexOf(cs: seq<Uid>, x: Uid): (k: nat)
    requires x in cs
    ensures k < |cs| && cs[k] == x && forall j :: 0 <= j < k ==> cs[j] != x
  {
    if cs[0] == x then 0 else 1 + IndexOf(cs[1..], x)
  }

  lemma ChildrenNoRepeats(s: Store, u: Uid)
    requires ChildLinks(s) && u in s
    ensures NoRepeats(s[u].children)
  {
  }

  // ---------------------------------------------------------------------------
  // Attaching and detaching a subtree
  // ---------------------------------------------------------------------------

  /** Whether `u` is below `c` depends on parent links other than `c`'s own only. */
  lemma {:induction false} UnderSameParentsBut(s: Store, ds: Depths, t: Store, dt: Depths, u: Uid, c: Uid)
    requires Layered(s, ds) && Layered(t, dt) && s.Keys == t.Keys && u in s
    requires forall v :: v in s && v != c ==> t[v].parent == s[v].parent
    ensures Under(t, dt, u, c) == Under(s, ds, u, c)
    decreases ds[u]
  {
    if u != c && s[u].parent.Some? {
      UnderSameParentsBut(s, ds, t, dt, s[u].parent.value, c);
    }
  }

  /**
   * The store after `_addChild(c, position)` on `p`: `c` gets parent `p` and
   * sits at index `k` of `p`'s children, and `c`'s whole subtree takes `p`'s
   * root.
   */
  ghost function Attached(s: Store, d: Depths, p: Uid, c: Uid, k: nat): Store
    requires Layered(s, d) && p in s && c in s && p != c && k <= |s[p].children|
  {
    var t := RootsSet(s, d, c, s[p].root);
    t[c := t[c].(parent := Some(p))][p := t[p].(children := Insert(s[p].children, c, k))]
  }

  /** Depths after attaching: `c`'s subtree moves down below `p`. */
  ghost function AttachDepths(s: Store, d: Depths, p: Uid, c: Uid): (d': Depths)
    requires Layered(s, d) && p in s
    ensures d'.Keys == d.Keys
  {
    map u | u in s :: if Under(s, d, u, c) then d[u] + d[p] + 1 else d[u]
  }

  /**
   * The store after `_removeChild(c)` on `p`, with `c` at index `k` of `p`'s
   * children: `c` loses its parent and its subtree takes `c` as root.
   */
  ghost function Detached(s: Store, d: Depths, p: Uid, c: Uid, k: nat): Store
    requires Layered(s, d) && p in s && c in s && p != c && k < |s[p].children|
  {
    var t := RootsSet(s, d, c, c);
    t[c := t[c].(parent := None)][p := t[p].(children := RemoveAt(s[p].children, k))]
  }

  /** Depths after detaching: `c`'s subtree moves up so that `c` is at 0. */
  ghost function DetachDepths(s: Store, d: Depths, c: Uid): (d': Depths)
    requires Layered(s, d) && c in s
    ensures d'.Keys == d.Keys
  {
    map u | u in s :: if Under(s, d, u, c) && d[u] >= d[c] then d[u] - d[c] else d[u]
  }

  /** The conditions under which `_addChild` succeeds, plus that `p` is not inside `c`'s own subtree. */
  ghost predicate CanAttach(s: Store, d: Depths, maxDepth: nat, p: Uid, c: Uid, k: nat) {
    && WellFormed(s, d, maxDepth) && p in s && c in s
    && s[c].parent.None? && c !in s[p].children && !Under(s, d, p, c) && k <= |s[p].children|
  }

  /** One node of `Attached`, field by field. */
  lemma AttachedAt(s: Store, d: Depths, p: Uid, c: Uid, k: nat, u: Uid)
    requires Layered(s, d) && p in s && c in s && p != c && k <= |s[p].children| && u in s
    ensures u in Attached(s, d, p, c, k)
    ensures Attached(s, d, p, c, k)[u].name == s[u].name && Attached(s, d, p, c, k)[u].kind == s[u].kind
    ensures Attached(s, d, p, c, k)[u].parent == (if u == c then Some(p) else s[u].parent)
    ensures Attached(s, d, p, c, k)[u].root == (if Under(s, d, u, c) then s[p].root else s[u].root)
    ensures Attached(s, d, p, c, k)[u].children == (if u == p then Insert(s[p].children, c, k) else s[u].children)
  {
  }

  lemma AttachChildLinks(s: Store, d: Depths, maxDepth: nat, p: Uid, c: Uid, k: nat)
    requires CanAttach(s, d, maxDepth, p, c, k)
    ensures p != c && ChildLinks(Attached(s, d, p, c, k))
  {
    var s' := Attached(s, d, p, c, k);
    var ch := s[p].children;
    assert s'.Keys == s.Keys;
    forall u, i | u in s' && 0 <= i < |s'[u].children|
      ensures s'[u].children[i] in s' && s'[s'[u].children[i]].parent == Some(u)
    {
      AttachedAt(s, d, p, c, k, u);
      var x := s'[u].children[i];
      if u != p {
        assert x in s && s[x].parent == Some(u);
        AttachedAt(s, d, p, c, k, x);
      } else if x != c {
        assert x in ch;
        var j :| 0 <= j < |ch| && ch[j] == x;
        assert s[x].parent == Some(p);
        AttachedAt(s, d, p, c, k, x);
      } else {
        AttachedAt(s, d, p, c, k, c);
      }
    }
    ChildrenNoRepeats(s, p);
    InsertNoRepeats(ch, c, k);
    forall u, i, j | u in s' && 0 <= i < j < |s'[u].children|
      ensures s'[u].children[i] != s'[u].children[j]
    {
      AttachedAt(s, d, p, c, k, u);
    }
  }

  lemma AttachParentLinks(s: Store, d: Depths, maxDepth: nat, p: Uid, c: Uid, k: nat)
    requires CanAttach(s, d, maxDepth, p, c, k)
    ensures p != c && ParentLinks(Attached(s, d, p, c, k))
  {
    var s' := Attached(s, d, p, c, k);
    forall u | u in s' && s'[u].parent.Some?
      ensures s'[u].parent.value in s' && u in s'[s'[u].parent.value].children
    {
      if u != c {
        assert s'[u].parent == s[u].parent;
      }
    }
  }

  lemma AttachLayered(s: Store, d: Depths, maxDepth: nat, p: Uid, c: Uid, k: nat)
    requires Layered(s, d) && Bounded(d, maxDepth) && p in s && c in s && s[c].parent.None?
    requires !Under(s, d, p, c) && k <= |s[p].children|
    ensures p != c && Layered(Attached(s, d, p, c, k), AttachDepths(s, d, p, c))
    ensures Bounded(AttachDepths(s, d, p, c), maxDepth + maxDepth + 1)
  {
    var s' := Attached(s, d, p, c, k);
    var d' := AttachDepths(s, d, p, c);
    assert s'.Keys == s.Keys;
    forall u | u in s' && s'[u].parent.None?
      ensures d'[u] == 0
    {
      AttachedAt(s, d, p, c, k, u);
      assert u != c && s[u].parent.None?;
    }
    forall u | u in s' && s'[u].parent.Some?
      ensures s'[u].parent.value in s' && d'[u] == d'[s'[u].parent.value] + 1
    {
      AttachedAt(s, d, p, c, k, u);
      if u != c {
        var q := s[u].parent.value;
        assert Under(s, d, u, c) == Under(s, d, q, c);
      }
    }
  }

  lemma AttachRoots(s: Store, d: Depths, maxDepth: nat, p: Uid, c: Uid, k: nat)
    requires CanAttach(s, d, maxDepth, p, c, k)
    ensures p != c && RootsAgree(Attached(s, d, p, c, k))
  {
    var s' := Attached(s, d, p, c, k);
    assert s'.Keys == s.Keys;
    forall u | u in s'
      ensures s'[u].parent.None? ==> s'[u].root == u
      ensures s'[u].parent.Some? && s'[u].parent.value in s' ==> s'[u].root == s'[s'[u].parent.value].root
    {
      AttachRootAt(s, d, maxDepth, p, c, k, u);
    }
  }

  /** One node of `AttachRoots`: node `u` still has the root its parent has. */
  lemma AttachRootAt(s: Store, d: Depths, maxDepth: nat, p: Uid, c: Uid, k: nat, u: Uid)
    requires CanAttach(s, d, maxDepth, p, c, k) && u in s
    ensures p != c && u in Attached(s, d, p, c, k)
    ensures var s' := Attached(s, d, p, c, k);
      && (s'[u].parent.None? ==> s'[u].root == u)
      && (s'[u].parent.Some? && s'[u].parent.value in s' ==> s'[u].root == s'[s'[u].parent.value].root)
  {
    AttachedAt(s, d, p, c, k, u);
    if u == c {
      AttachedAt(s, d, p, c, k, p);
    } else if s[u].parent.Some? {
      var q := s[u].parent.value;
      AttachedAt(s, d, p, c, k, q);
      assert Under(s, d, u, c) == Under(s, d, q, c);
    } else {
      assert !Under(s, d, u, c);
    }
  }

  /** `_addChild` keeps the store well formed. */
  lemma AttachWellFormed(s: Store, d: Depths, maxDepth: nat, p: Uid, c: Uid, k: nat)
    requires CanAttach(s, d, maxDepth, p, c, k)
    ensures p != c && WellFormed(Attached(s, d, p, c, k), AttachDepths(s, d, p, c), maxDepth + maxDepth + 1)
  {
    AttachChildLinks(s, d, maxDepth, p, c, k);
    AttachParentLinks(s, d, maxDepth, p, c, k);
    AttachLayered(s, d, maxDepth, p, c, k);
    AttachRoots(s, d, maxDepth, p, c, k);
  }

  /** `c` is child `k` of `p` in a well-formed store. */
  ghost predicate CanDetach(s: Store, d: Depths, maxDepth: nat, p: Uid, c: Uid, k: nat) {
    WellFormed(s, d, maxDepth) && p in s && k < |s[p].children| && s[p].children[k] == c
  }

  lemma ChildOf(s: Store, d: Depths, maxDepth: nat, p: Uid, c: Uid, k: nat)
    requires CanDetach(s, d, maxDepth, p, c, k)
    ensures c in s && s[c].parent == Some(p) && p != c && d[c] == d[p] + 1
  {
  }

  /** One node of `Detached`, field by field. */
  lemma DetachedAt(s: Store, d: Depths, p: Uid, c: Uid, k: nat, u: Uid)
    requires Layered(s, d) && p in s && c in s && p != c && k < |s[p].children| && u in s
    ensures u in Detached(s, d, p, c, k)
    ensures Detached(s, d, p, c, k)[u].name == s[u].name && Detached(s, d, p, c, k)[u].kind == s[u].kind
    ensures Detached(s, d, p, c, k)[u].parent == (if u == c then None else s[u].parent)
    ensures Detached(s, d, p, c, k)[u].root == (if Under(s, d, u, c) then c else s[u].root)
    ensures Detached(s, d, p, c, k)[u].children == (if u == p then RemoveAt(s[p].children, k) else s[u].children)
  {
  }

  lemma DetachChildLinks(s: Store, d: Depths, maxDepth: nat, p: Uid, c: Uid, k: nat)
    requires CanDetach(s, d, maxDepth, p, c, k)
    ensures c in s && p != c && ChildLinks(Detached(s, d, p, c, k))
  {
    ChildOf(s, d, maxDepth, p, c, k);
    var s' := Detached(s, d, p, c, k);
    var ch := s[p].children;
    assert s'.Keys == s.Keys;
    ChildrenNoRepeats(s, p);
    RemoveAtFacts(ch, k);
    forall u, i | u in s' && 0 <= i < |s'[u].children|
      ensures s'[u].children[i] in s' && s'[s'[u].children[i]].parent == Some(u)
    {
      DetachedAt(s, d, p, c, k, u);
      var x := s'[u].children[i];
      if u != p {
        assert x in s && s[x].parent == Some(u);
      } else {
        assert x in RemoveAt(ch, k);
        ListedChild(s, p, x);
      }
      DetachedAt(s, d, p, c, k, x);
    }
    forall u, i, j | u in s' && 0 <= i < j < |s'[u].children|
      ensures s'[u].children[i] != s'[u].children[j]
    {
      DetachedAt(s, d, p, c, k, u);
    }
  }

  lemma DetachParentLinks(s: Store, d: Depths, maxDepth: nat, p: Uid, c: Uid, k: nat)
    requires CanDetach(s, d, maxDepth, p, c, k)
    ensures c in s && p != c && ParentLinks(Detached(s, d, p, c, k))
  {
    ChildOf(s, d, maxDepth, p, c, k);
    var s' := Detached(s, d, p, c, k);
    ChildrenNoRepeats(s, p);
    RemoveAtFacts(s[p].children, k);
    forall u | u in s' && s'[u].parent.Some?
      ensures s'[u].parent.value in s' && u in s'[s'[u].parent.value].children
    {
      DetachedAt(s, d, p, c, k, u);
      DetachedAt(s, d, p, c, k, s[u].parent.value);
    }
  }

  lemma DetachLayered(s: Store, d: Depths, maxDepth: nat, p: Uid, c: Uid, k: nat)
    requires Layered(s, d) && Bounded(d, maxDepth) && p in s && k < |s[p].children| && s[p].children[k] == c
    requires c in s && s[c].parent == Some(p)
    ensures p != c && Layered(Detached(s, d, p, c, k), DetachDepths(s, d, c))
    ensures Bounded(DetachDepths(s, d, c), maxDepth)
  {
    assert d[c] == d[p] + 1;
    var s' := Detached(s, d, p, c, k);
    var d' := DetachDepths(s, d, c);
    assert s'.Keys == s.Keys;
    forall u | u in d'
      ensures d'[u] <= d[u]
    {
    }
    forall u | u in s' && s'[u].parent.None?
      ensures d'[u] == 0
    {
      DetachedAt(s, d, p, c, k, u);
    }
    forall u | u in s' && s'[u].parent.Some?
      ensures s'[u].parent.value in s' && d'[u] == d'[s'[u].parent.value] + 1
    {
      DetachDepthAt(s, d, p, c, k, u);
    }
  }

  /** After `c` is detached, a node that keeps its parent sits one level below it. */
  lemma DetachDepthAt(s: Store, d: Depths, p: Uid, c: Uid, k: nat, u: Uid)
    requires Layered(s, d) && p in s && c in s && p != c && k < |s[p].children| && u in s
    requires Detached(s, d, p, c, k)[u].parent.Some?
    ensures var s', d' := Detached(s, d, p, c, k), DetachDepths(s, d, c);
      s'[u].parent.value in s' && d'[u] == d'[s'[u].parent.value] + 1
  {
    DetachedAt(s, d, p, c, k, u);
    var q := s[u].parent.value;
    DetachedAt(s, d, p, c, k, q);
    assert Under(s, d, u, c) == Under(s, d, q, c);
    if Under(s, d, q, c) {
      UnderDepth(s, d, q, c);
    }
  }

  lemma DetachRoots(s: Store, d: Depths, maxDepth: nat, p: Uid, c: Uid, k: nat)
    requires CanDetach(s, d, maxDepth, p, c, k)
    ensures c in s && p != c && RootsAgree(Detached(s, d, p, c, k))
  {
    ChildOf(s, d, maxDepth, p, c, k);
    var s' := Detached(s, d, p, c, k);
    forall u | u in s' && s'[u].parent.None?
      ensures s'[u].root == u
    {
      DetachedAt(s, d, p, c, k, u);
    }
    forall u | u in s' && s'[u].parent.Some? && s'[u].parent.value in s'
      ensures s'[u].root == s'[s'[u].parent.value].root
    {
      DetachedAt(s, d, p, c, k, u);
      var q := s[u].parent.value;
      DetachedAt(s, d, p, c, k, q);
      assert Under(s, d, u, c) == Under(s, d, q, c);
    }
  }

  /** `_removeChild` keeps the store well formed. */
  lemma DetachWellFormed(s: Store, d: Depths, maxDepth: nat, p: Uid, c: Uid, k: nat)
    requires CanDetach(s, d, maxDepth, p, c, k)
    ensures c in s && p != c && WellFormed(Detached(s, d, p, c, k), DetachDepths(s, d, c), maxDepth)
  {
    DetachChildLinks(s, d, maxDepth, p, c, k);
    DetachParentLinks(s, d, maxDepth, p, c, k);
    ChildOf(s, d, maxDepth, p, c, k);
    DetachLayered(s, d, maxDepth, p, c, k);
    DetachRoots(s, d, maxDepth, p, c, k);
  }

  lemma AttachedParents(s: Store, d: Depths, p: Uid, c: Uid, k: nat)
    requires Layered(s, d) && p in s && c in s && p != c && k <= |s[p].children|
    ensures Attached(s, d, p, c, k).Keys == s.Keys
    ensures forall v :: v in s && v != c ==> Attached(s, d, p, c, k)[v].parent == s[v].parent
  {
    forall v | v in s && v != c
      ensures Attached(s, d, p, c, k)[v].parent == s[v].parent
    {
      AttachedAt(s, d, p, c, k, v);
    }
  }

  lemma DetachedParents(s: Store, d: Depths, p: Uid, c: Uid, k: nat)
    requires Layered(s, d) && p in s && c in s && p != c && k < |s[p].children|
    ensures Detached(s, d, p, c, k).Keys == s.Keys
    ensures forall v :: v in s && v != c ==> Detached(s, d, p, c, k)[v].parent == s[v].parent
  {
    forall v | v in s && v != c
      ensures Detached(s, d, p, c, k)[v].parent == s[v].parent
    {
      DetachedAt(s, d, p, c, k, v);
    }
  }

  lemma UndoAt(s: Store, d: Depths, p: Uid, c: Uid, k: nat, u: Uid)
    requires Layered(s, d) && RootsAgree(s) && p in s && c in s && p != c && s[c].parent.None?
    requires k <= |s[p].children| && u in s
    requires Layered(Attached(s, d, p, c, k), AttachDepths(s, d, p, c))
    ensures Detached(Attached(s, d, p, c, k), AttachDepths(s, d, p, c), p, c, k)[u] == s[u]
  {
    var s' := Attached(s, d, p, c, k);
    var d' := AttachDepths(s, d, p, c);
    AttachedAt(s, d, p, c, k, u);
    AttachedAt(s, d, p, c, k, p);
    DetachedAt(s', d', p, c, k, u);
    AttachedParents(s, d, p, c, k);
    UnderSameParentsBut(s, d, s', d', u, c);
    if Under(s, d, u, c) {
      UnderSameRoot(s, d, u, c);
    }
    if u == p {
      RemoveAtInsert(s[p].children, c, k);
    }
  }

  /**
   * `removeChild(c)` right after `addChild(c, position)` gives back the
   * store as it was: `c` is found at the index it was inserted at, loses
   * its parent again, and its subtree gets back `c` as root.
   */
  lemma RemoveChildUndoesAddChild(s: Store, d: Depths, maxDepth: nat, p: Uid, c: Uid, k: nat)
    requires Layered(s, d) && Bounded(d, maxDepth) && RootsAgree(s)
    requires p in s && c in s && s[c].parent.None? && c !in s[p].children && !Under(s, d, p, c)
    requires k <= |s[p].children|
    ensures p != c
    ensures Layered(Attached(s, d, p, c, k), AttachDepths(s, d, p, c))
    ensures var s' := Attached(s, d, p, c, k);
      && c in s'[p].children && IndexOf(s'[p].children, c) == k
      && Detached(s', AttachDepths(s, d, p, c), p, c, k) == s
  {
    AttachLayered(s, d, maxDepth, p, c, k);
    UndoAddChild(s, d, p, c, k);
  }

  lemma UndoAddChild(s: Store, d: Depths, p: Uid, c: Uid, k: nat)
    requires Layered(s, d) && RootsAgree(s) && p in s && c in s && p != c && s[c].parent.None?
    requires k <= |s[p].children| && c !in s[p].children
    requires Layered(Attached(s, d, p, c, k), AttachDepths(s, d, p, c))
    ensures var s' := Attached(s, d, p, c, k);
      && c in s'[p].children && IndexOf(s'[p].children, c) == k
      && Detached(s', AttachDepths(s, d, p, c), p, c, k) == s
  {
    InsertedFoundAt(s, d, p, c, k);
    UndoAll(s, d, p, c, k);
  }

  lemma InsertedFoundAt(s: Store, d: Depths, p: Uid, c: Uid, k: nat)
    requires Layered(s, d) && p in s && c in s && p != c && k <= |s[p].children| && c !in s[p].children
    ensures var s' := Attached(s, d, p, c, k);
      c in s'[p].children && IndexOf(s'[p].children, c) == k
  {
    var s' := Attached(s, d, p, c, k);
    AttachedAt(s, d, p, c, k, p);
    var ch := s[p].children;
    assert s'[p].children == Insert(ch, c, k);
    assert forall j :: 0 <= j < k ==> s'[p].children[j] == ch[j];
  }

  lemma UndoAll(s: Store, d: Depths, p: Uid, c: Uid, k: nat)
    requires Layered(s, d) && RootsAgree(s) && p in s && c in s && p != c && s[c].parent.None?
    requires k <= |s[p].children|
    requires Layered(Attached(s, d, p, c, k), AttachDepths(s, d, p, c))
    ensures Detached(Attached(s, d, p, c, k), AttachDepths(s, d, p, c), p, c, k) == s
  {
    var back := Detached(Attached(s, d, p, c, k), AttachDepths(s, d, p, c), p, c, k);
    forall u | u in s
      ensures u in back && back[u] == s[u]
    {
      UndoAt(s, d, p, c, k, u);
    }
    assert back.Keys == s.Keys;
  }

  lemma MoveToEndAt(s: Store, d: Depths, p: Uid, c: Uid, k: nat, u: Uid)
    requires Layered(s, d) && RootsAgree(s) && p in s && k < |s[p].children| && s[p].children[k] == c
    requires c in s && s[c].parent == Some(p) && p != c && u in s
    requires Layered(Detached(s, d, p, c, k), DetachDepths(s, d, c))
    ensures var s' := Detached(s, d, p, c, k);
      Attached(s', DetachDepths(s, d, c), p, c, |s'[p].children|)[u]
        == s[p := s[p].(children := RemoveAt(s[p].children, k) + [c])][u]
  {
    var s' := Detached(s, d, p, c, k);
    var d' := DetachDepths(s, d, c);
    DetachedAt(s, d, p, c, k, p);
    DetachedAt(s, d, p, c, k, u);
    var n := |s'[p].children|;
    var again := Attached(s', d', p, c, n);
    AttachedAt(s', d', p, c, n, u);
    DetachedParents(s, d, p, c, k);
    UnderSameParentsBut(s, d, s', d', u, c);
    UnderSameParentsBut(s, d, s', d', p, c);
    if Under(s, d, p, c) {
      UnderDepth(s, d, p, c);
    }
    assert s'[p].root == s[p].root;
    if Under(s, d, u, c) {
      UnderSameRoot(s, d, u, c);
      UnderSameRoot(s, d, c, p);
    }
    assert again[u].root == s[u].root;
    assert again[u].parent == s[u].parent;
    if u == p {
      InsertAtEnd(s'[p].children, c);
    }
  }

  /**
   * `reparent(p)` on a child `c` of `p` (what `reorderChildren` does for each
   * listed uid) only moves `c` to the end of `p`'s children: parents and
   * roots come out as they were.
   */
  lemma ReparentToSameParent(s: Store, d: Depths, maxDepth: nat, p: Uid, c: Uid, k: nat)
    requires Layered(s, d) && Bounded(d, maxDepth) && RootsAgree(s)
    requires p in s && k < |s[p].children| && s[p].children[k] == c && c in s && s[c].parent == Some(p)
    ensures p != c
    ensures var s' := Detached(s, d, p, c, k);
      && Layered(s', DetachDepths(s, d, c))
      && Attached(s', DetachDepths(s, d, c), p, c, |s'[p].children|)
        == s[p := s[p].(children := RemoveAt(s[p].children, k) + [c])]
  {
    assert Layered(Detached(s, d, p, c, k), DetachDepths(s, d, c)) by {
      DetachLayered(s, d, maxDepth, p, c, k);
    }
    MoveToEndAll(s, d, p, c, k);
  }

  lemma MoveToEndAll(s: Store, d: Depths, p: Uid, c: Uid, k: nat)
    requires Layered(s, d) && RootsAgree(s) && p in s && k < |s[p].children| && s[p].children[k] == c
    requires c in s && s[c].parent == Some(p) && p != c
    requires Layered(Detached(s, d, p, c, k), DetachDepths(s, d, c))
    ensures var s' := Detached(s, d, p, c, k);
      Attached(s', DetachDepths(s, d, c), p, c, |s'[p].children|)
        == s[p := s[p].(children := RemoveAt(s[p].children, k) + [c])]
  {
    var s' := Detached(s, d, p, c, k);
    DetachedParents(s, d, p, c, k);
    DetachedAt(s, d, p, c, k, p);
    var again := Attached(s', DetachDepths(s, d, c), p, c, |s'[p].children|);
    var want := s[p := s[p].(children := RemoveAt(s[p].children, k) + [c])];
    assert want.Keys == s.Keys;
    forall u | u in want
      ensures u in again && again[u] == want[u]
    {
      MoveToEndAt(s, d, p, c, k, u);
    }
    AttachedParents(s', DetachDepths(s, d, c), p, c, |s'[p].children|);
    SameStore(again, want);
  }

  /** Two stores with the same uids and the same node at each are equal. */
  lemma SameStore(a: Store, b: Store)
    requires forall u :: u in b ==> u in a && a[u] == b[u]
    requires a.Keys <= b.Keys
    ensures a == b
  {
  }

  // ---------------------------------------------------------------------------
  // Reordering children
  // ---------------------------------------------------------------------------

  /** The child list after `reparent` moves child `x` back onto the same parent: `x` goes to the end. */
  function MoveToEnd(cs: seq<Uid>, x: Uid): (r: seq<Uid>)
    requires x in cs
    ensures forall y :: y in r <==> y in cs
    ensures multiset(r) == multiset(cs)
  {
    var k := IndexOf(cs, x);
    assert cs == cs[..k] + [x] + cs[k + 1..];
    RemoveAt(cs, k) + [x]
  }

  /** The child list after `reorderChildren(uids)` when every uid names a child. */
  function MoveAllToEnd(cs: seq<Uid>, uids: seq<Uid>): seq<Uid>
    requires forall u :: u in uids ==> u in cs
    decreases |uids|
  {
    if uids == [] then cs else MoveAllToEnd(MoveToEnd(cs, uids[0]), uids[1..])
  }

  /** The elements of `cs` that are not listed in `uids`, in their order. */
  function Without(cs: seq<Uid>, uids: seq<Uid>): seq<Uid>
  {
    if cs == [] then [] else (if cs[0] in uids then [] else [cs[0]]) + Without(cs[1..], uids)
  }

  lemma {:induction false} WithoutConcat(a: seq<Uid>, b: seq<Uid>, uids: seq<Uid>)
    ensures Without(a + b, uids) == Without(a, uids) + Without(b, uids)
    decreases |a|
  {
    if a == [] {
      assert a + b == b;
    } else {
      assert (a + b)[0] == a[0] && (a + b)[1..] == a[1..] + b;
      WithoutConcat(a[1..], b, uids);
    }
  }

  lemma {:induction false} WithoutNothing(a: seq<Uid>)
    ensures Without(a, []) == a
    decreases |a|
  {
    if a != [] {
      WithoutNothing(a[1..]);
      assert a == [a[0]] + a[1..];
    }
  }

  lemma {:induction false} WithoutUnlisted(a: seq<Uid>, x: Uid, rest: seq<Uid>)
    requires x !in a
    ensures Without(a, [x] + rest) == Without(a, rest)
    decreases |a|
  {
    if a != [] {
      assert a[0] in [x] + rest <==> a[0] in rest;
      WithoutUnlisted(a[1..], x, rest);
    }
  }

  lemma {:induction false} MoveToEndNoRepeats(cs: seq<Uid>, x: Uid)
    requires x in cs && NoRepeats(cs)
    ensures NoRepeats(MoveToEnd(cs, x))
  {
    var k := IndexOf(cs, x);
    RemoveAtFacts(cs, k);
    ConcatNoRepeats(RemoveAt(cs, k), [x]);
  }

  /** Dropping the single occurrence of `x` and then the rest equals dropping `x` and the rest at once. */
  lemma {:induction false} WithoutRemoveAt(cs: seq<Uid>, k: nat, rest: seq<Uid>)
    requires NoRepeats(cs) && k < |cs| && cs[k] !in rest
    ensures Without(RemoveAt(cs, k), rest) == Without(cs, [cs[k]] + rest)
  {
    var x, a, b := cs[k], cs[..k], cs[k + 1..];
    RemoveAtFacts(cs, k);
    assert RemoveAt(cs, k) == a + b;
    assert x !in a && x !in b;
    WithoutConcat(a, b, rest);
    assert cs == a + ([x] + b);
    WithoutConcat(a, [x] + b, [x] + rest);
    WithoutConcat([x], b, [x] + rest);
    assert Without([x], [x] + rest) == [] by {
      assert [x][1..] == [];
    }
    WithoutUnlisted(a, x, rest);
    WithoutUnlisted(b, x, rest);
    calc {
      Without(cs, [x] + rest);
      Without(a, [x] + rest) + Without([x] + b, [x] + rest);
      Without(a, rest) + Without([x] + b, [x] + rest);
      Without(a, rest) + (Without([x], [x] + rest) + Without(b, [x] + rest));
      Without(a, rest) + ([] + Without(b, rest));
      { assert [] + Without(b, rest) == Without(b, rest); }
      Without(a, rest) + Without(b, rest);
      Without(RemoveAt(cs, k), rest);
    }
  }

  lemma AppendHead(r: seq<Uid>, v: seq<Uid>, w: seq<Uid>, uids: seq<Uid>)
    requires uids != [] && r == v + uids[1..] && v == w + [uids[0]]
    ensures r == w + uids
  {
    assert uids == [uids[0]] + uids[1..];
    assert w + [uids[0]] + uids[1..] == w + ([uids[0]] + uids[1..]);
  }

  lemma HeadNotInTail(uids: seq<Uid>)
    requires uids != [] && NoRepeats(uids)
    ensures uids[0] !in uids[1..] && NoRepeats(uids[1..])
  {
    forall j | 0 <= j < |uids| - 1
      ensures uids[1..][j] != uids[0]
    {
      assert uids[1..][j] == uids[j + 1];
    }
  }

  /** Moving the first listed child to the end, then dropping the rest of the list. */
  lemma {:induction false} MoveToEndStep(cs: seq<Uid>, uids: seq<Uid>)
    requires NoRepeats(cs) && uids != [] && uids[0] in cs && uids[0] !in uids[1..]
    ensures Without(MoveToEnd(cs, uids[0]), uids[1..]) == Without(cs, uids) + [uids[0]]
  {
    var x, rest := uids[0], uids[1..];
    var k := IndexOf(cs, x);
    WithoutConcat(RemoveAt(cs, k), [x], rest);
    assert Without([x], rest) == [x] by {
      assert [x][1..] == [];
    }
    assert uids == [x] + rest;
    WithoutRemoveAt(cs, k, rest);
  }

  /**
   * With distinct children and distinct listed uids, `reorderChildren`
   * leaves the unlisted children first, in their old order, followed by the
   * listed ones in list order.
   */
  lemma {:induction false} ReorderShape(cs: seq<Uid>, uids: seq<Uid>)
    requires NoRepeats(cs) && NoRepeats(uids) && forall u :: u in uids ==> u in cs
    ensures MoveAllToEnd(cs, uids) == Without(cs, uids) + uids
    decreases |uids|
  {
    if uids != [] {
      var x, rest := uids[0], uids[1..];
      var cs' := MoveToEnd(cs, x);
      assert MoveAllToEnd(cs, uids) == MoveAllToEnd(cs', rest);
      assert MoveAllToEnd(cs', rest) == Without(cs', rest) + rest by {
        HeadNotInTail(uids);
        MoveToEndNoRepeats(cs, x);
        ReorderShape(cs', rest);
      }
      assert Without(cs', rest) == Without(cs, uids) + [x] by {
        HeadNotInTail(uids);
        MoveToEndStep(cs, uids);
      }
      AppendHead(MoveAllToEnd(cs, uids), Without(cs', rest), Without(cs, uids), uids);
    } else {
      WithoutNothing(cs);
    }
  }

  /** `reorderChildren` only permutes the child list. */
  lemma {:induction false} MoveAllToEndPermutes(cs: seq<Uid>, uids: seq<Uid>)
    requires forall u :: u in uids ==> u in cs
    ensures multiset(MoveAllToEnd(cs, uids)) == multiset(cs)
    decreases |uids|
  {
    if uids != [] {
      MoveAllToEndPermutes(MoveToEnd(cs, uids[0]), uids[1..]);
    }
  }
}
