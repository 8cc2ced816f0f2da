/**
The tree of locations (`GET /locations/tree`): one pass over the visible locations, in code order, that hangs each
node from its parent's node, or from the list of roots when the parent is none of the visible ones.
*/
module LocationForest {
  import opened Common

  type Id = int

  datatype Location = Location(id: Id, parent: Option<Id>)

  class LocationNode {
    const id: Id
    var children: seq<LocationNode>

    constructor (id: Id)
      ensures this.id == id && children == []
    {
      this.id := id;
      children := [];
    }
  }

  // The rows of the query: distinct ids (the primary key), in code order.
  predicate Distinct(locs: seq<Location>) {
    forall i, j :: 0 <= i < j < |locs| ==> locs[i].id != locs[j].id
  }

  function Ids(locs: seq<Location>): set<Id> {
    set i | 0 <= i < |locs| :: locs[i].id
  }

  // The parent of a visible location, when it is visible too.
  function VisibleParent(locs: seq<Location>, loc: Location): Option<Id> {
    if loc.parent.Some? && loc.parent.value in Ids(locs) then loc.parent else None
  }

  // The ids of the first `n` locations that hang from `parent`, in their order; the roots hang from None.
  function Hanging(locs: seq<Location>, n: nat, parent: Option<Id>): (r: seq<Id>)
    requires n <= |locs|
    ensures forall x :: x in r ==> x in Ids(locs)
  {
    if n == 0 then []
    else Hanging(locs, n - 1, parent) + if VisibleParent(locs, locs[n - 1]) == parent then [locs[n - 1].id] else []
  }

  function ChildrenOf(locs: seq<Location>, parent: Option<Id>): seq<Id> {
    Hanging(locs, |locs|, parent)
  }

  function NodeOf(nodes: map<Id, LocationNode>, id: Id): LocationNode
    requires id in nodes
  {
    nodes[id]
  }

  function NodesOf(nodes: map<Id, LocationNode>, ids: seq<Id>): seq<LocationNode>
    requires forall x :: x in ids ==> x in nodes
  {
    seq(|ids|, i requires 0 <= i < |ids| => NodeOf(nodes, ids[i]))
  }

  lemma NodesOfAppended(nodes: map<Id, LocationNode>, ids: seq<Id>, id: Id)
    requires (forall x :: x in ids ==> x in nodes) && id in nodes
    ensures NodesOf(nodes, ids + [id]) == NodesOf(nodes, ids) + [nodes[id]]
  {
  }

  // The first `n` locations hang from their place.
  ghost predicate Hung(locs: seq<Location>, n: nat, nodes: map<Id, LocationNode>, roots: seq<LocationNode>)
    requires n <= |locs|
    reads nodes.Values
  {
    && nodes.Keys == Ids(locs)
    && roots == NodesOf(nodes, Hanging(locs, n, None))
    && forall id :: id in nodes ==> nodes[id].id == id && nodes[id].children == NodesOf(nodes, Hanging(locs, n, Some(id)))
  }

  // The body of the loop.
  method HangNext(locs: seq<Location>, n: nat, nodes: map<Id, LocationNode>, roots: seq<LocationNode>)
    returns (roots': seq<LocationNode>)
    requires n < |locs| && Hung(locs, n, nodes, roots)
    modifies nodes.Values
    ensures Hung(locs, n + 1, nodes, roots')
  {
    var loc := locs[n];
    assert loc.id in Ids(locs);
    var node := nodes[loc.id];
    roots' := roots;
    if loc.parent.Some? && loc.parent.value in nodes {
      var parent := nodes[loc.parent.value];
      assert forall id :: id in nodes && id != parent.id ==> nodes[id] != parent;
      NodesOfAppended(nodes, Hanging(locs, n, loc.parent), loc.id);
      parent.children := parent.children + [node];
    } else {
      NodesOfAppended(nodes, Hanging(locs, n, None), loc.id);
      roots' := roots + [node];
    }
    forall parent: Option<Id> | parent != VisibleParent(locs, loc)
      ensures Hanging(locs, n + 1, parent) == Hanging(locs, n, parent)
    {
    }
  }

  /** One node per visible location; its children are the nodes of the locations whose parent it is, in code
      order; the roots are those of the locations whose parent is none of the visible ones, in code order. */
  method GetLocationsTree(locs: seq<Location>) returns (nodes: map<Id, LocationNode>, roots: seq<LocationNode>)
    requires Distinct(locs)
    ensures nodes.Keys == Ids(locs)
    ensures forall id :: id in nodes ==> nodes[id].id == id && fresh(nodes[id])
    ensures roots == NodesOf(nodes, ChildrenOf(locs, None))
    ensures forall id :: id in nodes ==> nodes[id].children == NodesOf(nodes, ChildrenOf(locs, Some(id)))
  {
    nodes := map[];
    var n := 0;
    while n < |locs|
      invariant 0 <= n <= |locs|
      invariant nodes.Keys == Ids(locs[..n])
      invariant forall id :: id in nodes ==> nodes[id].id == id && nodes[id].children == [] && fresh(nodes[id])
    {
      var node := new LocationNode(locs[n].id);
      nodes := nodes[locs[n].id := node];
      n := n + 1;
    }
    assert locs[..n] == locs;
    roots := [];
    n := 0;
    while n < |locs|
      invariant 0 <= n <= |locs|
      invariant Hung(locs, n, nodes, roots)
    {
      roots := HangNext(locs, n, nodes, roots);
      n := n + 1;
    }
  }

  // ---------------------------------------------------------------------- what the forest holds

  // The place of an id in the list.
  function Find(locs: seq<Location>, id: Id): (i: nat)
    requires id in Ids(locs)
    ensures i < |locs| && locs[i].id == id
  {
    if locs[|locs| - 1].id == id then |locs| - 1
    else
      assert id in Ids(locs[..|locs| - 1]);
      Find(locs[..|locs| - 1], id)
  }

  function ParentOf(locs: seq<Location>, id: Id): (p: Option<Id>)
    requires id in Ids(locs)
    ensures p.Some? ==> p.value in Ids(locs)
  {
    VisibleParent(locs, locs[Find(locs, id)])
  }

  // The k-th visible ancestor of a visible location: itself for 0, None once the chain has ended.
  function Ancestor(locs: seq<Location>, id: Id, k: nat): (a: Option<Id>)
    requires id in Ids(locs)
    ensures a.Some? ==> a.value in Ids(locs)
  {
    if k == 0 then Some(id)
    else
      var below := Ancestor(locs, id, k - 1);
      if below.None? then None else ParentOf(locs, below.value)
  }

  ghost predicate ChainEnds(locs: seq<Location>, id: Id)
    requires id in Ids(locs)
  {
    exists k: nat :: Ancestor(locs, id, k) == None
  }

  // The nodes below a list of nodes, each before its children, down to a depth.
  function Flatten(locs: seq<Location>, ids: seq<Id>, depth: nat): seq<Id>
    decreases depth, |ids|
  {
    if depth == 0 || ids == [] then []
    else [ids[0]] + Flatten(locs, ChildrenOf(locs, Some(ids[0])), depth - 1) + Flatten(locs, ids[1..], depth)
  }

  // Reading the answer from its roots. No chain is longer than the list.
  function FlattenForest(locs: seq<Location>): seq<Id> {
    Flatten(locs, ChildrenOf(locs, None), |locs|)
  }

  // How many of the first `depth` ancestors of `x` are `top`; how many are in a list.
  function Hits(locs: seq<Location>, x: Id, top: Id, depth: nat): nat
    requires x in Ids(locs)
  {
    if depth == 0 then 0
    else Hits(locs, x, top, depth - 1) + if Ancestor(locs, x, depth - 1) == Some(top) then 1 else 0
  }

  function HitsAny(locs: seq<Location>, x: Id, tops: seq<Id>, depth: nat): nat
    requires x in Ids(locs)
  {
    if tops == [] then 0 else Hits(locs, x, tops[0], depth) + HitsAny(locs, x, tops[1..], depth)
  }

  function Count(ids: seq<Id>, x: Id): nat {
    if ids == [] then 0 else Count(ids[..|ids| - 1], x) + if ids[|ids| - 1] == x then 1 else 0
  }

  lemma {:induction false} CountConcat(a: seq<Id>, b: seq<Id>, x: Id)
    ensures Count(a + b, x) == Count(a, x) + Count(b, x)
  {
    if b == [] {
      assert a + b == a;
    } else {
      assert (a + b)[..|a + b| - 1] == a + b[..|b| - 1];
      CountConcat(a, b[..|b| - 1], x);
    }
  }

  lemma {:induction false} CountIsMultiplicity(ids: seq<Id>, x: Id)
    ensures Count(ids, x) == multiset(ids)[x]
    ensures Count(ids, x) > 0 <==> x in ids
  {
    if ids != [] {
      assert ids == ids[..|ids| - 1] + [ids[|ids| - 1]];
      CountIsMultiplicity(ids[..|ids| - 1], x);
    }
  }

  lemma {:induction false} HangingOnce(locs: seq<Location>, n: nat, parent: Option<Id>, x: Id)
    requires Distinct(locs) && n <= |locs| && x in Ids(locs)
    ensures Count(Hanging(locs, n, parent), x) == if Find(locs, x) < n && ParentOf(locs, x) == parent then 1 else 0
  {
    if n > 0 {
      HangingOnce(locs, n - 1, parent, x);
      FoundLast(locs, n - 1, x);
      var last := locs[n - 1];
      if VisibleParent(locs, last) == parent {
        CountConcat(Hanging(locs, n - 1, parent), [last.id], x);
        assert Count([last.id], x) == if last.id == x then 1 else 0;
        if last.id == x { assert ParentOf(locs, x) == parent; }
      } else {
        assert Hanging(locs, n, parent) == Hanging(locs, n - 1, parent);
        if last.id == x { assert ParentOf(locs, x) != parent; }
      }
    }
  }

  lemma FoundLast(locs: seq<Location>, n: nat, x: Id)
    requires Distinct(locs) && n < |locs| && x in Ids(locs)
    ensures Find(locs, x) == n <==> locs[n].id == x
  {
  }

  // Over a list of tops, hits count the ancestors that are in the list.
  lemma {:induction false} HitsAnyStep(locs: seq<Location>, x: Id, tops: seq<Id>, depth: nat)
    requires x in Ids(locs) && depth > 0
    ensures HitsAny(locs, x, tops, depth) ==
            HitsAny(locs, x, tops, depth - 1) +
            (if Ancestor(locs, x, depth - 1).Some? then Count(tops, Ancestor(locs, x, depth - 1).value) else 0)
  {
    if tops != [] {
      HitsAnyStep(locs, x, tops[1..], depth);
      var a := Ancestor(locs, x, depth - 1);
      assert tops == [tops[0]] + tops[1..];
      if a.Some? { CountConcat([tops[0]], tops[1..], a.value); }
    }
  }

  lemma {:induction false} HitsAnyZero(locs: seq<Location>, x: Id, tops: seq<Id>)
    requires x in Ids(locs)
    ensures HitsAny(locs, x, tops, 0) == 0
  {
    if tops != [] { HitsAnyZero(locs, x, tops[1..]); }
  }

  // An ancestor is `top` from step 1 on exactly when the one before it is a child of `top`.
  lemma {:induction false} HitsBelow(locs: seq<Location>, x: Id, top: Id, depth: nat)
    requires Distinct(locs) && x in Ids(locs)
    ensures Hits(locs, x, top, depth + 1) ==
            (if x == top then 1 else 0) + HitsAny(locs, x, ChildrenOf(locs, Some(top)), depth)
  {
    var children := ChildrenOf(locs, Some(top));
    if depth == 0 {
      HitsAnyZero(locs, x, children);
      assert Hits(locs, x, top, 0) == 0;
    } else {
      HitsBelow(locs, x, top, depth - 1);
      HitsAnyStep(locs, x, children, depth);
      var a := Ancestor(locs, x, depth - 1);
      if a.Some? { HangingOnce(locs, |locs|, Some(top), a.value); }
    }
  }

  /** Reading the nodes below a list, a visible location comes up once for each of its first ancestors that is in
      the list. */
  lemma {:induction false} FlattenCounts(locs: seq<Location>, ids: seq<Id>, depth: nat, x: Id)
    requires Distinct(locs) && x in Ids(locs)
    ensures Count(Flatten(locs, ids, depth), x) == HitsAny(locs, x, ids, depth)
    decreases depth, |ids|
  {
    if depth == 0 {
      HitsAnyZero(locs, x, ids);
    } else if ids != [] {
      var below := Flatten(locs, ChildrenOf(locs, Some(ids[0])), depth - 1);
      var rest := Flatten(locs, ids[1..], depth);
      FlattenCounts(locs, ChildrenOf(locs, Some(ids[0])), depth - 1, x);
      FlattenCounts(locs, ids[1..], depth, x);
      HitsBelow(locs, x, ids[0], depth - 1);
      CountConcat([ids[0]] + below, rest, x);
      CountConcat([ids[0]], below, x);
      assert Count([ids[0]], x) == if x == ids[0] then 1 else 0;
    }
  }

  lemma {:induction false} FlattenIsVisible(locs: seq<Location>, ids: seq<Id>, depth: nat)
    requires forall x :: x in ids ==> x in Ids(locs)
    ensures forall x :: x in Flatten(locs, ids, depth) ==> x in Ids(locs)
    decreases depth, |ids|
  {
    if depth > 0 && ids != [] {
      FlattenIsVisible(locs, ChildrenOf(locs, Some(ids[0])), depth - 1);
      FlattenIsVisible(locs, ids[1..], depth);
    }
  }

  // A chain passes through a root at most once, as its last step.
  lemma {:induction false} RootHits(locs: seq<Location>, x: Id, depth: nat)
    requires Distinct(locs) && x in Ids(locs)
    ensures HitsAny(locs, x, ChildrenOf(locs, None), depth) ==
            if Ancestor(locs, x, depth) == None then 1 else 0
  {
    var roots := ChildrenOf(locs, None);
    if depth == 0 {
      HitsAnyZero(locs, x, roots);
    } else {
      RootHits(locs, x, depth - 1);
      HitsAnyStep(locs, x, roots, depth);
      var a := Ancestor(locs, x, depth - 1);
      if a.Some? { HangingOnce(locs, |locs|, None, a.value); }
    }
  }

  lemma {:induction false} EndedStaysEnded(locs: seq<Location>, x: Id, j: nat, k: nat)
    requires x in Ids(locs) && j <= k && Ancestor(locs, x, j) == None
    ensures Ancestor(locs, x, k) == None
    decreases k
  {
    if j < k { EndedStaysEnded(locs, x, j, k - 1); }
  }

  lemma {:induction false} AncestorOfAncestor(locs: seq<Location>, x: Id, i: nat, k: nat)
    requires x in Ids(locs) && Ancestor(locs, x, i).Some?
    ensures Ancestor(locs, x, i + k) == Ancestor(locs, Ancestor(locs, x, i).value, k)
  {
    if k > 0 { AncestorOfAncestor(locs, x, i, k - 1); }
  }

  // A chain that comes back to a location never ends.
  lemma {:induction false} RepeatNeverEnds(locs: seq<Location>, x: Id, i: nat, j: nat, k: nat)
    requires x in Ids(locs) && i < j && Ancestor(locs, x, i).Some? && Ancestor(locs, x, i) == Ancestor(locs, x, j)
    ensures Ancestor(locs, x, k).Some?
    decreases k
  {
    if k < j {
      if Ancestor(locs, x, k) == None { EndedStaysEnded(locs, x, k, j); }
    } else {
      RepeatNeverEnds(locs, x, i, j, k - (j - i));
      AncestorOfAncestor(locs, x, i, k - j);
      AncestorOfAncestor(locs, x, j, k - j);
    }
  }

  lemma EarlierAncestor(locs: seq<Location>, x: Id, k: nat)
    requires x in Ids(locs) && Ancestor(locs, x, k).Some?
    ensures k > 0 ==> Ancestor(locs, x, k - 1).Some?
  {
  }

  function Chain(locs: seq<Location>, x: Id, n: nat): seq<Id>
    requires x in Ids(locs) && (n > 0 ==> Ancestor(locs, x, n - 1).Some?)
  {
    if n == 0 then []
    else
      EarlierAncestor(locs, x, n - 1);
      Chain(locs, x, n - 1) + [Ancestor(locs, x, n - 1).value]
  }

  lemma {:induction false} ChainAt(locs: seq<Location>, x: Id, n: nat)
    requires x in Ids(locs) && (n > 0 ==> Ancestor(locs, x, n - 1).Some?)
    ensures |Chain(locs, x, n)| == n
    ensures forall i :: 0 <= i < n ==> Ancestor(locs, x, i) == Some(Chain(locs, x, n)[i])
  {
    if n > 0 {
      EarlierAncestor(locs, x, n - 1);
      ChainAt(locs, x, n - 1);
    }
  }

  lemma {:induction false} IdsSize(locs: seq<Location>)
    ensures |Ids(locs)| <= |locs|
  {
    if locs != [] {
      var front := locs[..|locs| - 1];
      IdsSize(front);
      assert Ids(locs) == Ids(front) + {locs[|locs| - 1].id};
    }
  }

  // A chain that ends has distinct members, so it ends within as many steps as there are locations.
  lemma EndsInTime(locs: seq<Location>, x: Id)
    requires x in Ids(locs)
    ensures ChainEnds(locs, x) <==> Ancestor(locs, x, |locs|) == None
  {
    if ChainEnds(locs, x) && Ancestor(locs, x, |locs|).Some? {
      var n := |locs| + 1;
      var end: nat :| Ancestor(locs, x, end) == None;
      ChainAt(locs, x, n);
      var chain := Chain(locs, x, n);
      forall i, j | 0 <= i < j < n ensures chain[i] != chain[j] {
        if chain[i] == chain[j] { RepeatNeverEnds(locs, x, i, j, end); }
      }
      NoDupSize(chain);
      IdsSize(locs);
      SubsetSize(Elems(chain), Ids(locs));
      assert false;
    }
  }

  /** In general: reading the answer from its roots finds each visible location once if its chain of visible
      ancestors ends, and never if the chain runs in a cycle; and it finds nothing else. */
  lemma EachLocationOnceIffItsChainEnds(locs: seq<Location>, x: Id)
    requires Distinct(locs)
    ensures Count(FlattenForest(locs), x) == if x in Ids(locs) && ChainEnds(locs, x) then 1 else 0
  {
    if x in Ids(locs) {
      FlattenCounts(locs, ChildrenOf(locs, None), |locs|, x);
      RootHits(locs, x, |locs|);
      EndsInTime(locs, x);
    } else {
      FlattenIsVisible(locs, ChildrenOf(locs, None), |locs|);
      CountIsMultiplicity(FlattenForest(locs), x);
    }
  }

  function AllIds(locs: seq<Location>): seq<Id> {
    seq(|locs|, i requires 0 <= i < |locs| => locs[i].id)
  }

  /** The forest loses and duplicates nothing exactly when no visible location is its own ancestor: reading it
      gives a permutation of the visible locations if and only if every chain ends. */
  lemma ForestIsAPermutationIffAcyclic(locs: seq<Location>)
    requires Distinct(locs)
    ensures multiset(FlattenForest(locs)) == multiset(AllIds(locs)) <==>
            forall x :: x in Ids(locs) ==> ChainEnds(locs, x)
  {
    var ids := AllIds(locs);
    forall x
      ensures multiset(FlattenForest(locs))[x] == if x in Ids(locs) && ChainEnds(locs, x) then 1 else 0
      ensures multiset(ids)[x] == if x in Ids(locs) then 1 else 0
    {
      EachLocationOnceIffItsChainEnds(locs, x);
      CountIsMultiplicity(FlattenForest(locs), x);
      NoDupCount(ids, x);
      if x in Ids(locs) { assert ids[Find(locs, x)] == x; }
    }
    if multiset(FlattenForest(locs)) == multiset(ids) {
      forall x | x in Ids(locs) ensures ChainEnds(locs, x) { assert multiset(ids)[x] == 1; }
    } else if forall x :: x in Ids(locs) ==> ChainEnds(locs, x) {
      assert forall x :: multiset(FlattenForest(locs))[x] == multiset(ids)[x];
    }
  }

  /** The edges of the forest are exactly the parent links with both ends visible, and its roots exactly the
      locations without one; siblings keep the order of the query. */
  lemma {:induction false} EdgesAreTheVisibleLinks(locs: seq<Location>, parent: Option<Id>)
    requires Distinct(locs)
    ensures forall i :: 0 <= i < |locs| ==>
              (locs[i].id in ChildrenOf(locs, parent) <==> VisibleParent(locs, locs[i]) == parent)
    ensures var children := ChildrenOf(locs, parent);
            forall i, j :: 0 <= i < j < |children| ==> Find(locs, children[i]) < Find(locs, children[j])
  {
    HangingInOrder(locs, |locs|, parent);
    forall i | 0 <= i < |locs|
      ensures locs[i].id in ChildrenOf(locs, parent) <==> VisibleParent(locs, locs[i]) == parent
    {
      assert locs[i].id in Ids(locs);
      HangingOnce(locs, |locs|, parent, locs[i].id);
      CountIsMultiplicity(ChildrenOf(locs, parent), locs[i].id);
      assert Find(locs, locs[i].id) == i;
    }
  }

  lemma {:induction false} HangingInOrder(locs: seq<Location>, n: nat, parent: Option<Id>)
    requires Distinct(locs) && n <= |locs|
    ensures forall i :: 0 <= i < |Hanging(locs, n, parent)| ==>
              Hanging(locs, n, parent)[i] in Ids(locs) && Find(locs, Hanging(locs, n, parent)[i]) < n
    ensures forall i, j :: 0 <= i < j < |Hanging(locs, n, parent)| ==>
              Find(locs, Hanging(locs, n, parent)[i]) < Find(locs, Hanging(locs, n, parent)[j])
  {
    if n > 0 {
      HangingInOrder(locs, n - 1, parent);
      assert locs[n - 1].id in Ids(locs);
      assert Find(locs, locs[n - 1].id) == n - 1;
    }
  }

  /** A cycle is lost: two locations inside each other are in no tree that the roots reach. */
  lemma CycleDisappears()
    ensures var locs := [Location(1, Some(2)), Location(2, Some(1))];
            Distinct(locs) && FlattenForest(locs) == []
  {
    var locs := [Location(1, Some(2)), Location(2, Some(1))];
    assert Ids(locs) == {1, 2} by { assert locs[0].id == 1 && locs[1].id == 2; }
    assert ChildrenOf(locs, None) == [];
  }

  // ---------------------------------------------------------------------- what keeps cycles out

  // `y` is `root` or inside it.
  ghost predicate Below(locs: seq<Location>, root: Id, y: Id)
    requires y in Ids(locs)
  {
    exists k: nat :: Ancestor(locs, y, k) == Some(root)
  }

  // Each list of children is what hangs there.
  lemma {:induction false} HangsFrom(locs: seq<Location>, n: nat, parent: Id, child: Id)
    requires Distinct(locs) && n <= |locs|
    ensures child in Hanging(locs, n, Some(parent))
            <==> exists i :: 0 <= i < n && locs[i].id == child && VisibleParent(locs, locs[i]) == Some(parent)
  {
    if n > 0 { HangsFrom(locs, n - 1, parent, child); }
  }

  lemma ChildIsBelow(locs: seq<Location>, root: Id, node: Id, child: Id)
    requires Distinct(locs) && child in ChildrenOf(locs, Some(node)) && node in Ids(locs) && Below(locs, root, node)
    ensures child in Ids(locs) && ParentOf(locs, child) == Some(node) && Below(locs, root, child)
  {
    HangsFrom(locs, |locs|, node, child);
    var i :| 0 <= i < |locs| && locs[i].id == child && VisibleParent(locs, locs[i]) == Some(node);
    assert Find(locs, child) == i;
    var k: nat :| Ancestor(locs, node, k) == Some(root);
    assert Ancestor(locs, child, 1) == Some(node) by { assert Ancestor(locs, child, 0) == Some(child); }
    AncestorOfAncestor(locs, child, 1, k);
  }

  // A set that holds a location and the children of its members holds everything inside that location.
  lemma {:induction false} ClosedHoldsAllBelow(locs: seq<Location>, root: Id, found: set<Id>, y: Id, k: nat)
    requires y in Ids(locs) && Ancestor(locs, y, k) == Some(root) && root in found
    requires forall z :: z in Ids(locs) && ParentOf(locs, z).Some? && ParentOf(locs, z).value in found ==> z in found
    ensures y in found
    decreases k
  {
    if k > 0 {
      EarlierAncestor(locs, y, k);
      ClosedHoldsAllBelow(locs, Ancestor(locs, y, k - 1).value, found, y, k - 1);
    }
  }

  // The members still on the stack are the only ones whose children may be missing.
  ghost predicate Closing(locs: seq<Location>, root: Id, found: set<Id>, stack: seq<Id>) {
    && root in found && found <= Ids(locs) && (forall i :: 0 <= i < |stack| ==> stack[i] in found)
    && (forall y :: y in found ==> Below(locs, root, y))
    && forall z :: z in Ids(locs) && ParentOf(locs, z).Some? && ParentOf(locs, z).value in found && z !in found ==>
         ParentOf(locs, z).value in stack
  }

  // The loop over the children of one node.
  method PushChildren(locs: seq<Location>, node: Id, found: set<Id>, stack: seq<Id>)
    returns (found': set<Id>, stack': seq<Id>)
    ensures found' == found + Elems(ChildrenOf(locs, Some(node)))
    ensures Elems(stack') == Elems(stack) + (found' - found)
    ensures found' == found ==> stack' == stack
  {
    var children := ChildrenOf(locs, Some(node));
    found', stack' := found, stack;
    for i := 0 to |children|
      invariant found' == found + Elems(children[..i])
      invariant Elems(stack') == Elems(stack) + (found' - found)
      invariant found' == found ==> stack' == stack
    {
      assert Elems(children[..i + 1]) == Elems(children[..i]) + {children[i]} by {
        assert children[..i + 1] == children[..i] + [children[i]];
      }
      if children[i] !in found' {
        assert Elems(stack' + [children[i]]) == Elems(stack') + {children[i]};
        found', stack' := found' + {children[i]}, stack' + [children[i]];
      }
    }
    assert children[..|children|] == children;
  }

  /** The walk finds a location and everything inside it, even when the chains run in a cycle. */
  method SubtreeIds(locs: seq<Location>, root: Id) returns (found: set<Id>)
    requires Distinct(locs) && root in Ids(locs)
    ensures forall y :: y in found <==> y in Ids(locs) && Below(locs, root, y)
  {
    found := {root};
    var stack := [root];
    assert Ancestor(locs, root, 0) == Some(root);
    while stack != []
      invariant Closing(locs, root, found, stack)
      decreases Ids(locs) - found, |stack|
    {
      var node := stack[|stack| - 1];
      ghost var before, left := found, stack;
      found, stack := PushChildren(locs, node, found, stack[..|stack| - 1]);
      ClosingStep(locs, root, before, left, found, stack);
    }
    forall y | y in Ids(locs) && Below(locs, root, y) ensures y in found {
      var k: nat :| Ancestor(locs, y, k) == Some(root);
      ClosedHoldsAllBelow(locs, root, found, y, k);
    }
  }

  lemma ClosingStep(
      locs: seq<Location>, root: Id, found: set<Id>, stack: seq<Id>, found': set<Id>, stack': seq<Id>)
    requires Distinct(locs) && stack != [] && Closing(locs, root, found, stack)
    requires found' == found + Elems(ChildrenOf(locs, Some(stack[|stack| - 1])))
    requires Elems(stack') == Elems(stack[..|stack| - 1]) + (found' - found)
    ensures Closing(locs, root, found', stack')
  {
    var node, rest := stack[|stack| - 1], stack[..|stack| - 1];
    assert node in found;
    forall y | y in found' ensures y in Ids(locs) && Below(locs, root, y) {
      if y !in found { ChildIsBelow(locs, root, node, y); }
    }
    assert forall x :: x in stack <==> x in rest || x == node;
    forall i | 0 <= i < |stack'| ensures stack'[i] in found' { assert stack'[i] in Elems(stack'); }
    forall z | z in Ids(locs) && ParentOf(locs, z).Some? && ParentOf(locs, z).value in found' && z !in found'
      ensures ParentOf(locs, z).value in stack'
    {
      ParentHasChild(locs, z);
      assert ParentOf(locs, z).value in Elems(stack');
    }
  }

  lemma ParentHasChild(locs: seq<Location>, z: Id)
    requires Distinct(locs) && z in Ids(locs) && ParentOf(locs, z).Some?
    ensures z in ChildrenOf(locs, ParentOf(locs, z))
  {
    HangsFrom(locs, |locs|, ParentOf(locs, z).value, z);
    assert locs[Find(locs, z)].id == z;
  }

  method WouldCycle(locs: seq<Location>, location: Id, newParent: Id) returns (cycle: bool)
    requires Distinct(locs) && location in Ids(locs) && newParent in Ids(locs)
    ensures cycle <==> Below(locs, location, newParent)
  {
    if newParent == location {
      assert Ancestor(locs, newParent, 0) == Some(location);
      return true;
    }
    var subtree := SubtreeIds(locs, location);
    cycle := newParent in subtree;
  }

  function Relocated(locs: seq<Location>, location: Id, newParent: Id): (r: seq<Location>)
    requires location in Ids(locs)
    ensures |r| == |locs| && forall i :: 0 <= i < |locs| ==> r[i].id == locs[i].id
  {
    locs[Find(locs, location) := Location(location, Some(newParent))]
  }

  lemma RelocatedParents(locs: seq<Location>, x: Id, newParent: Id, y: Id)
    requires Distinct(locs) && x in Ids(locs) && newParent in Ids(locs) && y in Ids(locs)
    ensures Distinct(Relocated(locs, x, newParent)) && Ids(Relocated(locs, x, newParent)) == Ids(locs)
    ensures ParentOf(Relocated(locs, x, newParent), y) == if y == x then Some(newParent) else ParentOf(locs, y)
  {
    var after := Relocated(locs, x, newParent);
    assert Ids(after) == Ids(locs) by {
      forall id | id in Ids(locs) ensures id in Ids(after) { assert after[Find(locs, id)].id == id; }
      forall id | id in Ids(after) ensures id in Ids(locs) { var i :| 0 <= i < |after| && after[i].id == id; assert locs[i].id == id; }
    }
    assert after[Find(after, y)].id == y && locs[Find(locs, y)].id == y;
    assert Find(after, y) == Find(locs, y);
  }

  // Until a chain meets the relocated location it is the same chain.
  lemma {:induction false} SameUntilRelocated(locs: seq<Location>, x: Id, newParent: Id, y: Id, k: nat)
    requires Distinct(locs) && x in Ids(locs) && newParent in Ids(locs) && y in Ids(locs)
    requires forall j: nat :: j < k ==> Ancestor(locs, y, j) != Some(x)
    ensures y in Ids(Relocated(locs, x, newParent))
    ensures Ancestor(Relocated(locs, x, newParent), y, k) == Ancestor(locs, y, k)
  {
    RelocatedParents(locs, x, newParent, y);
    if k > 0 {
      SameUntilRelocated(locs, x, newParent, y, k - 1);
      var below := Ancestor(locs, y, k - 1);
      if below.Some? { RelocatedParents(locs, x, newParent, below.value); }
    }
  }

  ghost predicate AllEnd(locs: seq<Location>) { forall y :: y in Ids(locs) ==> ChainEnds(locs, y) }

  /** The guard is exact: where every chain ends, relocating keeps that if and only if the new parent is not inside
      the relocated location. */
  lemma RelocationIsSafeExactlyOutside(locs: seq<Location>, x: Id, newParent: Id)
    requires Distinct(locs) && x in Ids(locs) && newParent in Ids(locs) && AllEnd(locs)
    ensures AllEnd(Relocated(locs, x, newParent)) <==> !Below(locs, x, newParent)
  {
    RelocatedParents(locs, x, newParent, x);
    if Below(locs, x, newParent) {
      InsideMakesACycle(locs, x, newParent);
    } else {
      forall y | y in Ids(locs) ensures ChainEnds(Relocated(locs, x, newParent), y) {
        OutsideChainsEnd(locs, x, newParent, y);
      }
    }
  }

  lemma FirstMeeting(locs: seq<Location>, x: Id, y: Id, k: nat) returns (first: nat)
    requires y in Ids(locs) && Ancestor(locs, y, k) == Some(x)
    ensures Ancestor(locs, y, first) == Some(x) && forall j: nat :: j < first ==> Ancestor(locs, y, j) != Some(x)
  {
    if j: nat :| j < k && Ancestor(locs, y, j) == Some(x) {
      first := FirstMeeting(locs, x, y, j);
    } else {
      first := k;
    }
  }

  // A chain that meets the relocated location goes on at the new parent.
  lemma ThroughTheRelocated(locs: seq<Location>, x: Id, newParent: Id, y: Id) returns (k: nat)
    requires Distinct(locs) && x in Ids(locs) && newParent in Ids(locs) && y in Ids(locs) && Below(locs, x, y)
    ensures y in Ids(Relocated(locs, x, newParent)) && k > 0
    ensures Ancestor(Relocated(locs, x, newParent), y, k) == Some(newParent)
  {
    var any: nat :| Ancestor(locs, y, any) == Some(x);
    var first := FirstMeeting(locs, x, y, any);
    SameUntilRelocated(locs, x, newParent, y, first);
    RelocatedParents(locs, x, newParent, x);
    k := first + 1;
  }

  lemma InsideMakesACycle(locs: seq<Location>, x: Id, newParent: Id)
    requires Distinct(locs) && x in Ids(locs) && newParent in Ids(locs) && Below(locs, x, newParent)
    ensures newParent in Ids(Relocated(locs, x, newParent)) && !ChainEnds(Relocated(locs, x, newParent), newParent)
  {
    var after := Relocated(locs, x, newParent);
    var k := ThroughTheRelocated(locs, x, newParent, newParent);
    assert Ancestor(after, newParent, 0) == Some(newParent);
    forall end: nat ensures Ancestor(after, newParent, end) != None {
      if Ancestor(after, newParent, end) == None { RepeatNeverEnds(after, newParent, 0, k, end); }
    }
  }

  lemma OutsideChainsEnd(locs: seq<Location>, x: Id, newParent: Id, y: Id)
    requires Distinct(locs) && x in Ids(locs) && newParent in Ids(locs) && y in Ids(locs)
    requires ChainEnds(locs, newParent) && ChainEnds(locs, y) && !Below(locs, x, newParent)
    ensures y in Ids(Relocated(locs, x, newParent)) && ChainEnds(Relocated(locs, x, newParent), y)
  {
    var after := Relocated(locs, x, newParent);
    if Below(locs, x, y) {
      var k := ThroughTheRelocated(locs, x, newParent, y);
      var end: nat :| Ancestor(locs, newParent, end) == None;
      SameUntilRelocated(locs, x, newParent, newParent, end);
      AncestorOfAncestor(after, y, k, end);
      assert Ancestor(after, y, k + end) == None;
    } else {
      var end: nat :| Ancestor(locs, y, end) == None;
      SameUntilRelocated(locs, x, newParent, y, end);
    }
  }

  /** Pruning loses no location: where every chain of the stored locations ends, so does that of any visible part of
      them, whose tree is then a permutation of it. */
  lemma PrunedTreeKeepsAll(locs: seq<Location>, visible: seq<Location>)
    requires Distinct(locs) && AllEnd(locs) && Distinct(visible)
    requires forall i :: 0 <= i < |visible| ==> visible[i] in locs
    ensures multiset(FlattenForest(visible)) == multiset(AllIds(visible))
  {
    forall x | x in Ids(visible) ensures ChainEnds(visible, x) {
      PrunedChain(locs, visible, x, 0);
      var end: nat :| Ancestor(locs, x, end) == None;
      PrunedChain(locs, visible, x, end);
      assert Ancestor(visible, x, end) == None;
    }
    ForestIsAPermutationIffAcyclic(visible);
  }

  lemma {:induction false} PrunedChain(locs: seq<Location>, visible: seq<Location>, x: Id, k: nat)
    requires Distinct(locs) && Distinct(visible) && x in Ids(visible)
    requires forall i :: 0 <= i < |visible| ==> visible[i] in locs
    ensures Ids(visible) <= Ids(locs)
    ensures Ancestor(visible, x, k).Some? ==> Ancestor(locs, x, k) == Ancestor(visible, x, k)
  {
    forall id | id in Ids(visible) ensures id in Ids(locs) {
      var i :| 0 <= i < |visible| && visible[i].id == id;
      assert visible[i] in locs;
    }
    if k > 0 {
      PrunedChain(locs, visible, x, k - 1);
      var below := Ancestor(visible, x, k - 1);
      if below.Some? {
        var v, l := visible[Find(visible, below.value)], locs[Find(locs, below.value)];
        assert v in locs && v.id == l.id;
        assert v == l;
      }
    }
  }
}
