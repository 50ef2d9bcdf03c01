/** The node store of POIGraph (utils/graph.ts): nodes keyed by id, kept in
    insertion order as a JavaScript Map iterates them, with the symmetric
    pairing of translocators. Mutations are modelled as functions from the
    old store to the new one; a thrown error is a Failure value, which
    leaves the caller holding the unchanged store. */
module GraphStore {
  import opened Wrappers
  import opened Geometry

  datatype Kind = Landmark | Translocator

  /** GraphNode. `linked` is linkedTranslocatorId; `None` is `undefined`. */
  datatype Node = Node(
    id: string,
    location: Point,
    kind: Kind,
    description: string,
    linked: Option<string>,
    color: Option<string>)

  /** The `nodes` Map: `order` is its iteration (insertion) order. */
  datatype Store = Store(order: seq<string>, nodes: map<string, Node>)

  datatype LinkError = NodeNotFound | NotTranslocators

  ghost predicate Distinct(s: seq<string>)
  {
    forall i, j :: 0 <= i < j < |s| ==> s[i] != s[j]
  }

  /** Representation invariant: `order` lists every key exactly once, and
      each node is stored under its own id. */
  ghost predicate Valid(g: Store)
  {
    && Distinct(g.order)
    && (forall id :: id in g.nodes <==> id in g.order)
    && (forall id :: id in g.nodes ==> g.nodes[id].id == id)
  }

  /** The truthiness test `if (node.linkedTranslocatorId)`: an empty id
      counts as no link. */
  predicate HasLink(n: Node)
  {
    n.linked.Some? && n.linked.value != ""
  }

  /** `description || ''`. */
  function DescriptionOrEmpty(description: Option<string>): string
  {
    if description.Some? then description.value else ""
  }

  /** Every truthy link names a node that is in the store. */
  ghost predicate LinksResolve(g: Store)
  {
    forall id | id in g.nodes && HasLink(g.nodes[id]) :: g.nodes[id].linked.value in g.nodes
  }

  /** Every truthy link that resolves names a translocator. */
  ghost predicate PartnersAreTranslocators(g: Store)
  {
    forall id | id in g.nodes && HasLink(g.nodes[id]) && g.nodes[id].linked.value in g.nodes ::
      g.nodes[g.nodes[id].linked.value].kind == Translocator
  }

  /** The node at `id` is a translocator linked to a present partner that
      links back to it. */
  ghost predicate PairedAt(g: Store, id: string)
    requires id in g.nodes && g.nodes[id].linked.Some?
  {
    var p := g.nodes[id].linked.value;
    && p != ""
    && g.nodes[id].kind == Translocator
    && p in g.nodes
    && g.nodes[p].linked == Some(id)
  }

  /** The pairing invariant: every link is between translocators and is
      symmetric. */
  ghost predicate Consistent(g: Store)
  {
    && Valid(g)
    && forall id | id in g.nodes && g.nodes[id].linked.Some? :: PairedAt(g, id)
  }

  /** A fresh POIGraph, and the result of clear(). */
  function Empty(): (g: Store)
    ensures Valid(g) && Consistent(g)
    ensures g.nodes == map[] && g.order == []
  {
    Store([], map[])
  }

  /** clear(): every node is dropped. */
  function Clear(g: Store): (r: Store)
    ensures Consistent(r)
    ensures forall id :: GetNode(r, id).None?
    ensures GetAllNodes(r) == []
  {
    Empty()
  }

  /** `a` occurs somewhere before `b` in `s`. */
  ghost predicate Before(s: seq<string>, a: string, b: string)
  {
    exists i, j :: 0 <= i < j < |s| && s[i] == a && s[j] == b
  }

  /** Occurring before, in a sequence with a known head. */
  lemma BeforeCons(h: string, t: seq<string>, a: string, b: string)
    ensures Before([h] + t, a, b) <==> (h == a && b in t) || Before(t, a, b)
  {
    var s := [h] + t;
    if Before(s, a, b) {
      var i, j :| 0 <= i < j < |s| && s[i] == a && s[j] == b;
      if i == 0 {
        assert t[j - 1] == b;
      } else {
        assert t[i - 1] == a && t[j - 1] == b;
      }
    }
    if h == a && b in t {
      var j :| 0 <= j < |t| && t[j] == b;
      assert s[0] == a && s[j + 1] == b;
    }
    if Before(t, a, b) {
      var i, j :| 0 <= i < j < |t| && t[i] == a && t[j] == b;
      assert s[i + 1] == a && s[j + 1] == b;
    }
  }

  /** `s` without `x`: the other elements, each kept once per occurrence,
      in their original relative order. */
  function Without(s: seq<string>, x: string): (r: seq<string>)
    ensures forall y :: y in r <==> y in s && y != x
    ensures forall a, b :: a != x && b != x ==> (Before(r, a, b) <==> Before(s, a, b))
    ensures Distinct(s) ==> Distinct(r)
    ensures x !in s ==> r == s
    ensures |r| <= |s|
  {
    if s == [] then []
    else if s[0] == x then
      var rest := Without(s[1..], x);
      assert forall a, b :: a != x && b != x ==> (Before(s, a, b) <==> Before(s[1..], a, b)) by {
        forall a, b | a != x && b != x ensures Before(s, a, b) <==> Before(s[1..], a, b) {
          BeforeCons(s[0], s[1..], a, b);
          assert s == [s[0]] + s[1..];
        }
      }
      rest
    else
      var rest := Without(s[1..], x);
      assert Distinct(s) ==> s[0] !in s[1..] && Distinct(s[1..]) by {
        if Distinct(s) {
          forall j | 0 <= j < |s[1..]| ensures s[1..][j] != s[0] {
            assert s[1..][j] == s[j + 1];
          }
        }
      }
      assert forall a, b :: a != x && b != x ==> (Before([s[0]] + rest, a, b) <==> Before(s, a, b)) by {
        forall a, b | a != x && b != x ensures Before([s[0]] + rest, a, b) <==> Before(s, a, b) {
          BeforeCons(s[0], rest, a, b);
          BeforeCons(s[0], s[1..], a, b);
          assert s == [s[0]] + s[1..];
        }
      }
      [s[0]] + rest
  }

  /** A duplicate-free sequence has as many elements as its set. */
  lemma {:induction false} DistinctCardinality(s: seq<string>)
    requires Distinct(s)
    ensures |set id | id in s| == |s|
  {
    if s != [] {
      var tail := s[1..];
      assert Distinct(tail) by {
        forall i, j | 0 <= i < j < |tail| ensures tail[i] != tail[j] {
          assert tail[i] == s[i + 1] && tail[j] == s[j + 1];
        }
      }
      DistinctCardinality(tail);
      assert s[0] !in tail by {
        forall j | 0 <= j < |tail| ensures tail[j] != s[0] {
          assert tail[j] == s[j + 1];
        }
      }
      assert (set id | id in s) == (set id | id in tail) + {s[0]} by {
        assert s == [s[0]] + tail;
      }
    }
  }

  /** addNode: last write wins. The stored record is fresh: it carries no
      link, and a missing or empty description becomes "". An id already
      present keeps its place in the iteration order. */
  function AddNode(g: Store, id: string, location: Point, kind: Kind,
                   description: Option<string>, color: Option<string>): (r: Store)
    ensures Valid(g) ==> Valid(r)
    ensures r.nodes.Keys == g.nodes.Keys + {id}
    ensures r.nodes[id].id == id && r.nodes[id].location == location && r.nodes[id].kind == kind
    ensures r.nodes[id].linked.None? && r.nodes[id].color == color
    ensures description.None? || description == Some("") ==> r.nodes[id].description == ""
    ensures description.Some? ==> r.nodes[id].description == description.value
    ensures forall k :: k in g.nodes && k != id ==> r.nodes[k] == g.nodes[k]
    ensures id in g.nodes ==> r.order == g.order
    ensures id !in g.nodes ==> r.order == g.order + [id]
  {
    var node := Node(id, location, kind, DescriptionOrEmpty(description), None, color);
    Store(if id in g.nodes then g.order else g.order + [id], g.nodes[id := node])
  }

  /** linkTranslocators: both ids must be present (else NodeNotFound) and
      both nodes translocators (else NotTranslocators); then each points at
      the other and nothing else changes. */
  function LinkTranslocators(g: Store, a: string, b: string): (r: Result<Store, LinkError>)
    ensures r.Failure? <==>
              a !in g.nodes || b !in g.nodes
              || g.nodes[a].kind != Translocator || g.nodes[b].kind != Translocator
    ensures a !in g.nodes || b !in g.nodes ==> r == Failure(NodeNotFound)
    ensures a in g.nodes && b in g.nodes && r.Failure? ==> r == Failure(NotTranslocators)
    ensures r.Success? ==>
              && r.value.order == g.order
              && r.value.nodes.Keys == g.nodes.Keys
              && r.value.nodes[a] == g.nodes[a].(linked := Some(b))
              && r.value.nodes[b] == g.nodes[b].(linked := Some(a))
              && (forall k :: k in g.nodes && k != a && k != b ==> r.value.nodes[k] == g.nodes[k])
    ensures r.Success? && Valid(g) ==> Valid(r.value)
  {
    if a !in g.nodes || b !in g.nodes then
      Failure(NodeNotFound)
    else if g.nodes[a].kind != Translocator || g.nodes[b].kind != Translocator then
      Failure(NotTranslocators)
    else
      var nodeA := g.nodes[a];
      var nodeB := g.nodes[b];
      var nodes := g.nodes[a := nodeA.(linked := Some(b))];
      var nodeB' := if a == b then nodes[b] else nodeB;
      Success(Store(g.order, nodes[b := nodeB'.(linked := Some(a))]))
  }

  /** The partner whose link removeNode(id) clears, if any
      (utils/graph.ts:112-116): the removed node's truthy link, when it
      names a present node. */
  function ClearedPartner(g: Store, id: string): Option<string>
  {
    if id in g.nodes && HasLink(g.nodes[id]) && g.nodes[id].linked.value in g.nodes
    then Some(g.nodes[id].linked.value)
    else None
  }

  /** removeNode: the id disappears and its partner's link is cleared, so no
      dangling back-reference is left; an unknown id changes nothing. */
  function RemoveNode(g: Store, id: string): (r: Store)
    ensures id !in r.nodes
    ensures r.nodes.Keys == g.nodes.Keys - {id}
    ensures Valid(g) ==> Valid(r)
    ensures r.order == Without(g.order, id)
    ensures Valid(g) && id !in g.nodes ==> r == g
    ensures ClearedPartner(g, id).Some? && ClearedPartner(g, id).value != id ==>
              r.nodes[ClearedPartner(g, id).value]
                == g.nodes[ClearedPartner(g, id).value].(linked := None)
    ensures forall k :: k in r.nodes && Some(k) != ClearedPartner(g, id) ==> r.nodes[k] == g.nodes[k]
  {
    var partner := ClearedPartner(g, id);
    var nodes :=
      if partner.Some? then g.nodes[partner.value := g.nodes[partner.value].(linked := None)]
      else g.nodes;
    Store(Without(g.order, id), nodes - {id})
  }

  /** getNode. */
  function GetNode(g: Store, id: string): (r: Option<Node>)
    ensures r.Some? <==> id in g.nodes
    ensures r.Some? ==> r.value == g.nodes[id]
  {
    if id in g.nodes then Some(g.nodes[id]) else None
  }

  /** getNodeColor. */
  function GetNodeColor(g: Store, id: string): (r: Option<string>)
    ensures id !in g.nodes ==> r.None?
    ensures id in g.nodes ==> r == GetNode(g, id).value.color
  {
    if id in g.nodes then g.nodes[id].color else None
  }

  /** getAllNodes: the stored nodes in insertion order. */
  function GetAllNodes(g: Store): (r: seq<Node>)
    requires Valid(g)
    ensures |r| == |g.order|
    ensures forall i :: 0 <= i < |r| ==> r[i] == g.nodes[g.order[i]]
  {
    seq(|g.order|, i requires 0 <= i < |g.order| => g.nodes[g.order[i]])
  }

  /** getAllNodes lists every stored node exactly once. */
  lemma AllNodesExactlyOnce(g: Store)
    requires Valid(g)
    ensures |GetAllNodes(g)| == |g.nodes|
    ensures forall id :: id in g.nodes ==> g.nodes[id] in GetAllNodes(g)
    ensures forall i, j :: 0 <= i < j < |GetAllNodes(g)| ==> GetAllNodes(g)[i].id != GetAllNodes(g)[j].id
  {
    var r := GetAllNodes(g);
    DistinctCardinality(g.order);
    assert g.nodes.Keys == set id | id in g.order;
    forall id | id in g.nodes ensures g.nodes[id] in r {
      var i :| 0 <= i < |g.order| && g.order[i] == id;
      assert r[i] == g.nodes[id];
    }
  }

  /** The pairing invariant implies both facts the planner relies on. */
  lemma ConsistentResolves(g: Store)
    requires Consistent(g)
    ensures LinksResolve(g) && PartnersAreTranslocators(g)
  {
    forall id | id in g.nodes && HasLink(g.nodes[id])
      ensures g.nodes[id].linked.value in g.nodes
      ensures g.nodes[g.nodes[id].linked.value].kind == Translocator
    {
      assert PairedAt(g, id);
      var p := g.nodes[id].linked.value;
      assert PairedAt(g, p);
    }
  }

  /** Adding a node keeps the pairing invariant unless it overwrites a
      linked node, which would orphan the old partner's back-reference. */
  lemma AddPreservesConsistent(g: Store, id: string, location: Point, kind: Kind,
                               description: Option<string>, color: Option<string>)
    requires Consistent(g)
    requires id in g.nodes ==> g.nodes[id].linked.None?
    ensures Consistent(AddNode(g, id, location, kind, description, color))
  {
    var r := AddNode(g, id, location, kind, description, color);
    forall k | k in r.nodes && r.nodes[k].linked.Some? ensures PairedAt(r, k) {
      assert k != id;
      assert PairedAt(g, k);
      var p := g.nodes[k].linked.value;
      if p in g.nodes && g.nodes[p].linked.Some? {
        assert PairedAt(g, p);
      }
      assert p != id;
    }
  }

  /** Linking two unlinked (or already mutually linked) translocators with
      non-empty ids keeps the pairing invariant. */
  lemma LinkPreservesConsistent(g: Store, a: string, b: string)
    requires Consistent(g)
    requires a != "" && b != ""
    requires a in g.nodes && b in g.nodes
    requires g.nodes[a].kind == Translocator && g.nodes[b].kind == Translocator
    requires g.nodes[a].linked.None? || g.nodes[a].linked == Some(b)
    requires g.nodes[b].linked.None? || g.nodes[b].linked == Some(a)
    ensures LinkTranslocators(g, a, b).Success?
    ensures Consistent(LinkTranslocators(g, a, b).value)
  {
    var r := LinkTranslocators(g, a, b).value;
    forall k | k in r.nodes && r.nodes[k].linked.Some? ensures PairedAt(r, k) {
      if k != a && k != b {
        assert PairedAt(g, k);
        var p := g.nodes[k].linked.value;
        if p in g.nodes && g.nodes[p].linked.Some? {
          assert PairedAt(g, p);
        }
        assert p != a && p != b;
      }
    }
  }

  /** Removing a node keeps the pairing invariant: nothing is left pointing
      at the removed id. */
  lemma RemovePreservesConsistent(g: Store, id: string)
    requires Consistent(g)
    ensures Consistent(RemoveNode(g, id))
    ensures forall k :: k in RemoveNode(g, id).nodes ==> RemoveNode(g, id).nodes[k].linked != Some(id)
  {
    var r := RemoveNode(g, id);
    var partner := ClearedPartner(g, id);
    if id in g.nodes && g.nodes[id].linked.Some? {
      assert PairedAt(g, id);
    }
    forall k | k in r.nodes && r.nodes[k].linked.Some? ensures PairedAt(r, k) {
      assert Some(k) != partner;
      assert r.nodes[k] == g.nodes[k];
      assert PairedAt(g, k);
      var q := g.nodes[k].linked.value;
      assert q != id;
      if q in g.nodes && g.nodes[q].linked.Some? {
        assert PairedAt(g, q);
      }
      assert Some(q) != partner;
    }
  }

  /** addNode overwriting a linked translocator with a landmark: the old
      partner still links to the id, which now holds a landmark. Every link
      still resolves, but not every link names a translocator. */
  lemma OverwriteOrphansPartner(g: Store, a: string, b: string, location: Point,
                                description: Option<string>, color: Option<string>)
    requires Consistent(g) && a in g.nodes && g.nodes[a].linked == Some(b) && a != b
    ensures var h := AddNode(g, a, location, Landmark, description, color);
            && Valid(h) && LinksResolve(h) && !PartnersAreTranslocators(h)
            && b in h.nodes && h.nodes[b].kind == Translocator && HasLink(h.nodes[b])
            && h.nodes[b].linked == Some(a) && h.nodes[a].kind == Landmark
  {
    var h := AddNode(g, a, location, Landmark, description, color);
    assert PairedAt(g, a);
    assert PairedAt(g, b);
    ConsistentResolves(g);
    assert h.nodes[b] == g.nodes[b];
    assert LinksResolve(h) by {
      forall id | id in h.nodes && HasLink(h.nodes[id]) ensures h.nodes[id].linked.value in h.nodes {
        assert id != a;
        assert h.nodes[id] == g.nodes[id];
      }
    }
  }

  /** addNode as the pairing invariant needs it: overwriting a linked node
      first clears its partner's back-link, as removeNode does, so the old
      partner cannot teleport onto the replacement. */
  function AddNodeReleasing(g: Store, id: string, location: Point, kind: Kind,
                            description: Option<string>, color: Option<string>): (r: Store)
    ensures Valid(g) ==> Valid(r)
    ensures r.nodes.Keys == g.nodes.Keys + {id}
    ensures r.order == AddNode(g, id, location, kind, description, color).order
    ensures r.nodes[id] == AddNode(g, id, location, kind, description, color).nodes[id]
    ensures ClearedPartner(g, id).Some? && ClearedPartner(g, id).value != id ==>
              r.nodes[ClearedPartner(g, id).value]
                == g.nodes[ClearedPartner(g, id).value].(linked := None)
    ensures forall k :: k in g.nodes && k != id && Some(k) != ClearedPartner(g, id) ==> r.nodes[k] == g.nodes[k]
  {
    var partner := ClearedPartner(g, id);
    var nodes :=
      if partner.Some? then g.nodes[partner.value := g.nodes[partner.value].(linked := None)]
      else g.nodes;
    AddNode(Store(g.order, nodes), id, location, kind, description, color)
  }

  /** With the back-link cleared, adding any node keeps the pairing
      invariant, even one that overwrites a linked translocator. */
  lemma ReleasingAddPreservesConsistent(g: Store, id: string, location: Point, kind: Kind,
                                        description: Option<string>, color: Option<string>)
    requires Consistent(g)
    ensures Consistent(AddNodeReleasing(g, id, location, kind, description, color))
  {
    var r := AddNodeReleasing(g, id, location, kind, description, color);
    var partner := ClearedPartner(g, id);
    forall k | k in r.nodes && r.nodes[k].linked.Some? ensures PairedAt(r, k) {
      assert k != id;
      assert Some(k) != partner;
      assert r.nodes[k] == g.nodes[k];
      assert PairedAt(g, k);
      var p := g.nodes[k].linked.value;
      assert g.nodes[p].linked == Some(k);
      assert p != id;
      assert Some(p) != partner;
    }
  }

  /** getNode right after addNode returns the fresh record. */
  lemma GetNodeAfterAdd(g: Store, id: string, location: Point, kind: Kind,
                        description: Option<string>, color: Option<string>)
    ensures GetNode(AddNode(g, id, location, kind, description, color), id)
              == Some(Node(id, location, kind, DescriptionOrEmpty(description), None, color))
    ensures GetNodeColor(AddNode(g, id, location, kind, description, color), id) == color
  {
  }

  /** Linking A with B and then removing A leaves B present and unlinked. */
  lemma LinkThenRemoveClearsPartner(g: Store, a: string, b: string)
    requires Valid(g)
    requires a != b && a != "" && b != ""
    requires a in g.nodes && b in g.nodes
    requires g.nodes[a].kind == Translocator && g.nodes[b].kind == Translocator
    ensures LinkTranslocators(g, a, b).Success?
    ensures var r := RemoveNode(LinkTranslocators(g, a, b).value, a);
            GetNode(r, a).None? && GetNode(r, b) == Some(g.nodes[b].(linked := None))
  {
    var l := LinkTranslocators(g, a, b).value;
    assert l.nodes[a].linked == Some(b) && HasLink(l.nodes[a]);
    assert ClearedPartner(l, a) == Some(b);
  }

  /** A rejected link names the failing check: a landmark never becomes
      linked. */
  lemma LinkWithLandmarkFails(g: Store, a: string, b: string)
    requires a in g.nodes && b in g.nodes
    requires g.nodes[a].kind == Landmark || g.nodes[b].kind == Landmark
    ensures LinkTranslocators(g, a, b) == Failure(NotTranslocators)
  {
  }

  /** linkTranslocators as written leaves an earlier partner pointing at a
      relinked node: link a with b, then b with c, and a still links to b
      while b links to c. Removing b then clears only c, so a is left linked
      to a node that no longer exists. */
  lemma RelinkThenRemoveDangles(g: Store, a: string, b: string, c: string)
    requires Valid(g)
    requires a != b && b != c && a != c && b != "" && c != ""
    requires a in g.nodes && b in g.nodes && c in g.nodes
    requires g.nodes[a].kind == Translocator && g.nodes[b].kind == Translocator && g.nodes[c].kind == Translocator
    ensures LinkTranslocators(g, a, b).Success?
    ensures LinkTranslocators(LinkTranslocators(g, a, b).value, b, c).Success?
    ensures var r := RemoveNode(LinkTranslocators(LinkTranslocators(g, a, b).value, b, c).value, b);
            && a in r.nodes && b !in r.nodes
            && r.nodes[a].linked == Some(b)
            && !LinksResolve(r)
  {
    var g1 := LinkTranslocators(g, a, b).value;
    var g2 := LinkTranslocators(g1, b, c).value;
    assert g2.nodes[a].linked == Some(b);
    assert g2.nodes[b].linked == Some(c);
    assert ClearedPartner(g2, b) == Some(c);
    var r := RemoveNode(g2, b);
    assert r.nodes[a] == g2.nodes[a];
    assert HasLink(r.nodes[a]);
  }

  /** linkTranslocators with the pairing kept exclusive: the same checks,
      then every link that pointed at either node is cleared before the two
      are linked to each other. */
  function LinkTranslocatorsExclusive(g: Store, a: string, b: string): (r: Result<Store, LinkError>)
    ensures r.Failure? <==> LinkTranslocators(g, a, b).Failure?
    ensures r.Failure? ==> r == LinkTranslocators(g, a, b)
    ensures r.Success? ==>
              && r.value.order == g.order
              && r.value.nodes.Keys == g.nodes.Keys
              && r.value.nodes[a] == g.nodes[a].(linked := Some(b))
              && r.value.nodes[b] == g.nodes[b].(linked := Some(a))
              && (forall k :: k in g.nodes && k != a && k != b ==>
                    r.value.nodes[k] == if g.nodes[k].linked == Some(a) || g.nodes[k].linked == Some(b)
                                        then g.nodes[k].(linked := None) else g.nodes[k])
    ensures r.Success? && Valid(g) ==> Valid(r.value)
  {
    if a !in g.nodes || b !in g.nodes then
      Failure(NodeNotFound)
    else if g.nodes[a].kind != Translocator || g.nodes[b].kind != Translocator then
      Failure(NotTranslocators)
    else
      LinkTranslocators(ClearLinksTo(g, a, b), a, b)
  }

  /** Every link that names `a` or `b` cleared; nothing else changes. */
  function ClearLinksTo(g: Store, a: string, b: string): (r: Store)
    ensures r.order == g.order && r.nodes.Keys == g.nodes.Keys
    ensures forall k :: k in g.nodes ==>
              r.nodes[k] == if g.nodes[k].linked == Some(a) || g.nodes[k].linked == Some(b)
                            then g.nodes[k].(linked := None) else g.nodes[k]
    ensures Valid(g) ==> Valid(r)
  {
    Store(g.order, map k | k in g.nodes ::
      if g.nodes[k].linked == Some(a) || g.nodes[k].linked == Some(b)
      then g.nodes[k].(linked := None) else g.nodes[k])
  }

  /** With the exclusive link, linking any two translocators with non-empty
      ids keeps the pairing invariant, whatever they were linked to before. */
  lemma ExclusiveLinkPreservesConsistent(g: Store, a: string, b: string)
    requires Consistent(g) && a != "" && b != ""
    ensures LinkTranslocatorsExclusive(g, a, b).Success? ==> Consistent(LinkTranslocatorsExclusive(g, a, b).value)
  {
    var res := LinkTranslocatorsExclusive(g, a, b);
    if res.Success? {
      var r := res.value;
      assert Valid(r);
      forall k | k in r.nodes && r.nodes[k].linked.Some? ensures PairedAt(r, k) {
        PairedAfterExclusiveLink(g, a, b, k);
      }
    }
  }

  lemma PairedAfterExclusiveLink(g: Store, a: string, b: string, k: string)
    requires Consistent(g) && a != "" && b != ""
    requires LinkTranslocatorsExclusive(g, a, b).Success?
    requires k in g.nodes && LinkTranslocatorsExclusive(g, a, b).value.nodes[k].linked.Some?
    ensures PairedAt(LinkTranslocatorsExclusive(g, a, b).value, k)
  {
    var r := LinkTranslocatorsExclusive(g, a, b).value;
    if k != a && k != b {
      assert r.nodes[k] == g.nodes[k];
      assert PairedAt(g, k);
      var q := g.nodes[k].linked.value;
      assert q != a && q != b;
      assert r.nodes[q] == g.nodes[q];
    }
  }

  /** The sequence that leaves a dangling link with linkTranslocators as
      written keeps every link resolving with the exclusive link. */
  lemma ExclusiveRelinkThenRemoveResolves(g: Store, a: string, b: string, c: string)
    requires Consistent(g)
    requires a != "" && b != "" && c != ""
    requires a in g.nodes && b in g.nodes && c in g.nodes
    requires g.nodes[a].kind == Translocator && g.nodes[b].kind == Translocator && g.nodes[c].kind == Translocator
    ensures LinkTranslocatorsExclusive(g, a, b).Success?
    ensures LinkTranslocatorsExclusive(LinkTranslocatorsExclusive(g, a, b).value, b, c).Success?
    ensures var r := RemoveNode(LinkTranslocatorsExclusive(LinkTranslocatorsExclusive(g, a, b).value, b, c).value, b);
            LinksResolve(r) && PartnersAreTranslocators(r)
  {
    var g1 := LinkTranslocatorsExclusive(g, a, b).value;
    ExclusiveLinkPreservesConsistent(g, a, b);
    var g2 := LinkTranslocatorsExclusive(g1, b, c).value;
    ExclusiveLinkPreservesConsistent(g1, b, c);
    RemovePreservesConsistent(g2, b);
    ConsistentResolves(RemoveNode(g2, b));
  }
}
