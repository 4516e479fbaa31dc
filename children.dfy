/**
 * The ChildrenIds table: a set of (ParentId, ItemId) edges whose primary key
 * is the pair, so writing an edge twice leaves it once.
 */
module Children {
  import opened Items

  /** An edge (ParentId, ItemId). */
  type Edge = (Guid, Guid)

  /** `delete from ChildrenIds where ParentId=@ParentId`. */
  function WithoutParent(edges: set<Edge>, parent: Guid): (r: set<Edge>)
    ensures forall e | e in r :: e in edges && e.0 != parent
    ensures forall e | e in edges && e.0 != parent :: e in r
  {
    set e | e in edges && e.0 != parent
  }

  /** The edges `replace into ChildrenIds (ParentId, ItemId)` writes for a list of children. */
  function ChildEdges(parent: Guid, children: seq<Guid>): set<Edge> {
    set i | 0 <= i < |children| :: (parent, children[i])
  }

  /** SaveChildren's effect: the parent's edges are deleted, then one edge per listed child is written. */
  function ReplaceChildren(edges: set<Edge>, parent: Guid, children: seq<Guid>): set<Edge> {
    WithoutParent(edges, parent) + ChildEdges(parent, children)
  }

  /** `select ItemId from ChildrenIds where ParentId = @ParentId`, as a set. */
  function ChildrenOf(edges: set<Edge>, parent: Guid): set<Guid> {
    set e | e in edges && e.0 == parent :: e.1
  }

  /**
   * After SaveChildren(p, cs) the edges with parent p are exactly (p, c) for c in cs,
   * and the edges of every other parent are as they were.
   */
  lemma ReplaceChildrenEdges(edges: set<Edge>, parent: Guid, children: seq<Guid>)
    ensures forall c :: (parent, c) in ReplaceChildren(edges, parent, children) <==> c in children
    ensures forall e: Edge | e.0 != parent :: e in ReplaceChildren(edges, parent, children) <==> e in edges
    ensures ChildrenOf(ReplaceChildren(edges, parent, children), parent) == set c | c in children
  {
    var r := ReplaceChildren(edges, parent, children);
    forall c | (parent, c) in r
      ensures c in children
    {
      var i :| 0 <= i < |children| && (parent, children[i]) == (parent, c);
    }
    forall c | c in children
      ensures (parent, c) in r
    {
      var i :| 0 <= i < |children| && children[i] == c;
      assert (parent, children[i]) in ChildEdges(parent, children);
    }
  }

  /** Duplicates collapse: the result depends only on the set of listed children. */
  lemma ReplaceChildrenIgnoresDuplicates(edges: set<Edge>, parent: Guid, cs: seq<Guid>, ds: seq<Guid>)
    requires forall c :: c in cs <==> c in ds
    ensures ReplaceChildren(edges, parent, cs) == ReplaceChildren(edges, parent, ds)
  {
    SameChildEdges(parent, cs, ds);
    SameChildEdges(parent, ds, cs);
  }

  lemma SameChildEdges(parent: Guid, cs: seq<Guid>, ds: seq<Guid>)
    requires forall c :: c in cs <==> c in ds
    ensures ChildEdges(parent, cs) <= ChildEdges(parent, ds)
  {
    forall e | e in ChildEdges(parent, cs)
      ensures e in ChildEdges(parent, ds)
    {
      var i :| 0 <= i < |cs| && e == (parent, cs[i]);
      assert cs[i] in ds;
      var j :| 0 <= j < |ds| && ds[j] == cs[i];
      assert e == (parent, ds[j]);
    }
  }

  /** A second SaveChildren for the same parent discards the first one's list. */
  lemma ReplaceChildrenTwice(edges: set<Edge>, parent: Guid, cs: seq<Guid>, ds: seq<Guid>)
    ensures ReplaceChildren(ReplaceChildren(edges, parent, cs), parent, ds) == ReplaceChildren(edges, parent, ds)
  {
    ReplaceChildrenEdges(edges, parent, cs);
    ReplaceChildrenEdges(ReplaceChildren(edges, parent, cs), parent, ds);
    ReplaceChildrenEdges(edges, parent, ds);
  }

  /** DeleteItem's edge step removes only edges the item is parent of; edges naming it as a child stay. */
  lemma DeleteKeepsChildEdges(edges: set<Edge>, id: Guid, parent: Guid)
    requires parent != id && (parent, id) in edges
    ensures (parent, id) in WithoutParent(edges, id)
    ensures ChildrenOf(WithoutParent(edges, id), id) == {}
  {
  }

  /** The edge loop writes one more child. */
  lemma ChildEdgesSnoc(parent: Guid, children: seq<Guid>, i: nat)
    requires i < |children|
    ensures ChildEdges(parent, children[..i + 1]) == ChildEdges(parent, children[..i]) + {(parent, children[i])}
  {
    var before := children[..i];
    var after := children[..i + 1];
    forall e | e in ChildEdges(parent, after) ensures e in ChildEdges(parent, before) + {(parent, children[i])} {
      var j :| 0 <= j < |after| && e == (parent, after[j]);
      if j < i {
        assert before[j] == after[j];
      }
    }
    forall e | e in ChildEdges(parent, before) ensures e in ChildEdges(parent, after) {
      var j :| 0 <= j < |before| && e == (parent, before[j]);
      assert after[j] == before[j];
    }
    assert (parent, after[i]) in ChildEdges(parent, after);
  }

  /** `ItemId in (select ItemId from ChildrenIds where ParentId = @ParentId)`. */
  function IsChildOf(edges: set<Edge>, parent: Guid): Guid -> bool {
    (g: Guid) => (parent, g) in edges
  }

  lemma ChildrenOfMeaning(edges: set<Edge>, parent: Guid, c: Guid)
    ensures c in ChildrenOf(edges, parent) <==> (parent, c) in edges
  {
    if (parent, c) in edges {
      var e := (parent, c);
      assert e in edges && e.0 == parent;
    }
  }
}
