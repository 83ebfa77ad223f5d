/** The tree of API resources: every node caches its full paths, which must agree with the parent chain. */
module ResourceTree {

  /**
   A ghost picture of a tree: its nodes, and numbers that grow from every resource to the ones it
   lists, up to a bound.
   */
  datatype Layout = Layout(root: Resource, nodes: set<Resource>, depth: map<Resource, nat>, bound: nat)

  /** The cached path fields of a resource. */
  datatype Paths = Paths(prototype: string, actual: string, fullPrototype: string, fullActual: string)

  const NO_PATHS := Paths("", "", "", "")

  class Resource {
    const typ: string
    const tenancy: bool
    var id: string
    var hasId: bool
    var parent: Resource?
    var children: seq<Resource>

    var cached: Paths

    /** This resource's segment of the path prototype. */
    function PrototypeSegment(): string
      reads this`hasId
    {
      if hasId then "/:" + typ else "/" + typ
    }

    /** This resource's segment of the actual path. */
    function ActualSegment(): string
      reads this`hasId, this`id
    {
      SegmentOf(typ, tenancy, hasId, id)
    }

    /** `NewResource`: a resource without parent or children, its paths built. */
    constructor (typ: string, hasId: bool, tenancy: bool)
      ensures this.typ == typ && this.tenancy == tenancy && this.hasId == hasId && id == ""
      ensures parent == null && children == [] && Fresh(this)
    {
      this.typ := typ;
      this.tenancy := tenancy;
      this.hasId := hasId;
      id := "";
      parent := null;
      children := [];
      cached := NO_PATHS;
      new;
      RebuildOwn();
    }

    /** The part of `RebuildPaths` that concerns this resource alone. */
    method RebuildOwn()
      requires parent != this
      modifies this`cached
      ensures Fresh(this)
    {
      var prototype, actual;
      if hasId {
        prototype := "/:" + typ;
        actual := if tenancy && id == "" then prototype else "/" + id;
      } else {
        prototype := "/" + typ;
        actual := prototype;
      }
      cached := Paths(prototype, actual, prototype, actual);
      if parent != null {
        cached := Paths(prototype, actual, parent.cached.fullPrototype + prototype, parent.cached.fullActual + actual);
      }
    }

    /**
     `RebuildPaths`: everything that is reached from this resource through lists of children is made to
     agree with its parent, and nothing else is touched.
     */
    method RebuildPaths(ghost lay: Layout)
      requires Linked(lay) && this in lay.nodes
      modifies lay.nodes`cached
      ensures forall x {:trigger Fresh(x)} :: x in lay.nodes && Reached(lay, x, this) ==> Fresh(x)
      ensures forall x :: x in lay.nodes && !Reached(lay, x, this) ==> x.cached == old(x.cached)
      decreases assert NodeLinked(lay, this); lay.bound - lay.depth[this], 1
    {
      assert NodeLinked(lay, this);
      RebuildOwn();
      assert Reached(lay, this, this);
      for i := 0 to |children|
        invariant Fresh(this)
        invariant forall x {:trigger Fresh(x)} :: x in lay.nodes && ReachedFromOneOf(lay, x, children[..i]) ==> Fresh(x)
        invariant forall x :: x in lay.nodes && !Reached(lay, x, this) ==> x.cached == old(x.cached)
      {
        RebuildChild(lay, i);
      }
      forall x | x in lay.nodes && Reached(lay, x, this) ensures Fresh(x) {
        if x != this {
          var i :| 0 <= i < |children| && Reached(lay, x, children[i]);
          assert children[..|children|][i] == children[i];
        }
      }
    }

    /** One turn of the loop over the children: what was made fresh before stays fresh. */
    method RebuildChild(ghost lay: Layout, i: nat)
      requires Linked(lay) && this in lay.nodes && i < |children| && Fresh(this)
      requires forall x {:trigger Fresh(x)} :: x in lay.nodes && ReachedFromOneOf(lay, x, children[..i]) ==> Fresh(x)
      modifies lay.nodes`cached
      ensures Fresh(this)
      ensures forall x {:trigger Fresh(x)} :: x in lay.nodes && ReachedFromOneOf(lay, x, children[..i + 1]) ==> Fresh(x)
      ensures forall x :: x in lay.nodes && !Reached(lay, x, this) ==> x.cached == old(x.cached)
      decreases assert NodeLinked(lay, this); lay.bound - lay.depth[this], 0
    {
      var c := children[i];
      assert NodeLinked(lay, this) && NodeLinked(lay, c);
      NotReachedFromListed(lay, this, c);
      c.RebuildPaths(lay);
      ParentNotReached(lay, this, c);
      forall x | x in lay.nodes && ReachedFromOneOf(lay, x, children[..i + 1]) ensures Fresh(x) {
        if !Reached(lay, x, c) {
          EarlierChild(lay, x, children, i);
          ParentNotReached(lay, x, c);
          assert NodeLinked(lay, x) && old(Fresh(x));
        }
      }
    }

    /** `SetHasId`: whatever else was fresh stays fresh, and this subtree becomes fresh. */
    method SetHasId(ghost lay: Layout, val: bool)
      requires Linked(lay) && this in lay.nodes
      modifies this`hasId, lay.nodes`cached
      ensures hasId == val
      ensures old(FreshOutside(lay, this)) ==> AllFresh(lay)
      ensures forall x :: x in lay.nodes && !Reached(lay, x, this) ==> x.cached == old(x.cached)
    {
      ghost var outside := FreshOutside(lay, this);
      hasId := val;
      assert Reached(lay, this, this);
      if outside {
        forall x | x in lay.nodes && !Reached(lay, x, this) ensures Fresh(x) {
          assert NodeLinked(lay, x) && old(Fresh(x));
        }
      }
      RebuildSubtree(lay, outside);
    }

    /** `RebuildPaths` after a change of this resource alone. */
    method RebuildSubtree(ghost lay: Layout, ghost outside: bool)
      requires Linked(lay) && this in lay.nodes
      requires outside ==> forall x {:trigger Fresh(x)} :: x in lay.nodes && !Reached(lay, x, this) ==> Fresh(x)
      modifies lay.nodes`cached
      ensures outside ==> AllFresh(lay)
      ensures forall x :: x in lay.nodes && !Reached(lay, x, this) ==> x.cached == old(x.cached)
    {
      RebuildPaths(lay);
      if outside {
        forall x | x in lay.nodes ensures Fresh(x) {
          if !Reached(lay, x, this) {
            assert NodeLinked(lay, x) && old(Fresh(x));
            ParentNotReached(lay, x, this);
          }
        }
      }
    }

    /** `SetId`: a non-empty value also sets the id flag, which rebuilds even when no rebuild was asked for. */
    method SetId(ghost lay: Layout, val: string, rebuild: bool)
      requires Linked(lay) && this in lay.nodes
      modifies this`id, this`hasId, lay.nodes`cached
      ensures id == val && hasId == (old(hasId) || val != "")
      ensures old(FreshOutside(lay, this)) && (rebuild || val != "") ==> AllFresh(lay)
      ensures forall x :: x in lay.nodes && !Reached(lay, x, this) ==> x.cached == old(x.cached)
      ensures !rebuild && val == "" ==> forall x :: x in lay.nodes ==> x.cached == old(x.cached)
      ensures !rebuild && val == "" && old(AllFresh(lay)) ==>
        (AllFresh(lay) <==> !hasId || old(id) == "" || (tenancy && old(id) == ":" + typ))
    {
      ghost var outside := FreshOutside(lay, this);
      id := val;
      assert Reached(lay, this, this);
      if outside {
        forall x | x in lay.nodes && !Reached(lay, x, this) ensures Fresh(x) {
          assert NodeLinked(lay, x) && old(Fresh(x));
        }
      }
      if val != "" {
        SetHasId(lay, true);
      }
      if rebuild {
        RebuildSubtree(lay, outside);
      } else if val == "" && old(AllFresh(lay)) {
        assert NodeLinked(lay, this) && old(Fresh(this));
        forall x | x in lay.nodes && x != this ensures Fresh(x) {
          assert NodeLinked(lay, x) && old(Fresh(x));
        }
        ClearedExactly(lay, this, old(id));
      }
    }

    /**
     `FillActualPaths`: supplied ids go to the id-bearing resources on the chain up to the root, and
     then the whole tree is rebuilt.
     */
    method FillActualPaths(ghost lay: Layout, ids: map<string, string>)
      requires Rooted(lay) && this in lay.nodes
      modifies lay.nodes`id, lay.nodes`hasId, lay.nodes`cached
      ensures AllFresh(lay)
      ensures forall x :: x in lay.nodes ==> x.hasId == old(x.hasId)
      ensures forall x :: x in lay.nodes ==>
        x.id == if Below(lay, this, x) && old(x.hasId) && x.typ in ids then ids[x.typ] else old(x.id)
      ensures Filled(lay, this, ids)
      decreases assert NodeLinked(lay, this); lay.depth[this]
    {
      assert NodeLinked(lay, this) && Below(lay, this, this);
      if hasId && typ in ids {
        SetId(lay, ids[typ], false);
      }
      if parent != null {
        NotBelowChild(lay, parent, this);
        parent.FillActualPaths(lay, ids);
      } else {
        RebuildAll(lay);
      }
    }

    /** `RebuildPaths` at the root. */
    method RebuildAll(ghost lay: Layout)
      requires Linked(lay) && this == lay.root
      modifies lay.nodes`cached
      ensures AllFresh(lay)
    {
      RebuildPaths(lay);
      forall x | x in lay.nodes ensures Fresh(x) {
        AllReachedFromRoot(lay, x);
      }
    }

    /** `ResetIds`: ids along the chain are cleared, and then the whole tree is rebuilt. */
    method ResetIds(ghost lay: Layout)
      requires Rooted(lay) && this in lay.nodes
      modifies lay.nodes`id, lay.nodes`hasId, lay.nodes`cached
      ensures AllFresh(lay)
      ensures forall x :: x in lay.nodes ==> x.hasId == old(x.hasId)
      ensures forall x :: x in lay.nodes ==> x.id == if Below(lay, this, x) && old(x.hasId) then "" else old(x.id)
      decreases assert NodeLinked(lay, this); lay.depth[this]
    {
      assert NodeLinked(lay, this) && Below(lay, this, this);
      if hasId {
        SetId(lay, "", false);
      }
      if parent != null {
        NotBelowChild(lay, parent, this);
        parent.ResetIds(lay);
      } else {
        RebuildAll(lay);
      }
    }

    /**
     `SetParent`: this resource, at the top of `sub`, hangs under `p` from now on, and with a rebuild
     its subtree agrees with `p`. The children of `p` are not touched, nor is anything outside `sub`.
     */
    method SetParent(ghost sub: Layout, p: Resource?, rebuild: bool)
      requires Linked(sub) && this == sub.root && (p == null || p !in sub.nodes)
      modifies this`parent, sub.nodes`cached
      ensures parent == p && Linked(sub)
      ensures rebuild ==> AllFresh(sub)
      ensures !rebuild ==> forall x :: x in sub.nodes ==> x.cached == old(x.cached)
    {
      parent := p;
      forall x | x in sub.nodes ensures NodeLinked(sub, x) {
        assert old(NodeLinked(sub, x));
      }
      if rebuild {
        RebuildAll(sub);
      }
    }

    /**
     `AddChild`: the tree of `child` hangs under this resource, and with a rebuild all cached paths of
     the joint tree are fresh. A former parent of `child` outside the two trees keeps listing it.
     */
    method AddChild(ghost lay: Layout, ghost sub: Layout, child: Resource, rebuild: bool)
      requires Linked(lay) && Linked(sub) && this in lay.nodes && child == sub.root && lay.nodes !! sub.nodes
      requires lay.root.parent == null || lay.root.parent !in sub.nodes
      modifies this`children, child`parent, sub.nodes`cached
      ensures children == old(children) + [child] && child.parent == this
      ensures Linked(Graft(lay, sub, this))
      ensures rebuild && old(AllFresh(lay)) ==> AllFresh(Graft(lay, sub, this))
      ensures rebuild ==> forall x :: x in sub.nodes ==> Fresh(x)
      ensures !rebuild ==> forall x :: x in sub.nodes ==> x.cached == old(x.cached)
      ensures old(child.parent) != null && old(child.parent) != this ==> old(child.parent).children == old(child.parent.children)
    {
      Hang(lay, sub, child, rebuild);
      if rebuild && old(AllFresh(lay)) {
        forall x | x in lay.nodes ensures Fresh(x) {
          assert old(NodeLinked(lay, x)) && old(Fresh(x));
        }
      }
    }

    /** The statements of `AddChild`, and the joint tree. */
    method Hang(ghost lay: Layout, ghost sub: Layout, child: Resource, rebuild: bool)
      requires Linked(lay) && Linked(sub) && this in lay.nodes && child == sub.root && lay.nodes !! sub.nodes
      requires lay.root.parent == null || lay.root.parent !in sub.nodes
      modifies this`children, child`parent, sub.nodes`cached
      ensures children == old(children) + [child] && child.parent == this
      ensures Linked(sub) && Linked(Graft(lay, sub, this))
      ensures rebuild ==> AllFresh(sub)
      ensures !rebuild ==> forall x :: x in sub.nodes ==> x.cached == old(x.cached)
    {
      children := children + [child];
      child.SetParent(sub, this, rebuild);
      forall x | x in lay.nodes ensures LinkedWith(lay, x, if x == this then old(children) else x.children) {
        assert old(NodeLinked(lay, x));
      }
      GraftLinked(lay, sub, this, old(children));
    }

    /**
     `AddChild` of a resource that already stands in this tree (`SetParent` written out). The former
     parent keeps listing it, and still the tree has a layout, and with a rebuild all its cached paths
     are fresh, now and after every later change made through that layout. Only a resource from which
     this one is reached cannot be added: `RebuildPaths` would not end (`NotReachedFromListed`).
     */
    method MoveChild(ghost lay: Layout, child: Resource, rebuild: bool) returns (ghost moved: Layout)
      requires Linked(lay) && this in lay.nodes && child in lay.nodes && !Reached(lay, this, child)
      modifies this`children, child`parent, lay.nodes`cached
      ensures children == old(children) + [child] && child.parent == this
      ensures old(child.parent) != null && old(child.parent) != this ==> old(child.parent).children == old(child.parent.children)
      ensures moved.nodes == lay.nodes && moved.root == lay.root && Linked(moved)
      ensures rebuild && old(AllFresh(lay)) ==> AllFresh(moved)
      ensures !rebuild ==> forall x :: x in lay.nodes ==> x.cached == old(x.cached)
    {
      moved := Relink(lay, child);
      if rebuild {
        ghost var outside := old(AllFresh(lay));
        assert Reached(moved, child, child);
        if outside {
          forall x | x in moved.nodes && !Reached(moved, x, child) ensures Fresh(x) {
            assert old(NodeLinked(lay, x)) && old(Fresh(x));
          }
        }
        child.RebuildSubtree(moved, outside);
      }
    }

    /** The two links of such a move. */
    method Relink(ghost lay: Layout, child: Resource) returns (ghost moved: Layout)
      requires Linked(lay) && this in lay.nodes && child in lay.nodes && !Reached(lay, this, child)
      modifies this`children, child`parent
      ensures children == old(children) + [child] && child.parent == this
      ensures moved.nodes == lay.nodes && moved.root == lay.root && Linked(moved)
    {
      moved := Moved(lay, child);
      MovedNumbers(lay, this, child);
      children := children + [child];
      child.parent := this;
      forall x | x in moved.nodes ensures NodeLinked(moved, x) {
        assert old(NodeLinked(lay, x));
        if x != lay.root && x != child {
          assert x in old(x.parent.children);
          var i :| 0 <= i < |old(x.parent.children)| && old(x.parent.children)[i] == x;
          assert x.parent.children[i] == x;
        }
      }
    }

    /**
     `RebuildPaths`, seen from a child that the tree does not list: if its cached path was right, it
     stays right if and only if the rebuild leaves the full paths of the child's parent as they were.
     */
    method RebuildUnaware(ghost lay: Layout, child: Resource)
      requires Linked(lay) && this in lay.nodes && child !in lay.nodes && child.parent != null && Fresh(child)
      modifies lay.nodes`cached
      ensures forall x {:trigger Fresh(x)} :: x in lay.nodes && Reached(lay, x, this) ==> Fresh(x)
      ensures Fresh(child) <==>
        && child.parent.cached.fullActual == old(child.parent.cached.fullActual)
        && child.parent.cached.fullPrototype == old(child.parent.cached.fullPrototype)
    {
      ghost var before := child.parent.cached;
      RebuildPaths(lay);
      UnlistedChildFresh(child, before);
    }

    /**
     `SetId` with a rebuild, seen from a child whose parent is this resource but which the tree does not
     list (`SetParent` alone): its cached path stays right if and only if the new id leaves both
     segments of this resource as they were.
     */
    method SetIdUnaware(ghost lay: Layout, val: string, child: Resource)
      requires Linked(lay) && AllFresh(lay) && this in lay.nodes
      requires child !in lay.nodes && child.parent == this && Fresh(child)
      modifies this`id, this`hasId, lay.nodes`cached
      ensures AllFresh(lay) && child.parent == this
      ensures Fresh(child) <==>
        (old(hasId) || val == "") && SegmentOf(typ, tenancy, old(hasId), val) == old(ActualSegment())
    {
      assert NodeLinked(lay, this) && Fresh(this);
      assert FreshOutside(lay, this);
      if this != lay.root { NotReachedFromListed(lay, parent, this); }
      ghost var before := cached;
      ghost var above := if parent == null then NO_PATHS else parent.cached;
      SetId(lay, val, true);
      UnlistedChildFresh(child, before);
      assert NodeLinked(lay, this) && Fresh(this);
      SegmentsDecide(above, before, cached);
    }
  }

  /** The cached paths of `x` agree with its segments and with the full paths of `above`. */
  ghost predicate AgreesWith(x: Resource, above: Paths)
    reads x
  {
    && x.cached.prototype == x.PrototypeSegment()
    && x.cached.actual == x.ActualSegment()
    && x.cached.fullPrototype == above.fullPrototype + x.cached.prototype
    && x.cached.fullActual == above.fullActual + x.cached.actual
  }

  /**
   A child that agreed with its parent when the parent's paths were `before`, and that nobody has
   rebuilt since, is fresh if and only if the parent's full paths are still the same.
   */
  lemma UnlistedChildFresh(child: Resource, before: Paths)
    requires child.parent != null && AgreesWith(child, before)
    ensures Fresh(child) <==>
      child.parent.cached.fullActual == before.fullActual && child.parent.cached.fullPrototype == before.fullPrototype
  {
    SuffixCancels(child.parent.cached.fullActual, before.fullActual, child.cached.actual);
    SuffixCancels(child.parent.cached.fullPrototype, before.fullPrototype, child.cached.prototype);
  }

  lemma SuffixCancels(a: string, b: string, suffix: string)
    ensures a + suffix == b + suffix <==> a == b
  {
    if a + suffix == b + suffix {
      assert a == (a + suffix)[..|a|] && b == (b + suffix)[..|b|];
    }
  }

  /** When clearing an id leaves the segment as it was. */
  lemma EmptySegment(typ: string, tenancy: bool, id: string)
    ensures SegmentOf(typ, tenancy, true, "") == SegmentOf(typ, tenancy, true, id) <==> id == "" || (tenancy && id == ":" + typ)
  {
    assert ("/" + id)[1..] == id && ("/:" + typ)[1..] == ":" + typ;
  }

  /** In a tree that is fresh but for a cleared id, freshness depends on that segment alone. */
  lemma ClearedExactly(lay: Layout, r: Resource, id: string)
    requires Linked(lay) && r in lay.nodes && r.id == ""
    requires forall x {:trigger Fresh(x)} :: x in lay.nodes && x != r ==> Fresh(x)
    requires var above := if r.parent == null then NO_PATHS else r.parent.cached;
      var p, a := r.PrototypeSegment(), SegmentOf(r.typ, r.tenancy, r.hasId, id);
      r.cached == Paths(p, a, above.fullPrototype + p, above.fullActual + a)
    ensures AllFresh(lay) <==> !r.hasId || id == "" || (r.tenancy && id == ":" + r.typ)
  {
    EmptySegment(r.typ, r.tenancy, id);
    assert NodeLinked(lay, r);
    assert AllFresh(lay) <==> Fresh(r);
  }

  /** Under the same parent full paths are equal exactly when the segments are. */
  lemma SegmentsDecide(above: Paths, p: Paths, q: Paths)
    requires p.fullActual == above.fullActual + p.actual && q.fullActual == above.fullActual + q.actual
    requires p.fullPrototype == above.fullPrototype + p.prototype && q.fullPrototype == above.fullPrototype + q.prototype
    ensures p.fullActual == q.fullActual <==> p.actual == q.actual
    ensures p.fullPrototype == q.fullPrototype <==> p.prototype == q.prototype
  {
    assert p.fullActual[|above.fullActual|..] == p.actual && q.fullActual[|above.fullActual|..] == q.actual;
    assert p.fullPrototype[|above.fullPrototype|..] == p.prototype && q.fullPrototype[|above.fullPrototype|..] == q.prototype;
  }

  /** The segment of the actual path for given id and id flag. */
  function SegmentOf(typ: string, tenancy: bool, hasId: bool, id: string): string {
    if !hasId then "/" + typ
    else if tenancy && id == "" then "/:" + typ
    else "/" + id
  }

  /** Every node that is not reached from `r` is fresh. */
  ghost predicate FreshOutside(lay: Layout, r: Resource)
    requires Linked(lay) && r in lay.nodes
    reads lay.nodes, lay.root.parent
  {
    forall x {:trigger Fresh(x)} :: x in lay.nodes && !Reached(lay, x, r) ==> assert NodeLinked(lay, x); Fresh(x)
  }

  lemma NotBelowChild(lay: Layout, r: Resource, c: Resource)
    requires Linked(lay) && r in lay.nodes && c in lay.nodes && c != lay.root && c.parent == r
    ensures !Below(lay, r, c)
  {
    assert NodeLinked(lay, r) && NodeLinked(lay, c);
    if Below(lay, r, c) { BelowDepth(lay, r, c); }
  }

  lemma EarlierChild(lay: Layout, x: Resource, cs: seq<Resource>, i: nat)
    requires Linked(lay) && i < |cs| && cs[i] in lay.nodes
    requires ReachedFromOneOf(lay, x, cs[..i + 1]) && !Reached(lay, x, cs[i])
    ensures ReachedFromOneOf(lay, x, cs[..i])
  {
    var k :| 0 <= k < i + 1 && cs[..i + 1][k] in lay.nodes && Reached(lay, x, cs[..i + 1][k]);
    assert cs[..i][k] == cs[k];
  }

  ghost predicate ReachedFromOneOf(lay: Layout, x: Resource, cs: seq<Resource>)
    requires Linked(lay)
    reads lay.nodes`parent, lay.nodes`children
  {
    exists k :: 0 <= k < |cs| && cs[k] in lay.nodes && Reached(lay, x, cs[k])
  }

  // ----- links -----

  /** The place of `x` in the tree, and that of `kids` below it. */
  ghost predicate LinkedWith(lay: Layout, x: Resource, kids: seq<Resource>)
    requires x in lay.nodes
    reads lay.nodes`parent, lay.nodes`children
  {
    && x in lay.depth && lay.depth[x] <= lay.bound
    && (x != lay.root ==>
          && x.parent != null && x.parent in lay.nodes && x.parent in lay.depth
          && lay.depth[x.parent] < lay.depth[x] && x in x.parent.children)
    && (forall i :: 0 <= i < |kids| ==> kids[i] in lay.nodes && kids[i] in lay.depth && lay.depth[x] < lay.depth[kids[i]])
  }

  ghost predicate NodeLinked(lay: Layout, x: Resource)
    requires x in lay.nodes
    reads lay.nodes`parent, lay.nodes`children
  {
    LinkedWith(lay, x, x.children)
  }

  /**
   Every resource but the root is listed by its parent, and lists of children never lead back. A
   resource may also be listed by a former parent. The root may hang under a resource outside, so that
   a subtree has a layout of its own.
   */
  ghost predicate Linked(lay: Layout)
    reads lay.nodes`parent, lay.nodes`children
  {
    && lay.root in lay.nodes && lay.root in lay.depth
    && (lay.root.parent == null || lay.root.parent !in lay.nodes)
    && (forall x {:trigger NodeLinked(lay, x)} :: x in lay.nodes ==> NodeLinked(lay, x))
  }

  /** A whole tree: its root has no parent. */
  ghost predicate Rooted(lay: Layout)
    reads lay.nodes`parent, lay.nodes`children
  {
    Linked(lay) && lay.root.parent == null
  }

  /** `x` is `r` or comes after it when one follows lists of children: what `RebuildPaths` visits. */
  ghost predicate Reached(lay: Layout, x: Resource, r: Resource)
    requires Linked(lay) && r in lay.nodes
    reads lay.nodes`parent, lay.nodes`children
    decreases assert NodeLinked(lay, r); lay.bound - lay.depth[r]
  {
    assert NodeLinked(lay, r);
    x == r || exists i :: 0 <= i < |r.children| && (assert NodeLinked(lay, r.children[i]); Reached(lay, x, r.children[i]))
  }

  /** `r` is `x` or stands on the chain of parents of `x`. */
  ghost predicate Below(lay: Layout, x: Resource, r: Resource)
    requires Linked(lay) && x in lay.nodes
    reads lay.nodes`parent, lay.nodes`children
    decreases assert NodeLinked(lay, x); lay.depth[x]
  {
    assert NodeLinked(lay, x);
    x == r || (x != lay.root && assert NodeLinked(lay, x.parent); Below(lay, x.parent, r))
  }

  /** The cached paths of `x` agree with its segments and its parent's cached paths. */
  ghost predicate Fresh(x: Resource)
    reads x, x.parent
  {
    AgreesWith(x, if x.parent == null then NO_PATHS else x.parent.cached)
  }

  ghost predicate AllFresh(lay: Layout)
    requires Linked(lay)
    reads lay.nodes, lay.root.parent
  {
    forall x {:trigger Fresh(x)} :: x in lay.nodes ==> assert NodeLinked(lay, x); Fresh(x)
  }

  lemma {:induction false} BelowDepth(lay: Layout, x: Resource, r: Resource)
    requires Linked(lay) && x in lay.nodes && Below(lay, x, r)
    ensures r in lay.nodes && x in lay.depth && r in lay.depth
    ensures lay.depth[r] <= lay.depth[x] && (lay.depth[r] == lay.depth[x] ==> r == x)
    decreases assert NodeLinked(lay, x); lay.depth[x]
  {
    assert NodeLinked(lay, x);
    if x != r { BelowDepth(lay, x.parent, r); }
  }

  lemma {:induction false} ReachedDepth(lay: Layout, x: Resource, r: Resource)
    requires Linked(lay) && r in lay.nodes && Reached(lay, x, r)
    ensures x in lay.nodes && x in lay.depth && r in lay.depth
    ensures lay.depth[r] <= lay.depth[x] && (lay.depth[r] == lay.depth[x] ==> r == x)
    decreases assert NodeLinked(lay, r); lay.bound - lay.depth[r]
  {
    assert NodeLinked(lay, r);
    if x != r {
      var i :| 0 <= i < |r.children| && Reached(lay, x, r.children[i]);
      assert NodeLinked(lay, r.children[i]);
      ReachedDepth(lay, x, r.children[i]);
    }
  }

  /** What a reached resource lists is reached as well. */
  lemma {:induction false} ReachedStep(lay: Layout, x: Resource, y: Resource, r: Resource)
    requires Linked(lay) && r in lay.nodes && Reached(lay, x, r) && y in x.children
    ensures Reached(lay, y, r)
    decreases assert NodeLinked(lay, r); lay.bound - lay.depth[r]
  {
    assert NodeLinked(lay, r);
    if x == r {
      var i :| 0 <= i < |r.children| && r.children[i] == y;
      assert NodeLinked(lay, r.children[i]);
      assert Reached(lay, y, r.children[i]);
    } else {
      var i :| 0 <= i < |r.children| && Reached(lay, x, r.children[i]);
      assert NodeLinked(lay, r.children[i]);
      ReachedStep(lay, x, y, r.children[i]);
    }
  }

  lemma ParentNotReached(lay: Layout, x: Resource, c: Resource)
    requires Linked(lay) && x in lay.nodes && c in lay.nodes && !Reached(lay, x, c)
    ensures x != lay.root ==> x.parent != null && x.parent in lay.nodes && !Reached(lay, x.parent, c)
  {
    assert NodeLinked(lay, x);
    if x != lay.root && Reached(lay, x.parent, c) { ReachedStep(lay, x.parent, x, c); }
  }

  /** Nothing that lists a resource is reached from it: without this no numbering of the tree exists. */
  lemma NotReachedFromListed(lay: Layout, r: Resource, c: Resource)
    requires Linked(lay) && r in lay.nodes && c in r.children
    ensures c in lay.nodes && !Reached(lay, r, c)
  {
    assert NodeLinked(lay, r);
    var i :| 0 <= i < |r.children| && r.children[i] == c;
    assert NodeLinked(lay, r.children[i]);
    if Reached(lay, r, c) { ReachedDepth(lay, r, c); }
  }

  /** Everything below a resource is reached from it. */
  lemma {:induction false} BelowIsReached(lay: Layout, x: Resource, r: Resource)
    requires Linked(lay) && x in lay.nodes && r in lay.nodes && Below(lay, x, r)
    ensures Reached(lay, x, r)
    decreases assert NodeLinked(lay, x); lay.depth[x]
  {
    assert NodeLinked(lay, x);
    if x != r {
      BelowIsReached(lay, x.parent, r);
      ReachedStep(lay, x.parent, x, r);
    }
  }

  /** In a tree where nobody lists another's child, everything reached from a resource is below it. */
  lemma {:induction false} ReachedIsBelow(lay: Layout, x: Resource, r: Resource)
    requires Linked(lay) && r in lay.nodes && Reached(lay, x, r)
    requires forall p, i :: p in lay.nodes && 0 <= i < |p.children| ==> p.children[i].parent == p && p.children[i] != lay.root
    ensures x in lay.nodes && Below(lay, x, r)
    decreases assert NodeLinked(lay, r); lay.bound - lay.depth[r]
  {
    assert NodeLinked(lay, r);
    if x != r {
      var i :| 0 <= i < |r.children| && Reached(lay, x, r.children[i]);
      var c := r.children[i];
      assert NodeLinked(lay, c) && c.parent == r;
      ReachedIsBelow(lay, x, c);
      BelowParent(lay, x, c);
    }
  }

  lemma {:induction false} BelowParent(lay: Layout, x: Resource, c: Resource)
    requires Linked(lay) && x in lay.nodes && c in lay.nodes && Below(lay, x, c) && c != lay.root
    ensures c.parent != null && Below(lay, x, c.parent)
    decreases assert NodeLinked(lay, x); lay.depth[x]
  {
    assert NodeLinked(lay, x);
    if x != c { BelowParent(lay, x.parent, c); } else { assert NodeLinked(lay, x.parent); assert Below(lay, x.parent, x.parent); }
  }

  lemma {:induction false} AllReachedFromRoot(lay: Layout, x: Resource)
    requires Linked(lay) && x in lay.nodes
    ensures Reached(lay, x, lay.root)
    decreases assert NodeLinked(lay, x); lay.depth[x]
  {
    assert NodeLinked(lay, x);
    if x != lay.root {
      AllReachedFromRoot(lay, x.parent);
      ReachedStep(lay, x.parent, x, lay.root);
    }
  }

  // ----- moving a resource within its tree -----

  /** The numbers after a move of `child`: whatever is reached from it comes after everything else. */
  ghost function Moved(lay: Layout, child: Resource): Layout
    requires Linked(lay) && child in lay.nodes
    reads lay.nodes`parent, lay.nodes`children
  {
    Layout(
      lay.root,
      lay.nodes,
      map x | x in lay.nodes :: MovedNumber(lay, child, x),
      lay.bound + lay.bound + 1)
  }

  ghost function MovedNumber(lay: Layout, child: Resource, x: Resource): nat
    requires Linked(lay) && child in lay.nodes && x in lay.nodes
    reads lay.nodes`parent, lay.nodes`children
  {
    assert NodeLinked(lay, x);
    lay.depth[x] + if Reached(lay, x, child) then lay.bound + 1 else 0
  }

  /** They fit the old lists and the new entry. */
  lemma MovedNumbers(lay: Layout, at: Resource, child: Resource)
    requires Linked(lay) && at in lay.nodes && child in lay.nodes && !Reached(lay, at, child)
    ensures var d := Moved(lay, child).depth;
      && child != lay.root && d[at] < d[child]
      && (forall x :: x in lay.nodes ==> d[x] <= Moved(lay, child).bound)
      && (forall x, i :: x in lay.nodes && 0 <= i < |x.children| ==> x.children[i] in lay.nodes && d[x] < d[x.children[i]])
  {
    var d := Moved(lay, child).depth;
    AllReachedFromRoot(lay, at);
    assert NodeLinked(lay, at) && NodeLinked(lay, child) && Reached(lay, child, child);
    forall x | x in lay.nodes ensures d[x] <= Moved(lay, child).bound { assert NodeLinked(lay, x); }
    forall x, i | x in lay.nodes && 0 <= i < |x.children| ensures x.children[i] in lay.nodes && d[x] < d[x.children[i]] {
      assert NodeLinked(lay, x);
      if Reached(lay, x, child) { ReachedStep(lay, x, x.children[i], child); }
    }
  }

  // ----- grafting one tree onto another -----

  /** The joint layout when the root of `sub` becomes a child of `at`. */
  ghost function Graft(lay: Layout, sub: Layout, at: Resource): Layout {
    Layout(
      lay.root,
      lay.nodes + sub.nodes,
      map x | x in lay.nodes + sub.nodes :: GraftDepth(lay, sub, at, x),
      lay.bound + sub.bound + 1)
  }

  ghost function GraftDepth(lay: Layout, sub: Layout, at: Resource, x: Resource): nat {
    if x in lay.nodes then (if x in lay.depth then lay.depth[x] else 0)
    else if x in sub.depth && at in lay.depth then sub.depth[x] + lay.depth[at] + 1
    else 0
  }

  /** Two linked trees, the root of one listed by and hung under a resource of the other, are one linked tree. */
  lemma GraftLinked(lay: Layout, sub: Layout, at: Resource, kids: seq<Resource>)
    requires Linked(sub) && lay.nodes !! sub.nodes && at in lay.nodes
    requires lay.root in lay.nodes && lay.root in lay.depth
    requires lay.root.parent == null || lay.root.parent !in lay.nodes + sub.nodes
    requires sub.root.parent == at && at.children == kids + [sub.root]
    requires forall x {:trigger LinkedWith(lay, x, kids)} {:trigger LinkedWith(lay, x, x.children)} :: x in lay.nodes ==>
      LinkedWith(lay, x, if x == at then kids else x.children)
    ensures Linked(Graft(lay, sub, at))
  {
    var whole := Graft(lay, sub, at);
    assert LinkedWith(lay, at, kids) && NodeLinked(sub, sub.root);
    forall x | x in whole.nodes ensures NodeLinked(whole, x) {
      if x in lay.nodes {
        assert LinkedWith(lay, x, if x == at then kids else x.children);
        if x != lay.root {
          assert LinkedWith(lay, x.parent, if x.parent == at then kids else x.parent.children);
        }
      } else {
        assert NodeLinked(sub, x);
        if x != sub.root { assert NodeLinked(sub, x.parent); }
      }
    }
  }

  // ----- what the cached paths mean -----

  /** The concatenation of the segments from the root. */
  ghost function PathFromRoot(lay: Layout, r: Resource): string
    requires Rooted(lay) && r in lay.nodes
    reads lay.nodes
    decreases assert NodeLinked(lay, r); lay.depth[r]
  {
    assert NodeLinked(lay, r);
    (if r.parent == null then "" else assert NodeLinked(lay, r.parent); PathFromRoot(lay, r.parent)) + r.ActualSegment()
  }

  ghost function PrototypeFromRoot(lay: Layout, r: Resource): string
    requires Rooted(lay) && r in lay.nodes
    reads lay.nodes
    decreases assert NodeLinked(lay, r); lay.depth[r]
  {
    assert NodeLinked(lay, r);
    (if r.parent == null then "" else assert NodeLinked(lay, r.parent); PrototypeFromRoot(lay, r.parent)) + r.PrototypeSegment()
  }

  /** Cache agreement: in a fresh tree every cached full path is the concatenation of segments from the root. */
  lemma {:induction false} CacheAgrees(lay: Layout, r: Resource)
    requires Rooted(lay) && AllFresh(lay) && r in lay.nodes
    ensures r.cached.fullActual == PathFromRoot(lay, r) && r.cached.fullPrototype == PrototypeFromRoot(lay, r)
    decreases assert NodeLinked(lay, r); lay.depth[r]
  {
    assert NodeLinked(lay, r) && Fresh(r);
    if r.parent != null { CacheAgrees(lay, r.parent); }
  }

  // ----- actual ids -----

  /** The segment `BuildActualPath` gives a resource: a missing id leaves the bare slash. */
  ghost function BuiltSegment(r: Resource, ids: map<string, string>): string
    reads r`hasId
  {
    if !r.hasId then "/" + r.typ
    else if r.typ in ids then "/" + ids[r.typ]
    else "/"
  }

  /** `BuildActualPath` (not restricted to a service). */
  ghost function BuildActualPath(lay: Layout, r: Resource, ids: map<string, string>): string
    requires Rooted(lay) && r in lay.nodes
    reads lay.nodes
    decreases assert NodeLinked(lay, r); lay.depth[r]
  {
    assert NodeLinked(lay, r);
    if r.parent == null then BuiltSegment(r, ids)
    else
      assert NodeLinked(lay, r.parent);
      var parentPath := BuildActualPath(lay, r.parent, ids);
      if parentPath != "" then parentPath + BuiltSegment(r, ids) else BuiltSegment(r, ids)
  }

  /**
   When the two ways of writing a resource's segment agree: a supplied id, unless it is empty and
   the resource is a tenancy; or no supplied id, no stored one, and no tenancy.
   */
  ghost predicate SegmentAgrees(x: Resource, ids: map<string, string>)
    reads x`hasId, x`id
  {
    x.hasId ==> if x.typ in ids then !(x.tenancy && ids[x.typ] == "") else x.id == "" && !x.tenancy
  }

  /** Ids have been filled in along the chain of `r`. */
  ghost predicate Filled(lay: Layout, r: Resource, ids: map<string, string>)
    requires Rooted(lay) && r in lay.nodes
    reads lay.nodes
  {
    forall x :: x in lay.nodes && Below(lay, r, x) && x.hasId && x.typ in ids ==> x.id == ids[x.typ]
  }

  lemma SegmentsCompare(x: Resource, ids: map<string, string>)
    requires x.hasId && x.typ in ids ==> x.id == ids[x.typ]
    ensures if SegmentAgrees(x, ids) then x.ActualSegment() == BuiltSegment(x, ids)
            else |x.ActualSegment()| > |BuiltSegment(x, ids)|
  {
  }

  ghost predicate ChainAgrees(lay: Layout, r: Resource, ids: map<string, string>)
    requires Rooted(lay) && r in lay.nodes
    reads lay.nodes
    decreases assert NodeLinked(lay, r); lay.depth[r]
  {
    assert NodeLinked(lay, r);
    SegmentAgrees(r, ids) && (r.parent != null ==> assert NodeLinked(lay, r.parent); ChainAgrees(lay, r.parent, ids))
  }

  lemma {:induction false} BuiltIsNotEmpty(lay: Layout, r: Resource, ids: map<string, string>)
    requires Rooted(lay) && r in lay.nodes
    ensures BuildActualPath(lay, r, ids) != ""
    decreases assert NodeLinked(lay, r); lay.depth[r]
  {
    assert NodeLinked(lay, r);
    if r.parent != null { BuiltIsNotEmpty(lay, r.parent, ids); }
  }

  lemma {:induction false} ChainCompare(lay: Layout, r: Resource, ids: map<string, string>)
    requires Rooted(lay) && r in lay.nodes && Filled(lay, r, ids)
    ensures |PathFromRoot(lay, r)| >= |BuildActualPath(lay, r, ids)|
    ensures PathFromRoot(lay, r) == BuildActualPath(lay, r, ids) <==> ChainAgrees(lay, r, ids)
    ensures |PathFromRoot(lay, r)| == |BuildActualPath(lay, r, ids)| <==> ChainAgrees(lay, r, ids)
    decreases assert NodeLinked(lay, r); lay.depth[r]
  {
    assert NodeLinked(lay, r) && Below(lay, r, r);
    SegmentsCompare(r, ids);
    if r.parent != null {
      assert NodeLinked(lay, r.parent);
      assert forall x :: x in lay.nodes && Below(lay, r.parent, x) ==> Below(lay, r, x);
      ChainCompare(lay, r.parent, ids);
      BuiltIsNotEmpty(lay, r.parent, ids);
    }
  }

  /**
   After filling, the cached full path equals the built one exactly when every resource on the chain
   agrees; in particular when every id-bearing one has a non-empty supplied id.
   */
  lemma FilledEqualsBuilt(lay: Layout, r: Resource, ids: map<string, string>)
    requires Rooted(lay) && AllFresh(lay) && r in lay.nodes && Filled(lay, r, ids)
    ensures r.cached.fullActual == BuildActualPath(lay, r, ids) <==> ChainAgrees(lay, r, ids)
  {
    CacheAgrees(lay, r);
    ChainCompare(lay, r, ids);
  }

  /** The promised case. */
  lemma {:induction false} NonEmptyIdsAgree(lay: Layout, r: Resource, ids: map<string, string>)
    requires Rooted(lay) && r in lay.nodes
    requires forall x :: x in lay.nodes && Below(lay, r, x) && x.hasId ==> x.typ in ids && ids[x.typ] != ""
    ensures ChainAgrees(lay, r, ids)
    decreases assert NodeLinked(lay, r); lay.depth[r]
  {
    assert NodeLinked(lay, r) && Below(lay, r, r);
    if r.parent != null {
      assert NodeLinked(lay, r.parent);
      assert forall x :: x in lay.nodes && Below(lay, r.parent, x) ==> Below(lay, r, x);
      NonEmptyIdsAgree(lay, r.parent, ids);
    }
  }

  // ----- building a chain -----

  function Solo(r: Resource): Layout {
    Layout(r, {r}, map[r := 0], 0)
  }

  /** The prototype of the chain: a literal, then a literal and a parameter per id. */
  function ChainPrototype(first: string, ids: seq<string>): string {
    if ids == [] then "/" + first
    else ChainPrototype(first, ids[..|ids| - 1]) + "/" + ids[|ids| - 1] + "/:" + ids[|ids| - 1]
  }

  /** `NewIdResourcesChain`: the leaf's full prototype is the whole nested path, and the tree it returns is fresh. */
  method NewIdResourcesChain(first: string, ids: seq<string>) returns (head: Resource, leaf: Resource, ghost lay: Layout)
    ensures Linked(lay) && AllFresh(lay) && lay.root == head && leaf in lay.nodes && fresh(lay.nodes)
    ensures leaf.cached.fullPrototype == ChainPrototype(first, ids)
    ensures head.cached.fullPrototype == "/" + first
  {
    head := new Resource(first, false, false);
    leaf := head;
    lay := Solo(head);
    for i := 0 to |ids|
      invariant Linked(lay) && AllFresh(lay) && lay.root == head && leaf in lay.nodes && fresh(lay.nodes)
      invariant leaf.cached.fullPrototype == ChainPrototype(first, ids[..i])
      invariant head.cached.fullPrototype == "/" + first
    {
      assert ids[..i + 1][..i] == ids[..i];
      leaf, lay := AddPair(lay, leaf, ids[i]);
    }
    assert ids[..|ids|] == ids;
  }

  /** A new resource added as a child (`AddChildResource`). */
  method AddNew(ghost lay: Layout, leaf: Resource, typ: string, hasId: bool) returns (child: Resource, ghost whole: Layout)
    requires Linked(lay) && AllFresh(lay) && leaf in lay.nodes
    modifies leaf`children
    ensures Linked(whole) && AllFresh(whole) && whole.root == lay.root
    ensures fresh(child) && whole.nodes == lay.nodes + {child}
    ensures forall x :: x in lay.nodes ==> x.cached == old(x.cached)
    ensures child.cached.fullPrototype == old(leaf.cached.fullPrototype) + (if hasId then "/:" else "/") + typ
  {
    child := new Resource(typ, hasId, false);
    leaf.AddChild(lay, Solo(child), child, true);
    whole := Graft(lay, Solo(child), leaf);
    assert Fresh(child);
  }

  /** A literal child and a parameter child below it. */
  method AddPair(ghost lay: Layout, leaf: Resource, id: string) returns (param: Resource, ghost whole: Layout)
    requires Linked(lay) && AllFresh(lay) && leaf in lay.nodes
    modifies leaf`children
    ensures Linked(whole) && AllFresh(whole) && whole.root == lay.root && param in whole.nodes
    ensures lay.nodes <= whole.nodes && fresh(whole.nodes - lay.nodes)
    ensures forall x :: x in lay.nodes ==> x.cached == old(x.cached)
    ensures param.cached.fullPrototype == old(leaf.cached.fullPrototype) + "/" + id + "/:" + id
  {
    var group;
    ghost var middle;
    group, middle := AddNew(lay, leaf, id, false);
    param, whole := AddNew(middle, group, id, true);
  }

  /**
   `SetParent` without `AddChild` leaves the new parent unaware of the child: a later change of the
   parent's id rebuilds only what the parent lists, and the child's cached path goes stale.
   */
  method SetParentAloneGoesStale() returns (parent: Resource, child: Resource)
    ensures child.parent == parent && !Fresh(child)
  {
    parent := new Resource("a", true, false);
    child := new Resource("b", false, false);
    child.SetParent(Solo(child), parent, true);
    assert Fresh(child);
    assert child.cached.fullActual == "//b";
    parent.SetId(Solo(parent), "x", true);
    assert NodeLinked(Solo(parent), parent) && Fresh(parent);
    assert parent.cached.fullActual == "/x";
    assert child.cached.fullActual == "//b";
  }
}
