/** The trie of subscribers: nodes on the heap, changed in place, over a flat registry. */
module SelectorTrie {
  import opened Selectors
  import Wrappers

  class Node<T> {
    var children: map<Optional, Node<T>>
    var objects: map<nat, T>
    /** Where the node stands in its trie. */
    ghost const path: Path

    constructor (ghost path: Path)
      ensures children == map[] && objects == map[] && this.path == path
    {
      this.path := path;
      children := map[];
      objects := map[];
    }
  }

  /** What `Register` hands out and `Unregister` takes back. */
  datatype Subscription = Subscription(index: nat, path: Path)

  // ----- what a lookup returns -----

  ghost predicate Distinct(ids: seq<nat>) {
    forall i, j :: 0 <= i < j < |ids| ==> ids[i] != ids[j]
  }

  /** `ids` lists the members of `want`, each once. */
  ghost predicate Enumerates(ids: seq<nat>, want: set<nat>) {
    Distinct(ids) && forall i :: i in ids <==> i in want
  }

  lemma EnumeratesConcat(a: seq<nat>, b: seq<nat>, wantA: set<nat>, wantB: set<nat>)
    requires Enumerates(a, wantA) && Enumerates(b, wantB) && wantA !! wantB
    ensures Enumerates(a + b, wantA + wantB)
  {
    forall i, j | 0 <= i < j < |a + b| ensures (a + b)[i] != (a + b)[j] {
      if i < |a| <= j {
        assert a[i] in wantA && b[j - |a|] in wantB;
      }
    }
  }

  /** The objects registered under `ids`. */
  ghost function Objects<T>(live: map<nat, Entry<T>>, ids: seq<nat>): seq<T>
    requires forall k :: 0 <= k < |ids| ==> ids[k] in live
  {
    seq(|ids|, k requires 0 <= k < |ids| => live[ids[k]].obj)
  }

  /** `found` holds the objects registered under the indexes of `want`, in the order of `ids`. */
  ghost predicate IsListing<T>(live: map<nat, Entry<T>>, want: set<nat>, ids: seq<nat>, found: seq<T>) {
    && Enumerates(ids, want)
    && (forall k :: 0 <= k < |ids| ==> ids[k] in live)
    && found == Objects(live, ids)
  }

  /** `found` holds exactly the objects registered under the indexes of `want`, each once, in some order. */
  ghost predicate IsAnswer<T>(live: map<nat, Entry<T>>, want: set<nat>, found: seq<T>) {
    exists ids :: IsListing(live, want, ids, found)
  }

  lemma AnswerConcat<T>(live: map<nat, Entry<T>>, wantA: set<nat>, foundA: seq<T>, wantB: set<nat>, foundB: seq<T>)
    requires IsAnswer(live, wantA, foundA) && IsAnswer(live, wantB, foundB) && wantA !! wantB
    ensures IsAnswer(live, wantA + wantB, foundA + foundB)
  {
    var a :| IsListing(live, wantA, a, foundA);
    var b :| IsListing(live, wantB, b, foundB);
    EnumeratesConcat(a, b, wantA, wantB);
    assert IsListing(live, wantA + wantB, a + b, foundA + foundB);
  }

  /** Live registrations stored exactly at `p`. */
  ghost function IdsAt<T>(live: map<nat, Entry<T>>, p: Path): set<nat> {
    set i | i in live && live[i].path == p
  }

  /** Live registrations at or below `p` that match the key: with `p == []`, the flat filter over the registry. */
  ghost function IdsUnder<T>(live: map<nat, Entry<T>>, p: Path, key: Path): set<nat> {
    set i | i in live && p <= live[i].path && Matches(live[i].path, key)
  }

  /** Live registrations stored on the way to `p`. */
  ghost function IdsOnWay<T>(live: map<nat, Entry<T>>, p: Path): set<nat> {
    set i | i in live && live[i].path <= p
  }

  /** The flat filter, one level at a time: here, through the key's own selector, through the unset one. */
  lemma FilterByLevel<T>(live: map<nat, Entry<T>>, p: Path, key: Path)
    requires |p| < |key| && Matches(p, key)
    ensures IdsUnder(live, p, key) ==
            IdsAt(live, p) + (if key[|p|].isSet then IdsUnder(live, p + [key[|p|]], key) else {}) + IdsUnder(live, p + [NONE], key)
    ensures key[|p|].isSet ==> IdsUnder(live, p + [key[|p|]], key) !! IdsUnder(live, p + [NONE], key)
    ensures IdsAt(live, p) !! IdsUnder(live, p + [NONE], key)
    ensures key[|p|].isSet ==> IdsAt(live, p) !! IdsUnder(live, p + [key[|p|]], key)
  {
    var n := |p|;
    forall i | i in live && p <= live[i].path && Matches(live[i].path, key) && live[i].path != p
      ensures (key[n].isSet && p + [key[n]] <= live[i].path) || p + [NONE] <= live[i].path
    {
      var path := live[i].path;
      assert path[..n] == p && path == path[..n] + path[n..];
      assert MatchesLevel(path[n], key[n]);
      assert path[..n + 1] == p + [path[n]];
    }
    forall i, s | i in live && p + [s] <= live[i].path ensures p <= live[i].path && live[i].path[n] == s && live[i].path != p {
      assert (p + [s])[n] == s && p == (p + [s])[..n];
    }
  }

  /** At the end of the key only the registrations right here are left. */
  lemma FilterAtEnd<T>(live: map<nat, Entry<T>>, p: Path, key: Path)
    requires Matches(p, key)
    requires forall i :: i in live && p <= live[i].path ==> |live[i].path| <= |p| || |p| >= |key|
    ensures IdsUnder(live, p, key) == IdsAt(live, p)
  {
    forall i | i in live && p <= live[i].path && Matches(live[i].path, key) ensures live[i].path == p {
      assert live[i].path[..|p|] == p;
    }
  }

  /** A path is on the way to a live registration. */
  ghost predicate Needed<T>(live: map<nat, Entry<T>>, p: Path) {
    exists i :: i in live && p <= live[i].path
  }

  /** No node without an object at or below it, except the nodes on the way to `spare`. */
  ghost predicate Canonical<T>(nodes: set<Path>, live: map<nat, Entry<T>>, spare: Path) {
    forall p {:trigger Needed(live, p)} :: p in nodes ==> p <= spare || Needed(live, p)
  }

  /** Indexes come from the counter, and no path is longer than the maximum. */
  ghost predicate LiveOk<T>(live: map<nat, Entry<T>>, maxSelectors: int, indexCounter: nat) {
    forall i :: i in live ==> i <= indexCounter && |live[i].path| <= if maxSelectors < 0 then 0 else maxSelectors
  }

  /** A node's children are exactly the nodes one level below it. */
  ghost predicate LinksOk<T>(at: map<Path, Node<T>>, p: Path)
    requires p in at
    reads at[p]
  {
    forall s :: (s in at[p].children <==> p + [s] in at)
             && (s in at[p].children ==> at[p].children[s] == at[p + [s]])
  }

  /** The objects at a node are exactly the live registrations stored under its path. */
  ghost predicate ObjectsOk<T>(at: map<Path, Node<T>>, live: map<nat, Entry<T>>, p: Path)
    requires p in at
    reads at[p]
  {
    forall i :: (i in at[p].objects <==> i in live && live[i].path == p)
             && (i in at[p].objects ==> at[p].objects[i] == live[i].obj)
  }

  ghost predicate NodeOk<T>(at: map<Path, Node<T>>, live: map<nat, Entry<T>>, p: Path)
    requires p in at
    reads at[p]
  {
    at[p].path == p && LinksOk(at, p) && ObjectsOk(at, live, p)
  }

  ghost predicate Stored<T>(at: map<Path, Node<T>>, live: map<nat, Entry<T>>, i: nat)
    requires i in live
  {
    live[i].path in at
  }

  /**
   The nodes form a tree, no node stands in two places, and they hold the live registrations.
   (The triggers make each node's part available only where it is mentioned.)
   */
  ghost predicate TreeOk<T>(root: Node<T>, at: map<Path, Node<T>>, live: map<nat, Entry<T>>)
    reads at.Values
  {
    && PrefixClosed(at.Keys)
    && at[[]] == root
    && (forall p {:trigger NodeOk(at, live, p)} :: p in at ==> NodeOk(at, live, p))
    && (forall i {:trigger Stored(at, live, i)} :: i in live ==> Stored(at, live, i))
  }

  class Trie<T> {
    const maxSelectors: int
    const zero: T
    var root: Node<T>
    var indexCounter: nat

    /** Every node by its path from the root. */
    ghost var at: map<Path, Node<T>>
    /** The live registrations. */
    ghost var live: map<nat, Entry<T>>
    ghost var repr: set<Node<T>>

    ghost predicate IsTree()
      reads this, repr
    {
      at.Values <= repr && TreeOk(root, at, live)
    }

    ghost predicate Valid()
      reads this, repr
    {
      IsTree() && Canonical(at.Keys, live, []) && LiveOk(live, maxSelectors, indexCounter)
    }

    constructor (maxSelectors: int, zero: T)
      ensures Valid() && live == map[] && fresh(repr) && this.maxSelectors == maxSelectors && this.zero == zero
    {
      this.maxSelectors := maxSelectors;
      this.zero := zero;
      var node := new Node<T>([]);
      root := node;
      indexCounter := 0;
      at := map[[] := node];
      live := map[];
      repr := {node};
    }

    /** `anyRemainingSet`: is a selector set from `start` onwards? */
    static method AnyRemainingSet(s: Path, start: nat) returns (found: bool)
      ensures found <==> start < SetLength(s)
    {
      var i := start;
      while i < |s|
        invariant forall k :: start <= k < i < |s| + 1 ==> !s[k].isSet
        invariant start <= i && (i <= |s| || i == start)
      {
        if s[i].isSet { return true; }
        i := i + 1;
      }
      found := false;
    }

    /** Hang a new empty node under the node at `p`. */
    method AddChild(ghost p: Path, curr: Node<T>, s: Optional) returns (child: Node<T>)
      requires IsTree() && p in at && at[p] == curr && s !in curr.children
      modifies this`at, this`repr, curr`children
      ensures IsTree() && fresh(child) && at == old(at)[p + [s] := child] && repr == old(repr) + {child}
    {
      assert NodeOk(at, live, p);
      PrefixClosedAdd(at.Keys, p, s);
      child := new Node<T>(p + [s]);
      curr.children := curr.children[s := child];
      at := at[p + [s] := child];
      repr := repr + {child};
      assert at.Keys == old(at).Keys + {p + [s]};
      forall i | i in live ensures Stored(at, live, i) && live[i].path != p + [s] {
        assert old(Stored(at, live, i));
      }
      forall q | q in at ensures NodeOk(at, live, q) {
        if q == p + [s] {
          forall r ensures q + [r] !in at {
            assert (q + [r])[..|q|] == q;
            assert q !in old(at);
          }
        } else {
          assert old(NodeOk(at, live, q));
          forall r ensures (q + [r] == p + [s]) <==> (q == p && r == s) { Snoc(q, r, p, s); }
        }
      }
    }

    /** The child under `s`, created if it is missing. */
    method Descend(ghost p: Path, curr: Node<T>, s: Optional) returns (child: Node<T>)
      requires IsTree() && p in at && at[p] == curr
      modifies this`at, this`repr, curr`children
      ensures IsTree() && p + [s] in at && at[p + [s]] == child
      ensures at.Keys == old(at).Keys + {p + [s]}
      ensures old(repr) <= repr && fresh(repr - old(repr))
    {
      assert NodeOk(at, live, p);
      if s in curr.children {
        child := curr.children[s];
      } else {
        child := AddChild(p, curr, s);
      }
    }

    /** Unhang the empty node at `p + [s]`. */
    method DropChild(ghost p: Path, parent: Node<T>, s: Optional)
      requires IsTree() && p in at && at[p] == parent && p + [s] in at
      requires at[p + [s]].children == map[] && at[p + [s]].objects == map[]
      modifies this`at, parent`children
      ensures IsTree() && at == old(at) - {p + [s]}
    {
      assert NodeOk(at, live, p) && NodeOk(at, live, p + [s]);
      PrefixClosedRemove(at.Keys, p + [s]);
      parent.children := parent.children - {s};
      at := at - {p + [s]};
      assert at.Keys == old(at).Keys - {p + [s]};
      forall i | i in live ensures Stored(at, live, i) {
        assert old(Stored(at, live, i));
      }
      forall q | q in at ensures NodeOk(at, live, q) {
        assert old(NodeOk(at, live, q));
        forall r ensures (q + [r] == p + [s]) <==> (q == p && r == s) { Snoc(q, r, p, s); }
      }
    }

    /** Store an object at the node at `p` under a fresh index. */
    method PutObject(ghost p: Path, curr: Node<T>, index: nat, obj: T)
      requires IsTree() && p in at && at[p] == curr && index !in live
      modifies this`live, curr`objects
      ensures IsTree() && live == old(live)[index := Entry(p, obj)]
    {
      assert NodeOk(at, live, p);
      curr.objects := curr.objects[index := obj];
      live := live[index := Entry(p, obj)];
      forall i | i in live ensures Stored(at, live, i) {
        if i != index { assert old(Stored(at, live, i)); }
      }
      forall q | q in at ensures NodeOk(at, live, q) {
        assert old(NodeOk(at, live, q));
      }
    }

    /** Take the object `index` away from the node at `p`. */
    method TakeObject(ghost p: Path, curr: Node<T>, index: nat)
      requires IsTree() && p in at && at[p] == curr && index in curr.objects
      modifies this`live, curr`objects
      ensures IsTree() && live == old(live) - {index}
    {
      assert NodeOk(at, live, p);
      curr.objects := curr.objects - {index};
      live := live - {index};
      forall i | i in live ensures Stored(at, live, i) {
        assert old(Stored(at, live, i));
      }
      forall q | q in at ensures NodeOk(at, live, q) {
        assert old(NodeOk(at, live, q));
      }
    }

    /** `Register`: descend to the stored path, creating the missing nodes, and put the object there. */
    method Register(selectors: Path, obj: T) returns (sub: Subscription)
      requires Valid()
      modifies this, repr
      ensures Valid() && fresh(repr - old(repr)) && root == old(root)
      ensures sub.index !in old(live) && sub.index == indexCounter == old(indexCounter) + 1
      ensures sub.path == StoredPath(maxSelectors, selectors)
      ensures live == old(live)[sub.index := Entry(sub.path, obj)]
    {
      indexCounter := indexCounter + 1;
      var curr, path := MakePath(selectors);
      PutObject(path, curr, indexCounter, obj);
      CanonicalPut(at.Keys, old(live), path, indexCounter, obj);
      sub := Subscription(indexCounter, path);
    }

    /** The loop of `Register`. */
    method MakePath(selectors: Path) returns (curr: Node<T>, path: Path)
      requires IsTree() && Canonical(at.Keys, live, [])
      modifies this`at, this`repr, repr
      ensures IsTree() && old(repr) <= repr && fresh(repr - old(repr))
      ensures path == StoredPath(maxSelectors, selectors) && path in at && at[path] == curr
      ensures Canonical(at.Keys, live, path)
    {
      curr := root;
      path := [];
      var i := 0;
      while i < maxSelectors && i < |selectors|
        invariant 0 <= i <= |selectors| && (i == 0 || i <= maxSelectors) && i <= SetLength(selectors)
        invariant path == selectors[..i]
        invariant IsTree() && Canonical(at.Keys, live, path) && path in at && at[path] == curr
        invariant old(repr) <= repr && fresh(repr - old(repr))
      {
        var more := AnyRemainingSet(selectors, i);
        if !more { break; }
        curr := Descend(path, curr, selectors[i]);
        path := path + [selectors[i]];
        i := i + 1;
      }
    }

    /**
     `Unregister`: a live subscription is removed and its object returned; anything else (none, an
     unknown one, or one already removed) changes nothing and yields the zero value.
     */
    method Unregister(sub: Wrappers.Option<Subscription>) returns (found: T)
      requires Valid()
      modifies this, repr
      ensures Valid() && repr == old(repr) && root == old(root) && indexCounter == old(indexCounter)
      ensures if sub.Some? && IsLive(old(live), sub.value)
        then found == old(live)[sub.value.index].obj && live == old(live) - {sub.value.index}
        else found == zero && live == old(live) && at == old(at)
    {
      if sub.None? { return zero; }
      var path := sub.value.path;
      var known, curr, steps := Retrace(path);
      if !known {
        assert sub.value.index in live ==> Stored(at, live, sub.value.index);
        return zero;
      }
      assert NodeOk(at, live, path);
      if sub.value.index !in curr.objects { return zero; }
      found := curr.objects[sub.value.index];
      TakeObject(path, curr, sub.value.index);
      CanonicalTake(at.Keys, old(live), path, sub.value.index);
      Prune(path, curr, steps);
    }

    /** The first loop of `Unregister`: walk the recorded path and remember the steps. */
    method Retrace(path: Path) returns (known: bool, curr: Node<T>, steps: seq<(Node<T>, Optional)>)
      requires IsTree()
      ensures known <==> path in at
      ensures known ==> at[path] == curr && |steps| == |path|
      ensures known ==> forall k :: 0 <= k < |path| ==> path[..k] in at && steps[k] == (at[path[..k]], path[k])
    {
      curr := root;
      steps := [];
      for i := 0 to |path|
        invariant path[..i] in at && at[path[..i]] == curr && |steps| == i
        invariant forall k :: 0 <= k < i ==> path[..k] in at && steps[k] == (at[path[..k]], path[k])
      {
        assert NodeOk(at, live, path[..i]);
        assert path[..i] + [path[i]] == path[..i + 1];
        if path[i] !in curr.children {
          assert path[..i + 1] !in at;
          return false, curr, steps;
        }
        steps := steps + [(curr, path[i])];
        curr := curr.children[path[i]];
      }
      assert path[..|path|] == path;
      known := true;
    }

    /** A node with an object or a child is on the way to a live registration, and so is everything above it. */
    lemma OccupiedIsNeeded(p: Path)
      requires IsTree() && p in at && Canonical(at.Keys, live, p)
      requires at[p].objects != map[] || at[p].children != map[]
      ensures Canonical(at.Keys, live, [])
    {
      assert NodeOk(at, live, p);
      if at[p].objects != map[] {
        var i :| i in at[p].objects;
        CanonicalUnderNeeded(at.Keys, live, p, i);
      } else {
        var s :| s in at[p].children;
        assert p + [s] in at && !(p + [s] <= p);
        assert Needed(live, p + [s]);
        var i :| i in live && p + [s] <= live[i].path;
        CanonicalUnderNeeded(at.Keys, live, p, i);
      }
    }

    /** The second loop of `Unregister`: bottom-up, drop nodes left with no objects and no children. */
    method Prune(ghost path: Path, start: Node<T>, steps: seq<(Node<T>, Optional)>)
      requires IsTree() && path in at && at[path] == start && Canonical(at.Keys, live, path)
      requires |steps| == |path| && forall k :: 0 <= k < |path| ==> path[..k] in at && steps[k] == (at[path[..k]], path[k])
      modifies this`at, repr
      ensures IsTree() && Canonical(at.Keys, live, [])
      ensures forall p :: p in at ==> p in old(at) && at[p] == old(at)[p]
    {
      var curr := start;
      var i := |steps|;
      assert path[..|path|] == path;
      while i > 0
        invariant 0 <= i <= |path| && IsTree()
        invariant path[..i] in at && at[path[..i]] == curr && Canonical(at.Keys, live, path[..i])
        invariant forall k :: 0 <= k < i ==> path[..k] in at && steps[k] == (at[path[..k]], path[k])
        invariant forall p :: p in at ==> p in old(at) && at[p] == old(at)[p]
      {
        if curr.objects != map[] || curr.children != map[] {
          OccupiedIsNeeded(path[..i]);
          return;
        }
        i := i - 1;
        assert path[..i] + [path[i]] == path[..i + 1];
        CanonicalDrop(at.Keys, live, path[..i], path[i]);
        DropChild(path[..i], steps[i].0, steps[i].1);
        curr := steps[i].0;
      }
    }

    /** `appendValues` on the objects of the node at `p`, in whatever order the map yields them. */
    method Values(ghost p: Path, node: Node<T>) returns (found: seq<T>)
      requires IsTree() && p in at && at[p] == node
      ensures IsAnswer(live, IdsAt(live, p), found)
    {
      assert NodeOk(at, live, p);
      found := [];
      var left := node.objects.Keys;
      assert IsListing(live, node.objects.Keys - left, [], found);
      while left != {}
        invariant left <= node.objects.Keys
        invariant IsAnswer(live, node.objects.Keys - left, found)
        decreases left
      {
        var i :| i in left;
        assert IsListing(live, {i}, [i], [node.objects[i]]);
        AnswerConcat(live, node.objects.Keys - left, found, {i}, [node.objects[i]]);
        assert node.objects.Keys - (left - {i}) == (node.objects.Keys - left) + {i};
        found, left := found + [node.objects[i]], left - {i};
      }
      assert node.objects.Keys - {} == IdsAt(live, p);
    }

    /** `LevelTrie.Find`: every live object that the flat filter accepts, each exactly once. */
    method FindLevels(key: Path) returns (found: seq<T>)
      requires Valid()
      ensures IsAnswer(live, IdsUnder(live, [], key), found)
    {
      found := Search([], root, 0, key);
    }

    /** The branching search below a node that matches the key so far. */
    method Search(ghost p: Path, node: Node<T>, depth: nat, key: Path) returns (found: seq<T>)
      requires Valid() && p in at && at[p] == node && |p| == depth && Matches(p, key)
      ensures IsAnswer(live, IdsUnder(live, p, key), found)
      decreases |key| - depth
    {
      found := Values(p, node);
      if depth >= maxSelectors || depth >= |key| {
        FilterAtEnd(live, p, key);
        return;
      }
      FilterByLevel(live, p, key);
      ghost var want := IdsAt(live, p);
      if key[depth].isSet {
        var more := SearchChild(p, node, depth, key, key[depth]);
        AnswerConcat(live, want, found, IdsUnder(live, p + [key[depth]], key), more);
        found, want := found + more, want + IdsUnder(live, p + [key[depth]], key);
      }
      var more := SearchChild(p, node, depth, key, NONE);
      AnswerConcat(live, want, found, IdsUnder(live, p + [NONE], key), more);
      found, want := found + more, want + IdsUnder(live, p + [NONE], key);
      assert want == IdsUnder(live, p, key);
    }

    method SearchChild(ghost p: Path, node: Node<T>, depth: nat, key: Path, s: Optional)
      returns (found: seq<T>)
      requires Valid() && p in at && at[p] == node && |p| == depth < |key| && Matches(p + [s], key)
      ensures IsAnswer(live, IdsUnder(live, p + [s], key), found)
      decreases |key| - depth, 0
    {
      assert NodeOk(at, live, p);
      if s in node.children {
        found := Search(p + [s], node.children[s], depth + 1, key);
      } else {
        found := [];
        forall i | i in live && |live[i].path| > |p| ensures live[i].path[..|p| + 1] != p + [s] {
          assert Stored(at, live, i);
          assert live[i].path[..|p| + 1] in at;
        }
        assert IsListing(live, IdsUnder(live, p + [s], key), [], found);
      }
    }

    /** `SelectorTrie.Find`: the objects on the single greedy walk along the key. */
    method FindGreedy(key: Path) returns (found: seq<T>)
      requires Valid()
      ensures IsAnswer(live, IdsOnWay(live, Greedy(at.Keys, key, [])), found)
    {
      var curr := root;
      ghost var p: Path := [];
      found := Values([], root);
      assert IdsAt(live, []) == IdsOnWay(live, []);
      var i := 0;
      while i < maxSelectors && i < |key|
        invariant 0 <= i <= |key| && |p| == i && p in at && at[p] == curr
        invariant Greedy(at.Keys, key, p) == Greedy(at.Keys, key, [])
        invariant IsAnswer(live, IdsOnWay(live, p), found)
      {
        assert NodeOk(at, live, p);
        var s := key[i];
        if s.isSet && s in curr.children {
        } else if NONE in curr.children {
          s := NONE;
        } else {
          return;
        }
        curr := curr.children[s];
        var more := Values(p + [s], curr);
        OnWayStep(live, p, s);
        AnswerConcat(live, IdsOnWay(live, p), found, IdsAt(live, p + [s]), more);
        found, p, i := found + more, p + [s], i + 1;
      }
      if i < |key| { NothingDeeper(p); }
    }

    /** A node at the maximal depth has no children. */
    lemma NothingDeeper(p: Path)
      requires Valid() && |p| >= maxSelectors
      ensures forall s :: p + [s] !in at
    {
      forall s ensures p + [s] !in at {
        assert !Needed(live, p + [s]);
      }
    }
  }

  lemma OnWayStep<T>(live: map<nat, Entry<T>>, p: Path, s: Optional)
    ensures IdsOnWay(live, p + [s]) == IdsOnWay(live, p) + IdsAt(live, p + [s])
    ensures IdsOnWay(live, p) !! IdsAt(live, p + [s])
  {
    forall i | i in live && live[i].path <= p + [s] && live[i].path != p + [s] ensures live[i].path <= p {
      var q := live[i].path;
      assert q == (p + [s])[..|q|] && p + [s] == (p + [s])[..|q|] + (p + [s])[|q|..];
      assert q == p[..|q|];
    }
    forall i | i in live && live[i].path <= p ensures live[i].path <= p + [s] {
      assert p == (p + [s])[..|p|];
    }
  }

  predicate IsLive<T>(live: map<nat, Entry<T>>, sub: Subscription) {
    sub.index in live && live[sub.index].path == sub.path
  }

  lemma CanonicalTake<T>(nodes: set<Path>, live: map<nat, Entry<T>>, path: Path, index: nat)
    requires Canonical(nodes, live, []) && index in live && live[index].path == path
    ensures Canonical(nodes, live - {index}, path)
  {
    forall p | p in nodes ensures p <= path || Needed(live - {index}, p) {
      if !(p <= path) {
        assert Needed(live, p);
        var i :| i in live && p <= live[i].path;
        assert i in live - {index};
      }
    }
  }

  lemma CanonicalDrop<T>(nodes: set<Path>, live: map<nat, Entry<T>>, p: Path, s: Optional)
    requires Canonical(nodes, live, p + [s])
    ensures Canonical(nodes - {p + [s]}, live, p)
  {
    forall q | q in nodes - {p + [s]} ensures q <= p || Needed(live, q) {
      if q <= p + [s] {
        assert q != p + [s] && q == (p + [s])[..|q|] && p + [s] == (p + [s])[..|q|] + (p + [s])[|q|..];
        assert q == p[..|q|];
      } else {
        assert Needed(live, q);
      }
    }
  }

  lemma CanonicalUnderNeeded<T>(nodes: set<Path>, live: map<nat, Entry<T>>, p: Path, i: nat)
    requires Canonical(nodes, live, p) && i in live && p <= live[i].path
    ensures Canonical(nodes, live, [])
  {
    forall q | q in nodes ensures Needed(live, q) {
      if q <= p { assert q <= live[i].path; } else { assert Needed(live, q); }
    }
  }

  lemma CanonicalPut<T>(nodes: set<Path>, live: map<nat, Entry<T>>, path: Path, index: nat, obj: T)
    requires Canonical(nodes, live, path) && index !in live
    ensures Canonical(nodes, live[index := Entry(path, obj)], [])
  {
    var after := live[index := Entry(path, obj)];
    forall p | p in nodes ensures Needed(after, p) {
      if p <= path {
        assert p <= after[index].path;
      } else {
        assert Needed(live, p);
        var i :| i in live && p <= live[i].path;
        assert p <= after[i].path;
      }
    }
  }

  // ----- the tree and the registry determine each other -----

  /** The nodes are the root and the prefixes of live paths, and none is deeper than the maximum. */
  lemma ShapeOfLive<T>(t: Trie<T>, p: Path)
    requires t.Valid()
    ensures p in t.at <==> p == [] || Needed(t.live, p)
    ensures p in t.at ==> |p| <= if t.maxSelectors < 0 then 0 else t.maxSelectors
  {
    if Needed(t.live, p) {
      var i :| i in t.live && p <= t.live[i].path;
      assert Stored(t.at, t.live, i);
      assert t.live[i].path[..|p|] == p;
    }
  }

  /** Two tries with the same live registrations are the same tree, node by node. */
  lemma SameLiveSameTree<T>(a: Trie<T>, b: Trie<T>, p: Path)
    requires a.Valid() && b.Valid() && a.live == b.live
    ensures p in a.at <==> p in b.at
    ensures p in a.at ==> a.at[p].children.Keys == b.at[p].children.Keys && a.at[p].objects == b.at[p].objects
  {
    ShapeOfLive(a, p);
    ShapeOfLive(b, p);
    if p in a.at {
      assert NodeOk(a.at, a.live, p) && NodeOk(b.at, b.live, p);
      forall s ensures s in a.at[p].children <==> s in b.at[p].children {
        ShapeOfLive(a, p + [s]);
        ShapeOfLive(b, p + [s]);
      }
    }
  }

  /**
   Register then Unregister returns the same object and restores the same registry and the same
   nodes; a second Unregister returns the zero value and changes nothing.
   */
  method RegisterThenUnregister<T>(t: Trie<T>, selectors: Path, obj: T) returns (first: T, second: T)
    requires t.Valid()
    modifies t, t.repr
    ensures t.Valid() && first == obj && second == t.zero
    ensures t.live == old(t.live) && t.at.Keys == old(t.at.Keys) && t.root == old(t.root)
  {
    ghost var liveBefore, nodesBefore := t.live, t.at.Keys;
    forall p ensures p in nodesBefore <==> p == [] || Needed(liveBefore, p) { ShapeOfLive(t, p); }
    var sub := t.Register(selectors, obj);
    assert t.live - {sub.index} == liveBefore;
    first := t.Unregister(Wrappers.Some(sub));
    second := t.Unregister(Wrappers.Some(sub));
    assert t.at.Keys == nodesBefore by {
      forall p ensures p in t.at.Keys <==> p in nodesBefore { ShapeOfLive(t, p); }
    }
  }

  /**
   Greedy versus full lookup over the registry: the greedy one returns a live object exactly when
   the full one does and no stored path shadows its path for this key.
   */
  lemma GreedyVersusFull<T>(t: Trie<T>, key: Path)
    requires t.Valid()
    ensures IdsOnWay(t.live, Greedy(t.at.Keys, key, [])) <= IdsUnder(t.live, [], key)
    ensures forall i :: i in IdsUnder(t.live, [], key) ==>
      (i in IdsOnWay(t.live, Greedy(t.at.Keys, key, [])) <==> !Shadowed(t.at.Keys, t.live[i].path, key))
    ensures forall i :: i in t.live && t.live[i].path <= key && WellFormed(t.live[i].path) ==>
      i in IdsOnWay(t.live, Greedy(t.at.Keys, key, []))
    ensures (forall i :: i in t.live ==> NONE !in t.live[i].path) ==>
      IdsOnWay(t.live, Greedy(t.at.Keys, key, [])) == IdsUnder(t.live, [], key)
  {
    forall i | i in t.live
      ensures t.live[i].path <= Greedy(t.at.Keys, key, []) <==>
              Matches(t.live[i].path, key) && !Shadowed(t.at.Keys, t.live[i].path, key)
      ensures t.live[i].path <= key && WellFormed(t.live[i].path) ==> t.live[i].path <= Greedy(t.at.Keys, key, [])
      ensures NONE !in t.live[i].path ==> (t.live[i].path <= Greedy(t.at.Keys, key, []) <==> Matches(t.live[i].path, key))
    {
      assert Stored(t.at, t.live, i);
      GreedyFindsExactlyUnshadowed(t.at.Keys, key, t.live[i].path);
      if t.live[i].path <= key { ExactPrefixIsFound(t.at.Keys, key, t.live[i].path); }
      if NONE !in t.live[i].path { SameWithoutUnsetLevels(t.at.Keys, key, t.live[i].path); }
    }
  }
}
