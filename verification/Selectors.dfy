/**
 Selector paths and the flat meaning of a lookup: which stored paths a key finds. A selector is
 the pair (value, set) that the tries use as a map key, so an unset selector with a leftover value
 is a key of its own.
 */
module Selectors {

  datatype Optional = Optional(value: string, isSet: bool)

  type Path = seq<Optional>

  const NONE := Optional("", false)

  function Some(v: string): Optional {
    Optional(v, true)
  }

  /** A registration: where it is stored, and the object. */
  datatype Entry<+T> = Entry(path: Path, obj: T)

  /** One past the last set selector (`anyRemainingSet` holds exactly before it). */
  function SetLength(selectors: Path): (n: nat)
    ensures n <= |selectors|
    ensures n > 0 ==> selectors[n - 1].isSet
    ensures forall k :: n <= k < |selectors| ==> !selectors[k].isSet
  {
    if selectors == [] then 0
    else if selectors[|selectors| - 1].isSet then |selectors|
    else SetLength(selectors[..|selectors| - 1])
  }

  /** The path under which `Register` stores selectors: trailing unset ones and levels past the maximum are dropped. */
  function StoredPath(maxSelectors: int, selectors: Path): (p: Path)
    ensures p <= selectors && |p| <= SetLength(selectors)
    ensures |p| <= if maxSelectors < 0 then 0 else maxSelectors
    ensures |p| == SetLength(selectors) || |p| == maxSelectors || maxSelectors < 0
  {
    var n := SetLength(selectors);
    selectors[..if maxSelectors < 0 then 0 else if maxSelectors < n then maxSelectors else n]
  }

  predicate MatchesLevel(stored: Optional, lookup: Optional) {
    stored == NONE || (lookup.isSet && stored == lookup)
  }

  /** A stored path is found by a key: no longer than it, and at each level unset or equal to the key's set selector. */
  predicate Matches(stored: Path, key: Path) {
    |stored| <= |key| && forall k :: 0 <= k < |stored| ==> MatchesLevel(stored[k], key[k])
  }

  // ----- the greedy walk of SelectorTrie.Find -----

  ghost predicate PrefixClosed(nodes: set<Path>) {
    [] in nodes && forall p, k :: p in nodes && 0 <= k <= |p| ==> p[..k] in nodes
  }

  lemma PrefixClosedAdd(nodes: set<Path>, p: Path, s: Optional)
    requires PrefixClosed(nodes) && p in nodes
    ensures PrefixClosed(nodes + {p + [s]})
  {
    forall q, k | q in nodes + {p + [s]} && 0 <= k <= |q| ensures q[..k] in nodes + {p + [s]} {
      if q == p + [s] { assert q[..k] == if k == |q| then q else p[..k]; }
    }
  }

  lemma PrefixClosedRemove(nodes: set<Path>, p: Path)
    requires PrefixClosed(nodes) && p != [] && forall s :: p + [s] !in nodes
    ensures PrefixClosed(nodes - {p})
  {
    forall q, k | q in nodes - {p} && 0 <= k <= |q| ensures q[..k] in nodes - {p} {
      if k == |q| {
        assert q[..k] == q;
      } else {
        assert q[..k + 1] in nodes && q[..k + 1] == q[..k] + [q[k]];
      }
    }
  }

  lemma Snoc(p: Path, s: Optional, q: Path, r: Optional)
    ensures p + [s] == q + [r] <==> p == q && s == r
  {
    if p + [s] == q + [r] {
      assert p == (p + [s])[..|p|] && q == (q + [r])[..|q|];
      assert s == (p + [s])[|p|] && r == (q + [r])[|q|];
    }
  }

  /** The node at which the greedy walk from `p` stops: the specific child if there is one, else the unset child. */
  ghost function Greedy(nodes: set<Path>, key: Path, p: Path): Path
    decreases |key| - |p|
  {
    if |p| >= |key| then p
    else if key[|p|].isSet && p + [key[|p|]] in nodes then Greedy(nodes, key, p + [key[|p|]])
    else if p + [NONE] in nodes then Greedy(nodes, key, p + [NONE])
    else p
  }

  /** The walk only goes down, through existing nodes, and every step of it matches the key. */
  lemma {:induction false} GreedyWalk(nodes: set<Path>, key: Path, p: Path)
    requires p in nodes && Matches(p, key)
    ensures p <= Greedy(nodes, key, p) && Greedy(nodes, key, p) in nodes && Matches(Greedy(nodes, key, p), key)
    decreases |key| - |p|
  {
    if |p| < |key| {
      if key[|p|].isSet && p + [key[|p|]] in nodes {
        GreedyWalk(nodes, key, p + [key[|p|]]);
      } else if p + [NONE] in nodes {
        GreedyWalk(nodes, key, p + [NONE]);
      }
    }
  }

  /** Where `stored` has an unset level, some other stored path takes the key's own branch. */
  ghost predicate Shadowed(nodes: set<Path>, stored: Path, key: Path)
    requires |stored| <= |key|
  {
    exists k :: 0 <= k < |stored| && stored[k] == NONE && key[k].isSet && stored[..k] + [key[k]] in nodes
  }

  /** From a node on the way to `stored`, the walk passes through `stored` exactly when nothing below shadows it. */
  lemma {:induction false} GreedyReaches(nodes: set<Path>, key: Path, stored: Path, k: nat)
    requires PrefixClosed(nodes) && stored in nodes && Matches(stored, key) && k <= |stored|
    requires forall j :: 0 <= j < k && stored[j] == NONE && key[j].isSet ==> stored[..j] + [key[j]] !in nodes
    ensures stored <= Greedy(nodes, key, stored[..k]) <==> !Shadowed(nodes, stored, key)
    decreases |stored| - k
  {
    var p := stored[..k];
    assert Matches(p, key);
    if k == |stored| {
      assert p == stored;
      GreedyWalk(nodes, key, p);
    } else {
      assert stored[..k + 1] == p + [stored[k]];
      assert stored[..k + 1] in nodes && MatchesLevel(stored[k], key[k]);
      if stored[k] == NONE && key[k].isSet && p + [key[k]] in nodes {
        assert Shadowed(nodes, stored, key);
        var turn := p + [key[k]];
        GreedyWalk(nodes, key, turn);
        assert turn[k] != stored[k];
        assert turn <= Greedy(nodes, key, turn);
        assert Greedy(nodes, key, p) == Greedy(nodes, key, turn);
      } else {
        GreedyReaches(nodes, key, stored, k + 1);
        assert Greedy(nodes, key, p) == Greedy(nodes, key, p + [stored[k]]);
      }
    }
  }

  /**
   Greedy versus full lookup. What the greedy walk passes is always a full match, and a full match
   is passed exactly when no stored path shadows it at one of its unset levels.
   */
  lemma GreedyFindsExactlyUnshadowed(nodes: set<Path>, key: Path, stored: Path)
    requires PrefixClosed(nodes) && stored in nodes
    ensures stored <= Greedy(nodes, key, []) <==> Matches(stored, key) && !Shadowed(nodes, stored, key)
  {
    GreedyWalk(nodes, key, []);
    if stored <= Greedy(nodes, key, []) {
      var end := Greedy(nodes, key, []);
      forall k | 0 <= k < |stored| ensures MatchesLevel(stored[k], key[k]) { assert stored[k] == end[k]; }
    }
    if Matches(stored, key) {
      assert stored[..0] == [];
      GreedyReaches(nodes, key, stored, 0);
    }
  }

  /** Built by `Some` or `None`. */
  predicate WellFormed(path: Path) {
    forall k :: 0 <= k < |path| ==> path[k].isSet || path[k] == NONE
  }

  /**
   A stored path that is literally a prefix of the key (unset matching unset) is found exactly when
   it is well formed; an unset selector with a leftover value is never looked up.
   */
  lemma ExactPrefixIsFound(nodes: set<Path>, key: Path, stored: Path)
    requires PrefixClosed(nodes) && stored in nodes && stored <= key
    ensures stored <= Greedy(nodes, key, []) <==> WellFormed(stored)
  {
    GreedyFindsExactlyUnshadowed(nodes, key, stored);
    assert Matches(stored, key) ==> forall k :: 0 <= k < |stored| ==> MatchesLevel(stored[k], key[k]);
  }

  /** When no stored path has an unset level, greedy and full lookup find the same paths. */
  lemma SameWithoutUnsetLevels(nodes: set<Path>, key: Path, stored: Path)
    requires PrefixClosed(nodes) && stored in nodes
    requires forall k :: 0 <= k < |stored| ==> stored[k] != NONE
    ensures stored <= Greedy(nodes, key, []) <==> Matches(stored, key)
  {
    GreedyFindsExactlyUnshadowed(nodes, key, stored);
  }

  /**
   The documented example: (A, unset, C) is found by (A, B, C) exactly when no stored path begins
   with (A, B).
   */
  lemma WildcardFoundUnlessSibling(nodes: set<Path>, a: string, b: string, c: string)
    requires PrefixClosed(nodes) && [Some(a), NONE, Some(c)] in nodes
    ensures [Some(a), NONE, Some(c)] <= Greedy(nodes, [Some(a), Some(b), Some(c)], [])
            <==> [Some(a), Some(b)] !in nodes
  {
    var stored, key := [Some(a), NONE, Some(c)], [Some(a), Some(b), Some(c)];
    assert Matches(stored, key);
    GreedyFindsExactlyUnshadowed(nodes, key, stored);
    assert stored[..1] + [key[1]] == [Some(a), Some(b)];
  }

  /**
   The documentation says that (unset, unset, C) is not found by (A, B, C). The code does find it,
   exactly when no stored path begins with (A) or with (unset, B).
   */
  lemma LeadingWildcardsMayBeFound(nodes: set<Path>, a: string, b: string, c: string)
    requires PrefixClosed(nodes) && [NONE, NONE, Some(c)] in nodes
    ensures [NONE, NONE, Some(c)] <= Greedy(nodes, [Some(a), Some(b), Some(c)], [])
            <==> [Some(a)] !in nodes && [NONE, Some(b)] !in nodes
  {
    var stored, key := [NONE, NONE, Some(c)], [Some(a), Some(b), Some(c)];
    assert Matches(stored, key);
    GreedyFindsExactlyUnshadowed(nodes, key, stored);
    assert stored[..0] + [key[0]] == [Some(a)];
    assert stored[..1] + [key[1]] == [NONE, Some(b)];
  }
}
