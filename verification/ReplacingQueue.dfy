/** A queue with a table of its elements; a value enqueued under a present key replaces it in place. */
module ReplacingQueue {
  import opened Wrappers

  // ----- the queue as a sequence of key-value pairs -----

  predicate HasKey<K(==), V>(c: seq<(K, V)>, key: K) {
    exists i :: 0 <= i < |c| && c[i].0 == key
  }

  predicate KeysDistinct<K(==), V>(c: seq<(K, V)>) {
    forall i, j :: 0 <= i < j < |c| ==> c[i].0 != c[j].0
  }

  /** Replace in place, or append. */
  function Put<K(==), V>(c: seq<(K, V)>, key: K, value: V): seq<(K, V)> {
    if c == [] then [(key, value)]
    else if c[0].0 == key then [(key, value)] + c[1..]
    else [c[0]] + Put(c[1..], key, value)
  }

  /** Everything that is not under `key`, in order. */
  function Without<K(==), V>(c: seq<(K, V)>, key: K): seq<(K, V)> {
    if c == [] then []
    else if c[0].0 == key then Without(c[1..], key)
    else [c[0]] + Without(c[1..], key)
  }

  function ValueOf<K(==), V>(c: seq<(K, V)>, key: K): Option<V> {
    if c == [] then None
    else if c[0].0 == key then Some(c[0].1)
    else ValueOf(c[1..], key)
  }

  lemma {:induction false} PutPresent<K, V>(c: seq<(K, V)>, i: nat, key: K, value: V)
    requires KeysDistinct(c) && i < |c| && c[i].0 == key
    ensures Put(c, key, value) == c[i := (key, value)]
  {
    if i > 0 {
      PutPresent(c[1..], i - 1, key, value);
      assert c[i := (key, value)] == [c[0]] + c[1..][i - 1 := (key, value)];
    }
  }

  lemma {:induction false} PutAbsent<K, V>(c: seq<(K, V)>, key: K, value: V)
    requires !HasKey(c, key)
    ensures Put(c, key, value) == c + [(key, value)]
  {
    if c != [] {
      forall i | 0 <= i < |c[1..]| ensures c[1..][i].0 != key {
        assert c[1..][i] == c[i + 1];
      }
      PutAbsent(c[1..], key, value);
      assert c == [c[0]] + c[1..];
    }
  }

  lemma {:induction false} WithoutAt<K, V>(c: seq<(K, V)>, i: nat)
    requires KeysDistinct(c) && i < |c|
    ensures Without(c, c[i].0) == c[..i] + c[i + 1..]
  {
    if i == 0 {
      WithoutAbsent(c[1..], c[0].0);
    } else {
      WithoutAt(c[1..], i - 1);
      assert c[..i] == [c[0]] + c[1..][..i - 1];
      assert c[1..][i..] == c[i + 1..];
    }
  }

  lemma {:induction false} WithoutAbsent<K, V>(c: seq<(K, V)>, key: K)
    requires forall i :: 0 <= i < |c| ==> c[i].0 != key
    ensures Without(c, key) == c
  {
    if c != [] { WithoutAbsent(c[1..], key); }
  }

  lemma {:induction false} LookupAt<K, V>(c: seq<(K, V)>, i: nat)
    requires KeysDistinct(c) && i < |c|
    ensures ValueOf(c, c[i].0) == Some(c[i].1)
  {
    if i > 0 { LookupAt(c[1..], i - 1); }
  }

  lemma {:induction false} LookupAbsent<K, V>(c: seq<(K, V)>, key: K)
    requires forall i :: 0 <= i < |c| ==> c[i].0 != key
    ensures ValueOf(c, key) == None
  {
    if c != [] { LookupAbsent(c[1..], key); }
  }

  /**
   What enqueueing means: the key now has the value, every other key keeps its value and its
   place among the others, and the length grows by one exactly when the key was absent.
   */
  lemma {:induction false} EnqueueLaws<K, V>(c: seq<(K, V)>, key: K, value: V)
    requires KeysDistinct(c)
    ensures ValueOf(Put(c, key, value), key) == Some(value)
    ensures Without(Put(c, key, value), key) == Without(c, key)
    ensures forall other :: other != key ==> ValueOf(Put(c, key, value), other) == ValueOf(c, other)
    ensures |Put(c, key, value)| == |c| + if HasKey(c, key) then 0 else 1
    ensures HasKey(c, key) ==> forall i :: 0 <= i < |c| ==> Put(c, key, value)[i].0 == c[i].0
  {
    if c == [] {
    } else if c[0].0 == key {
      assert HasKey(c, key);
    } else {
      EnqueueLaws(c[1..], key, value);
      assert HasKey(c, key) <==> HasKey(c[1..], key) by {
        if HasKey(c, key) { var i :| 0 <= i < |c| && c[i].0 == key; assert c[1..][i - 1].0 == key; }
        if HasKey(c[1..], key) { var i :| 0 <= i < |c[1..]| && c[1..][i].0 == key; assert c[i + 1].0 == key; }
      }
    }
  }

  /**
   What removal means: the key is gone, what stood before and behind it keeps its order, an absent key
   changes nothing, every other key keeps its value, and doing it twice is doing it once.
   */
  lemma RemoveLaws<K, V>(c: seq<(K, V)>, key: K)
    requires KeysDistinct(c)
    ensures ValueOf(Without(c, key), key) == None
    ensures forall i :: 0 <= i < |c| && c[i].0 == key ==> Without(c, key) == c[..i] + c[i + 1..]
    ensures !HasKey(c, key) ==> Without(c, key) == c
    ensures Without(Without(c, key), key) == Without(c, key)
    ensures forall other :: other != key ==> ValueOf(Without(c, key), other) == ValueOf(c, other)
  {
    RemoveKeepsValues(c, key);
    if i :| 0 <= i < |c| && c[i].0 == key {
      WithoutAt(c, i);
    } else {
      WithoutAbsent(c, key);
    }
  }

  lemma {:induction false} RemoveKeepsValues<K, V>(c: seq<(K, V)>, key: K)
    ensures ValueOf(Without(c, key), key) == None
    ensures Without(Without(c, key), key) == Without(c, key)
    ensures forall other :: other != key ==> ValueOf(Without(c, key), other) == ValueOf(c, other)
  {
    if c != [] { RemoveKeepsValues(c[1..], key); }
  }

  // ----- the list and the table -----

  /** An element of the linked list. */
  class Element<K, V> {
    var entry: (K, V)

    constructor (entry: (K, V))
      ensures this.entry == entry
    {
      this.entry := entry;
    }
  }

  /** The table's element for `k` stands in the list and carries `k`. */
  ghost predicate Filed<K, V>(list: seq<Element<K, V>>, table: map<K, Element<K, V>>, k: K)
    requires k in table
    reads table[k]
  {
    table[k].entry.0 == k && exists i :: 0 <= i < |list| && list[i] == table[k]
  }

  ghost predicate Paired<K, V>(list: seq<Element<K, V>>, table: map<K, Element<K, V>>, repr: set<object>)
    reads repr
  {
    && (forall i :: 0 <= i < |list| ==> list[i] in repr)
    && (forall i :: 0 <= i < |list| ==> list[i].entry.0 in table && table[list[i].entry.0] == list[i])
    && (forall i, j :: 0 <= i < j < |list| ==> list[i] != list[j])
    && (forall k {:trigger Filed(list, table, k)} :: k in table ==> table[k] in repr && Filed(list, table, k))
  }

  /** Without the element at `i` and its key, list and table are still in bijection. */
  lemma TakenOut<K, V>(list: seq<Element<K, V>>, table: map<K, Element<K, V>>, repr: set<object>, i: nat)
    requires Paired(list, table, repr) && i < |list|
    ensures Paired(list[..i] + list[i + 1..], table - {list[i].entry.0}, repr)
  {
    var rest, left := list[..i] + list[i + 1..], table - {list[i].entry.0};
    assert forall j :: 0 <= j < |rest| ==> rest[j] == list[if j < i then j else j + 1];
    forall k | k in left ensures left[k] in repr && Filed(rest, left, k) {
      assert Filed(list, table, k);
      var j :| 0 <= j < |list| && list[j] == table[k];
      assert rest[if j < i then j else j - 1] == table[k];
    }
  }

  class Queue<K(==), V> {
    var list: seq<Element<K, V>>
    var table: map<K, Element<K, V>>
    ghost var repr: set<object>

    /** List and table are in bijection: each listed element is the table's element for its own key. */
    ghost predicate Valid()
      reads this, repr
      ensures Valid() ==> this in repr
    {
      this in repr && Paired(list, table, repr)
    }

    ghost function Contents(): (c: seq<(K, V)>)
      requires Valid()
      reads this, repr
      ensures |c| == |list| && forall i :: 0 <= i < |c| ==> c[i] == list[i].entry
    {
      var l := list;
      seq(|l|, i requires 0 <= i < |l| reads l => l[i].entry)
    }

    /** The contents have distinct keys, and they are the keys of the table. */
    lemma KeysOfContents(key: K)
      requires Valid()
      ensures KeysDistinct(Contents())
      ensures HasKey(Contents(), key) <==> key in table
      ensures HasKey(Contents(), key) <==> exists i :: 0 <= i < |list| && list[i].entry.0 == key
    {
      if key in table {
        assert Filed(list, table, key);
        var i :| 0 <= i < |list| && list[i] == table[key];
        assert Contents()[i].0 == key;
      }
    }

    constructor ()
      ensures Valid() && fresh(repr) && Contents() == []
    {
      list := [];
      table := map[];
      repr := {this};
    }

    /** The table and the list have the same size. */
    lemma DepthIsLength()
      requires Valid()
      ensures |table| == |list|
    {
      var c := Contents();
      var keys := seq(|c|, i requires 0 <= i < |c| => c[i].0);
      forall k ensures k in table <==> k in keys {
        if k in table {
          assert Filed(list, table, k);
          var i :| 0 <= i < |list| && list[i] == table[k];
          assert keys[i] == k;
        }
      }
      CountDistinct(keys, table.Keys);
    }

    /** `el.Value = entry` for the element of a present key. */
    method Overwrite(key: K, value: V)
      requires Valid() && key in table
      modifies table[key]
      ensures Valid() && Contents() == Put(old(Contents()), key, value)
    {
      ghost var before := Contents();
      ghost var i := PositionOf(key, value);
      var el := table[key];
      assert Filed(list, table, key);
      el.entry := (key, value);
      forall k | k in table ensures Filed(list, table, k) && table[k] in repr {
        assert old(Filed(list, table, k));
      }
      assert Contents() == before[i := (key, value)];
    }

    /** Where a present key stands, and so where `Put` replaces. */
    lemma PositionOf(key: K, value: V) returns (i: nat)
      requires Valid() && key in table
      ensures i < |list| && list[i] == table[key] && Put(Contents(), key, value) == Contents()[i := (key, value)]
    {
      KeysOfContents(key);
      assert Filed(list, table, key);
      i :| 0 <= i < |list| && list[i] == table[key];
      PutPresent(Contents(), i, key, value);
    }

    /** `PushBack` of a new element, and its entry in the table. */
    method Append(key: K, value: V)
      requires Valid() && key !in table
      modifies this
      ensures Valid() && fresh(repr - old(repr)) && Contents() == Put(old(Contents()), key, value)
    {
      KeysOfContents(key);
      PutAbsent(Contents(), key, value);
      ghost var before := Contents();
      var el := new Element<K, V>((key, value));
      list := list + [el];
      table := table[key := el];
      repr := repr + {el};
      forall k | k in table ensures Filed(list, table, k) && table[k] in repr {
        if k == key {
          assert list[|list| - 1] == el;
        } else {
          assert old(Filed(list, table, k));
          var i :| 0 <= i < |old(list)| && old(list)[i] == table[k];
          assert list[i] == table[k];
        }
      }
      assert Contents() == before + [(key, value)];
    }

    method Enqueue(key: K, value: V) returns (replaced: bool, depth: nat)
      requires Valid()
      modifies repr
      ensures Valid() && fresh(repr - old(repr))
      ensures Contents() == Put(old(Contents()), key, value)
      ensures replaced == HasKey(old(Contents()), key) && depth == |Contents()|
    {
      KeysOfContents(key);
      replaced := key in table;
      if replaced {
        assert Filed(list, table, key);
        Overwrite(key, value);
      } else {
        Append(key, value);
      }
      DepthIsLength();
      depth := |table|;
    }

    /** Take the element at position `i` off the list and out of the table. */
    method RemoveAt(i: nat)
      requires Valid() && i < |list|
      modifies this
      ensures Valid() && repr == old(repr) && Contents() == old(Contents()[..i] + Contents()[i + 1..])
    {
      ghost var before := Contents();
      TakenOut(list, table, repr, i);
      var rest, left := list[..i] + list[i + 1..], table - {list[i].entry.0};
      list, table := rest, left;
      forall k | k in table ensures table[k] in repr && Filed(list, table, k) {
        assert old(Filed(rest, left, k));
      }
      assert Contents() == before[..i] + before[i + 1..];
    }

    method DropFront()
      requires Valid()
      modifies this
      ensures Valid() && repr == old(repr)
      ensures Contents() == if old(Contents()) == [] then [] else old(Contents())[1..]
    {
      if list == [] { return; }
      RemoveAt(0);
    }

    method Dequeue() returns (r: Option<V>)
      requires Valid()
      modifies this
      ensures Valid() && repr == old(repr)
      ensures if old(Contents()) == [] then r == None && Contents() == []
              else r == Some(old(Contents())[0].1) && Contents() == old(Contents())[1..]
    {
      if list == [] { return None; }
      r := Some(list[0].entry.1);
      RemoveAt(0);
    }

    method Front() returns (r: Option<V>)
      requires Valid()
      ensures r == if Contents() == [] then None else Some(Contents()[0].1)
    {
      if list == [] { return None; }
      r := Some(list[0].entry.1);
    }

    method Get(key: K) returns (r: Option<V>)
      requires Valid()
      ensures r == ValueOf(Contents(), key)
    {
      KeysOfContents(key);
      if key in table {
        assert Filed(list, table, key);
        ghost var i :| 0 <= i < |list| && list[i] == table[key];
        LookupAt(Contents(), i);
        return Some(table[key].entry.1);
      }
      LookupAbsent(Contents(), key);
      r := None;
    }

    /** Change the value of a present key; an absent key is left absent. */
    method Update(key: K, value: V) returns (updated: bool)
      requires Valid()
      modifies repr
      ensures Valid() && repr == old(repr)
      ensures updated == HasKey(old(Contents()), key)
      ensures Contents() == if updated then Put(old(Contents()), key, value) else old(Contents())
    {
      KeysOfContents(key);
      updated := key in table;
      if updated {
        assert Filed(list, table, key);
        Overwrite(key, value);
      }
    }

    method Remove(key: K) returns (removed: bool)
      requires Valid()
      modifies this
      ensures Valid() && repr == old(repr)
      ensures removed == HasKey(old(Contents()), key) && Contents() == Without(old(Contents()), key)
    {
      KeysOfContents(key);
      if key !in table {
        WithoutAbsent(Contents(), key);
        return false;
      }
      assert Filed(list, table, key);
      var i :| 0 <= i < |list| && list[i] == table[key];
      WithoutAt(Contents(), i);
      RemoveAt(i);
      removed := true;
    }

    method Clear()
      requires Valid()
      modifies this
      ensures Valid() && repr == old(repr) && Contents() == []
    {
      list := [];
      table := map[];
    }

    method Depth() returns (depth: nat)
      requires Valid()
      ensures depth == |Contents()|
    {
      DepthIsLength();
      depth := |table|;
    }
  }

  /** A duplicate-free listing of a set has the set's size. */
  lemma {:induction false} CountDistinct<K>(keys: seq<K>, all: set<K>)
    requires forall i, j :: 0 <= i < j < |keys| ==> keys[i] != keys[j]
    requires forall k :: k in all <==> k in keys
    ensures |all| == |keys|
  {
    if keys == [] {
      assert all == {};
    } else {
      forall k ensures k in all - {keys[0]} <==> k in keys[1..] {
      }
      CountDistinct(keys[1..], all - {keys[0]});
    }
  }
}
