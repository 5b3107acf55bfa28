/**
 * OwnLinkedList.java (utils/structures): the doubly linked collision list of
 * the hash tables. The model keeps the key-value pairs of the nodes as a
 * sequence from `first` on; a node is named by its position.
 */
module LinkedLists {
  import opened Wrappers

  /** The position of the first pair with key `key`: where search, walking from `first`, stops. */
  function Find<K(==), V>(pairs: seq<(K, V)>, key: K): (r: Option<nat>)
    ensures r.Some? ==> r.value < |pairs| && pairs[r.value].0 == key
    ensures r.Some? ==> forall j :: 0 <= j < r.value ==> pairs[j].0 != key
    ensures r.None? ==> forall j :: 0 <= j < |pairs| ==> pairs[j].0 != key
  {
    if pairs == [] then None
    else if pairs[0].0 == key then Some(0)
    else
      match Find(pairs[1..], key)
      case None => None
      case Some(j) => Some(j + 1)
  }

  /** The value of the first pair with key `key`, if any. */
  function Lookup<K(==), V>(pairs: seq<(K, V)>, key: K): Option<V>
  {
    match Find(pairs, key)
    case None => None
    case Some(j) => Some(pairs[j].1)
  }

  /** The pairs without the one at `position` (its neighbours linked to each other). */
  function Unlinked<T>(pairs: seq<T>, position: nat): (r: seq<T>)
    requires position < |pairs|
    ensures |r| == |pairs| - 1
    ensures forall j :: 0 <= j < position ==> r[j] == pairs[j]
    ensures forall j :: position <= j < |r| ==> r[j] == pairs[j + 1]
  {
    pairs[..position] + pairs[position + 1..]
  }

  predicate DistinctKeys<K(==), V>(pairs: seq<(K, V)>)
  {
    forall i, j :: 0 <= i < j < |pairs| ==> pairs[i].0 != pairs[j].0
  }

  /** The most recently inserted pair, at the front, is the one search finds. */
  lemma FindFront<K, V>(pairs: seq<(K, V)>, key: K, value: V, other: K)
    ensures Lookup([(key, value)] + pairs, key) == Some(value)
    ensures other != key ==> Lookup([(key, value)] + pairs, other) == Lookup(pairs, other)
  {
    var p := [(key, value)] + pairs;
    assert p[1..] == pairs;
  }

  /** Overwriting the value of the first pair with a key changes what that key finds and nothing else. */
  lemma FindOverwritten<K, V>(pairs: seq<(K, V)>, key: K, value: V, other: K)
    requires Find(pairs, key).Some?
    ensures var p := pairs[Find(pairs, key).value := (key, value)];
      Find(p, other) == Find(pairs, other) && Lookup(p, key) == Some(value)
      && (other != key ==> Lookup(p, other) == Lookup(pairs, other))
  {
    var j := Find(pairs, key).value;
    var p := pairs[j := (key, value)];
    FindAgrees(pairs, p, other, j, key);
  }

  /** Two sequences of pairs with the same keys at every position find alike. */
  lemma FindAgrees<K, V>(a: seq<(K, V)>, b: seq<(K, V)>, key: K, j: nat, jkey: K)
    requires |a| == |b| && j < |a| && a[j].0 == jkey && b[j].0 == jkey
    requires forall i :: 0 <= i < |a| && i != j ==> a[i] == b[i]
    ensures Find(a, key) == Find(b, key)
  {
    var fa, fb := Find(a, key), Find(b, key);
    if fa.Some? && fb.Some? {
      assert !(fa.value < fb.value) && !(fb.value < fa.value);
    }
  }

  /** With distinct keys, deleting the pair a key finds leaves no pair with that key, and the others find as before. */
  lemma UnlinkedFound<K, V>(pairs: seq<(K, V)>, key: K, other: K)
    requires DistinctKeys(pairs) && Find(pairs, key).Some?
    ensures var p := Unlinked(pairs, Find(pairs, key).value);
      DistinctKeys(p) && Lookup(p, key) == None && (other != key ==> Lookup(p, other) == Lookup(pairs, other))
  {
    var j := Find(pairs, key).value;
    var p := Unlinked(pairs, j);
    if other != key {
      var fp, fo := Find(p, other), Find(pairs, other);
      if fo.Some? {
        var i := fo.value;
        var i' := if i < j then i else i - 1;
        assert p[i'] == pairs[i];
        assert fp.Some?;
        assert fp.value == i';
      }
    }
  }

  /**
   * Without preventMultipleKeys a key may be inserted twice; deleting it then
   * uncovers the older pair, which search finds next.
   */
  lemma DeletedShadowUncovered<K, V>(pairs: seq<(K, V)>, key: K, newer: V)
    ensures var p := [(key, newer)] + pairs;
      Find(p, key) == Some(0) && Lookup(Unlinked(p, 0), key) == Lookup(pairs, key)
  {
    var p := [(key, newer)] + pairs;
    assert Unlinked(p, 0) == pairs;
  }

  class OwnLinkedList<K(==), V(==)> {
    /** Whether insert overwrites the value of a key already present. */
    var preventMultipleKeys: bool
    /** The key-value pairs of the nodes, the one at `first` first. */
    var pairs: seq<(K, V)>
    var size: int

    ghost predicate Valid()
      reads this
    {
      size == |pairs|
    }

    /** `new OwnLinkedList()`: empty, repeated keys allowed. */
    constructor ()
      ensures Valid() && pairs == [] && !preventMultipleKeys
    {
      pairs := [];
      preventMultipleKeys := false;
      size := 0;
    }

    /** `new OwnLinkedList(enforceSingleKey)`. */
    constructor Guarded(enforceSingleKey: bool)
      ensures Valid() && pairs == [] && preventMultipleKeys == enforceSingleKey
    {
      pairs := [];
      preventMultipleKeys := enforceSingleKey;
      size := 0;
    }

    /**
     * search: the position of the first node with the key, or none (null).
     */
    method Search(key: K) returns (r: Option<nat>)
      ensures r == Find(pairs, key)
    {
      var current := 0;
      while current < |pairs| && pairs[current].0 != key
        invariant 0 <= current <= |pairs|
        invariant forall j :: 0 <= j < current ==> pairs[j].0 != key
      {
        current := current + 1;
      }
      r := if current < |pairs| then Some(current) else None;
    }

    /**
     * insert, both overloads: with preventMultipleKeys an existing key gets
     * the new value in its node, which is returned; otherwise the new node
     * becomes the first and is returned.
     */
    method Insert(key: K, value: V) returns (position: nat)
      requires Valid()
      modifies this
      ensures Valid() && preventMultipleKeys == old(preventMultipleKeys)
      ensures old(preventMultipleKeys) && Find(old(pairs), key).Some? ==>
        position == Find(old(pairs), key).value && pairs == old(pairs)[position := (key, value)]
      ensures !(old(preventMultipleKeys) && Find(old(pairs), key).Some?) ==>
        position == 0 && pairs == [(key, value)] + old(pairs)
    {
      if preventMultipleKeys {
        var existing := Search(key);
        if existing.Some? {
          pairs := pairs[existing.value := (key, value)];
          return existing.value;
        }
      }
      pairs := [(key, value)] + pairs;
      size := size + 1;
      position := 0;
    }

    /** delete(node): the node at `position` is unlinked; `first` moves when it was the head. */
    method DeleteAt(position: nat)
      requires Valid() && position < |pairs|
      modifies this
      ensures Valid() && pairs == Unlinked(old(pairs), position)
      ensures preventMultipleKeys == old(preventMultipleKeys)
    {
      pairs := pairs[..position] + pairs[position + 1..];
      size := size - 1;
    }

    /** delete(key): the first node with the key is unlinked (true), or nothing changes (false). */
    method DeleteKey(key: K) returns (r: bool)
      requires Valid()
      modifies this
      ensures Valid() && preventMultipleKeys == old(preventMultipleKeys)
      ensures r == Find(old(pairs), key).Some?
      ensures r ==> pairs == Unlinked(old(pairs), Find(old(pairs), key).value) && size == old(size) - 1
      ensures !r ==> pairs == old(pairs) && size == old(size)
    {
      var node := Search(key);
      if node.Some? {
        DeleteAt(node.value);
        return true;
      }
      return false;
    }

    function IsEmpty(): (r: bool)
      reads this
      ensures r <==> pairs == []
    {
      pairs == []
    }

    function Size(): int
      reads this
    {
      size
    }

    method SetPreventMultipleKeys(allow: bool)
      modifies this
      ensures preventMultipleKeys == allow && pairs == old(pairs) && size == old(size)
    {
      preventMultipleKeys := allow;
    }

    /** equals: the same flag and, node by node, equal pairs and equally many of them. */
    method Equals(comp: OwnLinkedList<K, V>) returns (r: bool)
      ensures r <==> preventMultipleKeys == comp.preventMultipleKeys && pairs == comp.pairs
    {
      if preventMultipleKeys != comp.preventMultipleKeys {
        return false;
      }
      var i := 0;
      while i < |pairs| && i < |comp.pairs|
        invariant 0 <= i <= |pairs| && i <= |comp.pairs|
        invariant pairs[..i] == comp.pairs[..i]
      {
        if pairs[i] != comp.pairs[i] {
          return false;
        }
        i := i + 1;
      }
      if i < |pairs| || i < |comp.pairs| {
        return false;
      }
      assert pairs == pairs[..i] && comp.pairs == comp.pairs[..i];
      return true;
    }
  }

  /** Inserting a key twice with preventMultipleKeys keeps one node, holding the later value. */
  method SingleKeyOverwrites<K(==), V(==)>(key: K, first: V, second: V) returns (r: Option<V>, n: int)
    ensures r == Some(second) && n == 1
  {
    var list := new OwnLinkedList<K, V>.Guarded(true);
    var p := list.Insert(key, first);
    var q := list.Insert(key, second);
    var found := list.Search(key);
    r := if found.Some? then Some(list.pairs[found.value].1) else None;
    n := list.Size();
  }

  /** Without the flag the most recent insert is found first, and deleting it uncovers the older one. */
  method RecentFirst<K(==), V(==)>(key: K, older: V, newer: V) returns (before: Option<V>, after: Option<V>, n: int)
    ensures before == Some(newer) && after == Some(older) && n == 1
  {
    var list := new OwnLinkedList<K, V>();
    var p := list.Insert(key, older);
    var q := list.Insert(key, newer);
    var found := list.Search(key);
    before := if found.Some? then Some(list.pairs[found.value].1) else None;
    var deleted := list.DeleteKey(key);
    found := list.Search(key);
    after := if found.Some? then Some(list.pairs[found.value].1) else None;
    n := list.Size();
  }
}
