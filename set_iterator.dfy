/**
 * SetIterator.java: a snapshot of the keys of a hash table's cells, taken
 * when the iterator is made. The keys are read cell by cell and, within a
 * cell, from the first node on; each is inserted at the front of a fresh
 * list, so they come out in the reverse of that order.
 */
module Iteration {
  import opened Wrappers
  import opened LinkedLists
  import opened Hashing

  /** The keys of a collision list, from the first node on. */
  function KeysSeq<K, V>(list: seq<(K, V)>): (r: seq<K>)
    ensures |r| == |list| && forall j :: 0 <= j < |list| ==> r[j] == list[j].0
  {
    seq(|list|, j requires 0 <= j < |list| => list[j].0)
  }

  /** The keys of the cells in the order the constructor reads them. */
  function ScanKeys<K, V>(cells: seq<seq<(K, V)>>): seq<K>
  {
    if cells == [] then [] else ScanKeys(cells[..|cells| - 1]) + KeysSeq(cells[|cells| - 1])
  }

  function Reversed<T>(s: seq<T>): (r: seq<T>)
    ensures |r| == |s|
  {
    if s == [] then [] else [s[|s| - 1]] + Reversed(s[..|s| - 1])
  }

  /** Inserting at the front reverses the order of reading. */
  lemma ReversedSnoc<T>(s: seq<T>, x: T)
    ensures Reversed(s + [x]) == [x] + Reversed(s)
  {
    assert (s + [x])[..|s|] == s;
  }

  lemma {:induction false} ReversedMultiset<T>(s: seq<T>)
    ensures multiset(Reversed(s)) == multiset(s)
    decreases |s|
  {
    if s != [] {
      var n := |s| - 1;
      ReversedMultiset(s[..n]);
      assert s == s[..n] + [s[n]];
    }
  }

  /** Reading one more cell appends its keys. */
  lemma ScanKeysNext<K, V>(cells: seq<seq<(K, V)>>, i: int)
    requires 0 <= i < |cells|
    ensures ScanKeys(cells[..i + 1]) == ScanKeys(cells[..i]) + KeysSeq(cells[i])
  {
    assert cells[..i + 1][..i] == cells[..i];
  }

  /** Without repeated keys, the keys of a list occur once each, as its key set says. */
  lemma {:induction false} KeysSeqMultiset<K, V>(list: seq<(K, V)>)
    requires DistinctKeys(list)
    ensures multiset(KeysSeq(list)) == multiset(KeysOf(list))
    decreases |list|
  {
    if list != [] {
      var n := |list| - 1;
      var front := list[..n];
      KeysSeqMultiset(front);
      assert KeysSeq(list) == KeysSeq(front) + [list[n].0];
      PairsMapKeys(front);
      PairsMapKeys(list);
      assert KeysOf(list) == KeysOf(front) + {list[n].0} by {
        assert PairsMap(list) == PairsMap(front)[list[n].0 := list[n].1];
      }
      assert list[n].0 !in KeysOf(front);
      DisjointMultiset(KeysOf(front), {list[n].0});
    }
  }

  lemma DisjointMultiset<T>(a: set<T>, b: set<T>)
    requires a !! b
    ensures multiset(a + b) == multiset(a) + multiset(b)
  {
    forall x ensures multiset(a + b)[x] == (multiset(a) + multiset(b))[x] {
      if x in a {
        assert x !in b;
      }
    }
  }

  /**
   * The cells of a table holding m, read up to cell i, yield each key that
   * lives there exactly once.
   */
  lemma {:induction false} ScannedOnce<K(!new), V>(cells: seq<seq<(K, V)>>, hash: K -> int, m: map<K, V>, i: int)
    requires Holds(cells, hash, m) && 0 <= i <= |cells|
    ensures multiset(ScanKeys(cells[..i])) == multiset(Below(m, hash, |cells|, i).Keys)
  {
    if i == 0 {
      BelowEnds(m, hash, |cells|);
      assert cells[..0] == [];
    } else {
      ScannedOnce(cells, hash, m, i - 1);
      ScanKeysNext(cells, i - 1);
      CellFacts(cells, hash, m, i - 1);
      KeysSeqMultiset(cells[i - 1]);
      PairsMapKeys(cells[i - 1]);
      var b := Below(m, hash, |cells|, i - 1);
      assert Below(m, hash, |cells|, i).Keys == b.Keys + KeysOf(cells[i - 1]);
      DisjointMultiset(b.Keys, KeysOf(cells[i - 1]));
    }
  }

  /** Every key of a table holding m is read exactly once, and no other. */
  lemma ScannedAll<K(!new), V>(cells: seq<seq<(K, V)>>, hash: K -> int, m: map<K, V>)
    requires Holds(cells, hash, m)
    ensures multiset(Reversed(ScanKeys(cells))) == multiset(m.Keys)
  {
    ScannedOnce(cells, hash, m, |cells|);
    BelowEnds(m, hash, |cells|);
    assert cells[..|cells|] == cells;
    ReversedMultiset(ScanKeys(cells));
  }

  class SetIterator<T> {
    /** The keys of the snapshot list, from its first node on. */
    var elements: seq<T>
    /** The position of the node `current` names; past the end when it is null. */
    var current: nat

    ghost predicate Valid()
      reads this
    {
      current <= |elements|
    }

    /** `new SetIterator(table)`: every key of the cells, read in order and each put first. */
    constructor <V> (table: array<seq<(T, V)>>)
      ensures Valid() && elements == Reversed(ScanKeys(table[..])) && current == 0
    {
      var list: seq<T> := [];
      for i := 0 to table.Length
        invariant list == Reversed(ScanKeys(table[..i]))
      {
        var nodes := table[i];
        var j := 0;
        assert ScanKeys(table[..i]) + KeysSeq(nodes[..j]) == ScanKeys(table[..i]);
        while j < |nodes|
          invariant 0 <= j <= |nodes|
          invariant list == Reversed(ScanKeys(table[..i]) + KeysSeq(nodes[..j]))
        {
          assert KeysSeq(nodes[..j + 1]) == KeysSeq(nodes[..j]) + [nodes[j].0];
          assert ScanKeys(table[..i]) + KeysSeq(nodes[..j + 1]) == ScanKeys(table[..i]) + KeysSeq(nodes[..j]) + [nodes[j].0];
          ReversedSnoc(ScanKeys(table[..i]) + KeysSeq(nodes[..j]), nodes[j].0);
          list := [nodes[j].0] + list;
          j := j + 1;
        }
        assert nodes[..j] == nodes;
        ScanKeysNext(table[..], i);
        assert table[..i + 1] == table[..][..i + 1] && table[..i] == table[..][..i];
      }
      assert table[..] == table[..table.Length];
      elements := list;
      current := 0;
    }

    /** hasNext: some node is left. */
    function HasNext(): (r: bool)
      reads this
      ensures r <==> current < |elements|
    {
      current < |elements|
    }

    /** next: the key at `current`, which moves on; an exhausted iterator fails. */
    method Next() returns (r: Result<T>)
      requires Valid()
      modifies this
      ensures Valid() && elements == old(elements)
      ensures old(current) < |elements| ==> r == Ok(elements[old(current)]) && current == old(current) + 1
      ensures old(current) == |elements| ==> r == Err(NoSuchElement) && current == old(current)
    {
      if !HasNext() {
        return Err(NoSuchElement);
      }
      var result := elements[current];
      current := current + 1;
      return Ok(result);
    }
  }

  /** The cells of an empty table hold no key: the iterator has nothing to give. */
  lemma EmptyScan<K, V>(cells: seq<seq<(K, V)>>)
    requires forall i :: 0 <= i < |cells| ==> cells[i] == []
    ensures ScanKeys(cells) == []
    decreases |cells|
  {
    if cells != [] {
      EmptyScan(cells[..|cells| - 1]);
    }
  }
}
