/**
 * HashTable.java: key-value pairs in an array of collision lists, the cell
 * of a key chosen by its hash code; the array doubles once more than 70% of
 * its capacity is in use.
 *
 * The model keeps each cell's collision list as its sequence of pairs (an
 * empty sequence where the source has null or an empty list), the keys'
 * hashCode() as the function `hash`, and the pairs stored as the ghost map
 * `contents`.
 */
module Hashing {
  import opened Wrappers
  import opened LinkedLists

  // ---------------------------------------------------------------------------
  // Java arithmetic
  // ---------------------------------------------------------------------------

  /** Java's `/` on int: division truncated toward zero. */
  function JavaDiv(a: int, b: int): int
    requires b > 0
  {
    if a >= 0 then a / b else -((-a) / b)
  }

  /** Java's `%` on int: a remainder with the sign of the dividend. */
  function JavaRem(a: int, b: int): (r: int)
    requires b > 0
    ensures -b < r < b
    ensures a >= 0 ==> r >= 0
    ensures a < 0 ==> r <= 0
  {
    if a >= 0 then a % b else -((-a) % b)
  }

  /** Java's division and remainder recompose the dividend. */
  lemma JavaDivRem(a: int, b: int)
    requires b > 0
    ensures a == JavaDiv(a, b) * b + JavaRem(a, b)
  {
    if a < 0 {
      var s := -a;
      assert s == (s / b) * b + s % b;
    }
  }

  /** The Euclidean remainder is the unique one in [0, b). */
  lemma ModUnique(a: int, b: int, q: int, r: int)
    requires b > 0 && 0 <= r < b && a == q * b + r
    ensures a % b == r
  {
    var q0, r0 := a / b, a % b;
    assert a == q0 * b + r0;
    assert (q - q0) * b == r0 - r;
    if q > q0 {
      MulAtLeast(q - q0, b);
    } else if q < q0 {
      MulAtLeast(q0 - q, b);
    }
  }

  lemma MulAtLeast(x: int, b: int)
    requires x >= 1 && b > 0
    ensures x * b >= b
  {
    assert x * b == (x - 1) * b + b;
  }

  /** scaledHashCode for a key with hash code h: the remainder, shifted up by the capacity and taken again. */
  function Scaled(h: int, capacity: int): (r: int)
    requires capacity > 0
    ensures 0 <= r < capacity
  {
    JavaRem(JavaRem(h, capacity) + capacity, capacity)
  }

  /** The two remainders make the floor modulus: every hash code, negative ones too, lands in [0, capacity). */
  lemma ScaledIsModulus(h: int, capacity: int)
    requires capacity > 0
    ensures Scaled(h, capacity) == h % capacity
  {
    var q, t := JavaDiv(h, capacity), JavaRem(h, capacity);
    JavaDivRem(h, capacity);
    var u := t + capacity;
    if t >= 0 {
      ModUnique(u, capacity, 1, t);
      ModUnique(h, capacity, q, t);
    } else {
      ModUnique(u, capacity, 0, u);
      assert h == (q - 1) * capacity + u;
      ModUnique(h, capacity, q - 1, u);
    }
  }

  /** The load-factor test of needsRehashing on integers: more than 7 elements per 10 cells. */
  predicate Overloaded(numOfElements: int, capacity: int)
  {
    10 * numOfElements > 7 * capacity
  }

  lemma DivideThenScale(n: real, c: real)
    requires c != 0.0
    ensures n / c * c == n
  {
  }

  lemma ScaleSign(x: real, c: real)
    requires c > 0.0
    ensures x > 0.0 <==> x * c > 0.0
  {
  }

  /** The integer test is the load-factor test, for a positive capacity. */
  lemma LoadFactorTest(numOfElements: int, capacity: int)
    ensures capacity > 0 ==>
      (Overloaded(numOfElements, capacity) <==> (numOfElements as real) / (capacity as real) > 0.7)
  {
    if capacity > 0 {
      var n, c := numOfElements as real, capacity as real;
      var q := n / c;
      DivideThenScale(n, c);
      ScaleSign(q - 0.7, c);
      assert (q - 0.7) * c == q * c - 0.7 * c;
    }
  }

  // ---------------------------------------------------------------------------
  // What the cells hold
  // ---------------------------------------------------------------------------

  function MapGet<K, V>(m: map<K, V>, k: K): Option<V>
  {
    if k in m then Some(m[k]) else None
  }

  /** The pairs of a cell as a map, the later ones added last. */
  ghost function PairsMap<K, V>(pairs: seq<(K, V)>): map<K, V>
  {
    if pairs == [] then map[] else PairsMap(pairs[..|pairs| - 1])[pairs[|pairs| - 1].0 := pairs[|pairs| - 1].1]
  }

  /** Without repeated keys, the map of a cell finds what search finds. */
  lemma {:induction false} PairsMapLookup<K, V>(pairs: seq<(K, V)>, k: K)
    requires DistinctKeys(pairs)
    ensures MapGet(PairsMap(pairs), k) == Lookup(pairs, k)
    ensures k in PairsMap(pairs) <==> Find(pairs, k).Some?
    decreases |pairs|
  {
    if pairs != [] {
      var n := |pairs| - 1;
      var front := pairs[..n];
      PairsMapLookup(front, k);
      if pairs[n].0 != k {
        if Find(front, k).Some? {
          assert Find(pairs, k) == Find(front, k) by {
            var j := Find(front, k).value;
            assert pairs[j] == front[j];
          }
        }
      } else {
        assert Find(front, k).None?;
        assert Find(pairs, k) == Some(n);
      }
    }
  }

  lemma {:induction false} PairsMapSize<K, V>(pairs: seq<(K, V)>)
    requires DistinctKeys(pairs)
    ensures |PairsMap(pairs)| == |pairs|
    decreases |pairs|
  {
    if pairs != [] {
      var n := |pairs| - 1;
      var front := pairs[..n];
      PairsMapSize(front);
      PairsMapLookup(front, pairs[n].0);
    }
  }

  /** Every pair of cell i has its home there, and no key occurs twice. */
  ghost predicate Homed<K, V>(hash: K -> int, cell: seq<(K, V)>, i: int, capacity: int)
    requires capacity > 0
  {
    DistinctKeys(cell) && forall j :: 0 <= j < |cell| ==> Scaled(hash(cell[j].0), capacity) == i
  }

  /** The cells hold exactly the pairs of m, each in the cell its key's hash code scales to. */
  ghost predicate Holds<K(!new), V>(cells: seq<seq<(K, V)>>, hash: K -> int, m: map<K, V>)
  {
    && |cells| > 0
    && (forall i :: 0 <= i < |cells| ==> Homed(hash, cells[i], i, |cells|))
    && (forall k {:trigger MapGet(m, k)} :: Lookup(cells[Scaled(hash(k), |cells|)], k) == MapGet(m, k))
  }

  /** The cells hold m, n counts its pairs, and at most one pair beyond 70% of the cells is in use. */
  ghost predicate Loaded<K(!new), V>(cells: seq<seq<(K, V)>>, hash: K -> int, m: map<K, V>, n: int)
  {
    Holds(cells, hash, m) && n == |m| && 10 * (n - 1) <= 7 * |cells|
  }

  /** The pairs of m whose keys live in the cells before i. */
  ghost function Below<K, V>(m: map<K, V>, hash: K -> int, capacity: int, i: int): map<K, V>
    requires capacity > 0
  {
    map k | k in m && Scaled(hash(k), capacity) < i :: m[k]
  }

  lemma EmptyHolds<K(!new), V>(capacity: int, hash: K -> int)
    requires capacity > 0
    ensures Holds<K, V>(seq(capacity, _ => []), hash, map[])
  {
    var cells: seq<seq<(K, V)>> := seq(capacity, _ => []);
    forall k ensures Lookup(cells[Scaled(hash(k), capacity)], k) == MapGet(map[], k) {
    }
  }

  /** The cell put writes: the pair found gets the new value, or the new pair goes first. */
  function Stored<K(==), V>(cell: seq<(K, V)>, key: K, value: V): seq<(K, V)>
  {
    match Find(cell, key)
    case Some(j) => cell[j := (key, value)]
    case None => [(key, value)] + cell
  }

  /** Replacing one cell keeps the table holding m', when only keys of that cell changed and the new cell holds them. */
  lemma ReplacedCell<K(!new), V>(cells: seq<seq<(K, V)>>, hash: K -> int, m: map<K, V>, h: int, c': seq<(K, V)>, m': map<K, V>)
    requires Holds(cells, hash, m) && 0 <= h < |cells| && Homed(hash, c', h, |cells|)
    requires forall k :: Scaled(hash(k), |cells|) == h ==> Lookup(c', k) == MapGet(m', k)
    requires forall k :: Scaled(hash(k), |cells|) != h ==> MapGet(m', k) == MapGet(m, k)
    ensures Holds(cells[h := c'], hash, m')
  {
    var cells' := cells[h := c'];
    forall i | 0 <= i < |cells'| ensures Homed(hash, cells'[i], i, |cells|) {
      if i != h {
        assert cells'[i] == cells[i];
      }
    }
    forall k ensures Lookup(cells'[Scaled(hash(k), |cells|)], k) == MapGet(m', k) {
      if Scaled(hash(k), |cells|) != h {
        assert Lookup(cells[Scaled(hash(k), |cells|)], k) == MapGet(m, k);
      }
    }
  }

  /** Putting a pair into its home cell stores it, and nothing else changes. */
  lemma StoredHolds<K(!new), V>(cells: seq<seq<(K, V)>>, hash: K -> int, m: map<K, V>, key: K, value: V)
    requires Holds(cells, hash, m)
    ensures var h := Scaled(hash(key), |cells|);
      && (Find(cells[h], key).Some? <==> key in m)
      && Holds(cells[h := Stored(cells[h], key, value)], hash, m[key := value])
  {
    var h := Scaled(hash(key), |cells|);
    var c := cells[h];
    var c' := Stored(c, key, value);
    assert Lookup(c, key) == MapGet(m, key);
    assert Homed(hash, c, h, |cells|);
    forall k | Scaled(hash(k), |cells|) == h ensures Lookup(c', k) == MapGet(m[key := value], k) {
      assert Lookup(c, k) == MapGet(m, k);
      if Find(c, key).Some? {
        FindOverwritten(c, key, value, k);
      } else {
        FindFront(c, key, value, k);
      }
    }
    StoredHomed(hash, c, h, |cells|, key, value);
    ReplacedCell(cells, hash, m, h, c', m[key := value]);
  }

  /** The stored cell stays homed when the key belongs there. */
  lemma StoredHomed<K, V>(hash: K -> int, c: seq<(K, V)>, h: int, capacity: int, key: K, value: V)
    requires capacity > 0 && Homed(hash, c, h, capacity) && Scaled(hash(key), capacity) == h
    ensures Homed(hash, Stored(c, key, value), h, capacity)
  {
    var c' := Stored(c, key, value);
    if Find(c, key).Some? {
      forall l | 0 <= l < |c'| ensures c'[l].0 == c[l].0 {
      }
    } else {
      forall l | 0 < l < |c'| ensures c'[l] == c[l - 1] {
      }
    }
  }

  /** Removing the pair of a key from its home cell removes just that key. */
  lemma UnlinkedHolds<K(!new), V>(cells: seq<seq<(K, V)>>, hash: K -> int, m: map<K, V>, key: K)
    requires Holds(cells, hash, m)
    ensures var h := Scaled(hash(key), |cells|);
      && (Find(cells[h], key).Some? <==> key in m)
      && (Find(cells[h], key).Some? ==> Holds(cells[h := Unlinked(cells[h], Find(cells[h], key).value)], hash, m - {key}))
  {
    var h := Scaled(hash(key), |cells|);
    var c := cells[h];
    assert Lookup(c, key) == MapGet(m, key);
    if Find(c, key).Some? {
      var c' := Unlinked(c, Find(c, key).value);
      assert Homed(hash, c, h, |cells|);
      forall k | Scaled(hash(k), |cells|) == h ensures Lookup(c', k) == MapGet(m - {key}, k) {
        UnlinkedFound(c, key, k);
        assert Lookup(c, k) == MapGet(m, k);
      }
      UnlinkedFound(c, key, key);
      assert Homed(hash, c', h, |cells|) by {
        forall l | 0 <= l < |c'| ensures Scaled(hash(c'[l].0), |cells|) == h {
          assert c'[l] == c[if l < Find(c, key).value then l else l + 1];
        }
      }
      ReplacedCell(cells, hash, m, h, c', m - {key});
    }
  }

  /** One key at a time: it is below i + 1 when it is below i or in cell i, and not both. */
  lemma BelowKey<K(!new), V>(cells: seq<seq<(K, V)>>, hash: K -> int, m: map<K, V>, i: int, k: K)
    requires Holds(cells, hash, m) && 0 <= i < |cells|
    ensures MapGet(Below(m, hash, |cells|, i + 1), k) == MapGet(Below(m, hash, |cells|, i) + PairsMap(cells[i]), k)
    ensures k in Below(m, hash, |cells|, i) ==> k !in PairsMap(cells[i])
  {
    var n := |cells|;
    var c := cells[i];
    var h := Scaled(hash(k), n);
    PairsMapLookup(c, k);
    assert Lookup(cells[h], k) == MapGet(m, k);
    assert Find(c, k).Some? ==> h == i by {
      if Find(c, k).Some? {
        assert Homed(hash, c, i, n);
        assert c[Find(c, k).value].0 == k;
      }
    }
    if h == i {
      assert k !in Below(m, hash, n, i);
    } else {
      assert k !in PairsMap(c);
    }
  }

  /** Cell i adds as many pairs below i + 1 as its list is long. */
  lemma CellCount<K(!new), V>(cells: seq<seq<(K, V)>>, hash: K -> int, m: map<K, V>, i: int)
    requires Holds(cells, hash, m) && 0 <= i < |cells|
    ensures |Below(m, hash, |cells|, i + 1)| == |Below(m, hash, |cells|, i)| + |cells[i]|
    ensures Below(m, hash, |cells|, i + 1) == Below(m, hash, |cells|, i) + PairsMap(cells[i])
  {
    CellFacts(cells, hash, m, i);
    PairsMapKeys(cells[i]);
    PairsMapSize(cells[i]);
    var b, c := Below(m, hash, |cells|, i), PairsMap(cells[i]);
    assert (b + c).Keys == b.Keys + c.Keys;
    DisjointSize(b.Keys, c.Keys);
  }

  /** Once as many pairs lie below i as m holds, all of them do. */
  lemma BelowFull<K, V>(m: map<K, V>, hash: K -> int, capacity: int, i: int)
    requires capacity > 0 && |Below(m, hash, capacity, i)| == |m|
    ensures Below(m, hash, capacity, i) == m
  {
    SubsetNotLarger(Below(m, hash, capacity, i).Keys, m.Keys);
  }

  /** The pairs of the cells before i, cell by cell. */
  ghost function Gathered<K, V>(cells: seq<seq<(K, V)>>, i: int): map<K, V>
    requires 0 <= i <= |cells|
  {
    if i == 0 then map[] else Gathered(cells, i - 1) + PairsMap(cells[i - 1])
  }

  /** Gathering the cells of a table cell by cell collects the pairs whose keys live before i. */
  lemma {:induction false} GatheredBelow<K(!new), V>(cells: seq<seq<(K, V)>>, hash: K -> int, m: map<K, V>, i: int)
    requires Holds(cells, hash, m) && 0 <= i <= |cells|
    ensures Gathered(cells, i) == Below(m, hash, |cells|, i)
  {
    if i == 0 {
      BelowEnds(m, hash, |cells|);
    } else {
      GatheredBelow(cells, hash, m, i - 1);
      BelowNext(cells, hash, m, i - 1);
    }
  }

  /** One cell of putAll: as many pairs are gathered as the cell holds, and once as many as m holds, all of m is. */
  lemma JoinStep<K(!new), V>(start: map<K, V>, cells: seq<seq<(K, V)>>, hash: K -> int, m: map<K, V>, i: int)
    requires Holds(cells, hash, m) && 0 <= i < |cells|
    ensures start + Gathered(cells, i) + PairsMap(cells[i]) == start + Gathered(cells, i + 1)
    ensures |Gathered(cells, i + 1)| == |Gathered(cells, i)| + |cells[i]|
    ensures |Gathered(cells, i + 1)| == |m| ==> Gathered(cells, i + 1) == m
    ensures i + 1 == |cells| ==> Gathered(cells, i + 1) == m
  {
    MergeAssociates(start, Gathered(cells, i), PairsMap(cells[i]));
    JoinCount(cells, hash, m, i);
    JoinFull(cells, hash, m, i + 1);
  }

  lemma JoinCount<K(!new), V>(cells: seq<seq<(K, V)>>, hash: K -> int, m: map<K, V>, i: int)
    requires Holds(cells, hash, m) && 0 <= i < |cells|
    ensures |Gathered(cells, i + 1)| == |Gathered(cells, i)| + |cells[i]|
  {
    GatheredBelow(cells, hash, m, i);
    GatheredBelow(cells, hash, m, i + 1);
    CellCount(cells, hash, m, i);
  }

  lemma JoinFull<K(!new), V>(cells: seq<seq<(K, V)>>, hash: K -> int, m: map<K, V>, i: int)
    requires Holds(cells, hash, m) && 0 <= i <= |cells|
    ensures |Gathered(cells, i)| == |m| ==> Gathered(cells, i) == m
    ensures i == |cells| ==> Gathered(cells, i) == m
  {
    GatheredBelow(cells, hash, m, i);
    BelowEnds(m, hash, |cells|);
    if |Gathered(cells, i)| == |m| {
      BelowFull(m, hash, |cells|, i);
    }
  }

  lemma MergeAssociates<K, V>(a: map<K, V>, b: map<K, V>, c: map<K, V>)
    ensures a + b + c == a + (b + c)
  {
  }

  /** Cell i holds exactly the pairs of m whose keys scale to i. */
  lemma BelowNext<K(!new), V>(cells: seq<seq<(K, V)>>, hash: K -> int, m: map<K, V>, i: int)
    requires Holds(cells, hash, m) && 0 <= i < |cells|
    ensures Below(m, hash, |cells|, i + 1) == Below(m, hash, |cells|, i) + PairsMap(cells[i])
    ensures Below(m, hash, |cells|, i).Keys !! PairsMap(cells[i]).Keys
  {
    var n := |cells|;
    var c := cells[i];
    assert Homed(hash, c, i, n);
    forall k ensures MapGet(Below(m, hash, n, i + 1), k) == MapGet(Below(m, hash, n, i) + PairsMap(c), k) {
      BelowKey(cells, hash, m, i, k);
    }
    forall k | k in Below(m, hash, n, i) ensures k !in PairsMap(c) {
      BelowKey(cells, hash, m, i, k);
    }
    MapsAgree(Below(m, hash, n, i + 1), Below(m, hash, n, i) + PairsMap(c));
  }

  lemma MapsAgree<K(!new), V>(a: map<K, V>, b: map<K, V>)
    requires forall k :: MapGet(a, k) == MapGet(b, k)
    ensures a == b
  {
    assert forall k :: k in a <==> MapGet(a, k).Some?;
    assert forall k :: k in b <==> MapGet(b, k).Some?;
    assert a.Keys == b.Keys;
    forall k | k in a ensures a[k] == b[k] {
      assert MapGet(a, k) == MapGet(b, k);
    }
  }

  lemma BelowEnds<K(!new), V>(m: map<K, V>, hash: K -> int, capacity: int)
    requires capacity > 0
    ensures Below(m, hash, capacity, 0) == map[]
    ensures Below(m, hash, capacity, capacity) == m
  {
  }

  /** One more pair of a list puts its key over the map of the pairs before it. */
  lemma PairsMapExtended<K, V>(list: seq<(K, V)>, j: int)
    requires 0 <= j < |list|
    ensures PairsMap(list[..j + 1]) == PairsMap(list[..j])[list[j].0 := list[j].1]
  {
    assert list[..j + 1][..j] == list[..j];
  }

  lemma UpdateMerged<K, V>(a: map<K, V>, b: map<K, V>, k: K, v: V)
    ensures (a + b)[k := v] == a + b[k := v]
  {
  }

  lemma SubsetNotLarger<T>(a: set<T>, b: set<T>)
    requires a <= b
    ensures |a| <= |b|
    ensures |a| == |b| ==> a == b
  {
    assert b == a + (b - a);
    assert a * (b - a) == {};
    if |a| == |b| {
      assert |b - a| == 0;
    }
  }

  lemma DisjointSize<T>(a: set<T>, b: set<T>)
    requires a !! b
    ensures |a + b| == |a| + |b|
  {
    assert a * b == {};
  }

  /** The keys of a sequence of pairs. */
  ghost function KeysOf<K, V>(pairs: seq<(K, V)>): set<K>
  {
    set l | 0 <= l < |pairs| :: pairs[l].0
  }

  lemma {:induction false} PairsMapKeys<K, V>(pairs: seq<(K, V)>)
    ensures PairsMap(pairs).Keys == KeysOf(pairs)
    decreases |pairs|
  {
    if pairs != [] {
      var n := |pairs| - 1;
      PairsMapKeys(pairs[..n]);
      assert KeysOf(pairs) == KeysOf(pairs[..n]) + {pairs[n].0} by {
        forall k | k in KeysOf(pairs) ensures k in KeysOf(pairs[..n]) + {pairs[n].0} {
          var l :| 0 <= l < |pairs| && pairs[l].0 == k;
          if l < n {
            assert pairs[..n][l] == pairs[l];
          }
        }
        forall k | k in KeysOf(pairs[..n]) ensures k in KeysOf(pairs) {
          var l :| 0 <= l < n && pairs[..n][l].0 == k;
          assert pairs[l] == pairs[..n][l];
        }
      }
    }
  }

  /** Adding the pairs of a list without repeated keys one by one: the next key is new, and the prefix keys are the list's. */
  lemma PrefixStep<K, V>(list: seq<(K, V)>, j: int)
    requires DistinctKeys(list) && 0 <= j < |list|
    ensures list[j].0 !in PairsMap(list[..j]) && PairsMap(list[..j]).Keys <= KeysOf(list)
    ensures PairsMap(list[..j + 1]) == PairsMap(list[..j])[list[j].0 := list[j].1]
  {
    var front := list[..j];
    assert list[..j + 1][..j] == front;
    PairsMapKeys(front);
    forall k | k in KeysOf(front) ensures k in KeysOf(list) && k != list[j].0 {
      var l :| 0 <= l < j && front[l].0 == k;
      assert list[l] == front[l];
    }
  }

  /** What rehash needs of old cell i: distinct keys, all of them stored and none in the cells before. */
  lemma CellFacts<K(!new), V>(cells: seq<seq<(K, V)>>, hash: K -> int, m: map<K, V>, i: int)
    requires Holds(cells, hash, m) && 0 <= i < |cells|
    ensures DistinctKeys(cells[i]) && KeysOf(cells[i]) <= m.Keys && Below(m, hash, |cells|, i).Keys <= m.Keys
    ensures KeysOf(cells[i]) !! Below(m, hash, |cells|, i).Keys
    ensures Below(m, hash, |cells|, i + 1) == Below(m, hash, |cells|, i) + PairsMap(cells[i])
  {
    assert Homed(hash, cells[i], i, |cells|);
    BelowNext(cells, hash, m, i);
    PairsMapKeys(cells[i]);
  }

  // ---------------------------------------------------------------------------
  // The table
  // ---------------------------------------------------------------------------

  class HashTable<K(==,!new), V> {
    /** hashCode() of the keys. */
    const hash: K -> int
    var table: array<seq<(K, V)>>
    var capacity: int
    var numOfElements: int
    /** The key-value pairs stored. */
    ghost var contents: map<K, V>

    /**
     * The cells hold `contents`, `numOfElements` counts it, and at most one
     * pair beyond 70% of the capacity is in use.
     */
    ghost predicate Valid()
      reads this, table
    {
      capacity == table.Length && Loaded(table[..], hash, contents, numOfElements)
    }

    /** `new HashTable(initialCapacity)`: an empty table of that capacity. */
    constructor (hash: K -> int, initialCapacity: int)
      requires initialCapacity > 0
      ensures Valid() && fresh(table) && this.hash == hash && capacity == initialCapacity && contents == map[]
    {
      this.hash := hash;
      capacity := initialCapacity;
      table := new seq<(K, V)>[initialCapacity](_ => []);
      numOfElements := 0;
      contents := map[];
      new;
      EmptyHolds<K, V>(initialCapacity, hash);
      assert table[..] == seq(initialCapacity, _ => []);
    }

    /** `new HashTable()`: capacity 100. */
    constructor Default(hash: K -> int)
      ensures Valid() && fresh(table) && this.hash == hash && capacity == 100 && contents == map[]
    {
      this.hash := hash;
      capacity := 100;
      table := new seq<(K, V)>[100](_ => []);
      numOfElements := 0;
      contents := map[];
      new;
      EmptyHolds<K, V>(100, hash);
      assert table[..] == seq(100, _ => []);
    }

    /** scaledHashCode: the cell of a key, in [0, capacity) even for a negative hash code. */
    function ScaledHashCode(key: K): (r: int)
      reads this
      requires capacity > 0
      ensures 0 <= r < capacity && r == hash(key) % capacity
    {
      ScaledIsModulus(hash(key), capacity);
      Scaled(hash(key), capacity)
    }

    /** needsRehashing: more elements than 0.7 times the capacity; LoadFactorTest divides. */
    function NeedsRehashing(): (r: bool)
      reads this
      ensures r <==> numOfElements as real > 0.7 * capacity as real
    {
      Overloaded(numOfElements, capacity)
    }

    /** isEmpty: no pair is stored. */
    function IsEmpty(): (r: bool)
      reads this, table
      requires Valid()
      ensures r <==> contents == map[]
    {
      assert contents == map[] <==> |contents| == 0 by {
        if |contents| == 0 {
          assert forall k :: k !in contents;
        }
      }
      numOfElements == 0
    }

    /** size: the number of pairs stored. */
    function Size(): (r: int)
      reads this, table
      requires Valid()
      ensures r == |contents|
    {
      numOfElements
    }

    /** put after the rehash test: the pair in the key's cell is overwritten, or a new pair goes first. */
    method Store(key: K, value: V)
      requires Valid() && !Overloaded(numOfElements, capacity)
      modifies table, this`numOfElements, this`contents
      ensures Valid() && contents == old(contents)[key := value]
      ensures numOfElements == old(numOfElements) + if key in old(contents) then 0 else 1
    {
      var h := ScaledHashCode(key);
      StoredHolds(table[..], hash, contents, key, value);
      var existing := Find(table[h], key);
      if existing.Some? {
        table[h] := table[h][existing.value := (key, value)];
      } else {
        table[h] := [(key, value)] + table[h];
        numOfElements := numOfElements + 1;
      }
      contents := contents[key := value];
      assert table[..] == old(table[..])[h := Stored(old(table[h]), key, value)];
    }

    /**
     * put: a table more than 70% full is rehashed first; then the key's
     * value is replaced, or the pair added and counted.
     */
    method Put(key: K, value: V)
      requires Valid()
      modifies this, table
      ensures Valid() && contents == old(contents)[key := value]
      ensures numOfElements == old(numOfElements) + if key in old(contents) then 0 else 1
      ensures capacity == if old(NeedsRehashing()) then 2 * old(capacity) else old(capacity)
      ensures table == old(table) || fresh(table)
    {
      if NeedsRehashing() {
        Rehash();
      }
      Store(key, value);
    }

    /** remove: the key's pair is deleted and uncounted if present; otherwise nothing changes. */
    method Remove(key: K)
      requires Valid()
      modifies table, this`numOfElements, this`contents
      ensures Valid() && contents == old(contents) - {key}
      ensures numOfElements == old(numOfElements) - if key in old(contents) then 1 else 0
      ensures key !in old(contents) ==> table[..] == old(table[..])
    {
      var h := ScaledHashCode(key);
      UnlinkedHolds(table[..], hash, contents, key);
      var list := table[h];
      var node := Find(list, key);
      if node.Some? {
        table[h] := Unlinked(list, node.value);
        numOfElements := numOfElements - 1;
        contents := contents - {key};
        assert table[..] == old(table[..])[h := Unlinked(list, node.value)];
      } else {
        assert contents - {key} == contents;
      }
    }

    /**
     * rehash: the capacity doubles and every pair of the old cells, cell by
     * cell and in list order, is put into the new ones. The puts' own
     * rehash test never fires here, since at most 70% of the doubled
     * capacity is then in use.
     */
    method Rehash()
      requires Valid()
      modifies this
      ensures Valid() && fresh(table)
      ensures contents == old(contents) && capacity == 2 * old(capacity) && numOfElements == old(numOfElements)
    {
      var oldTable := table[..];
      Reset(capacity * 2);
      RehashCells(oldTable, old(contents));
    }

    /** The start of rehash: a fresh, empty table of the given capacity. */
    method Reset(newCapacity: int)
      requires newCapacity > 0
      modifies this
      ensures Valid() && fresh(table) && capacity == newCapacity && contents == map[]
    {
      capacity := newCapacity;
      table := new seq<(K, V)>[capacity](_ => []);
      numOfElements := 0;
      contents := map[];
      EmptyHolds<K, V>(capacity, hash);
      assert table[..] == seq(capacity, _ => []);
    }

    /** The outer loop of rehash: the old cells, in order, are put into this empty table. */
    method RehashCells(oldTable: seq<seq<(K, V)>>, ghost all: map<K, V>)
      requires Valid() && contents == map[] && Holds(oldTable, hash, all)
      requires capacity == 2 * |oldTable| && 10 * (|all| - 1) <= 7 * |oldTable|
      modifies table, this`numOfElements, this`contents
      ensures Valid() && contents == all
    {
      BelowEnds(all, hash, |oldTable|);
      for i := 0 to |oldTable|
        invariant Valid() && contents == Below(all, hash, |oldTable|, i)
      {
        var list := oldTable[i];
        CellFacts(oldTable, hash, all, i);
        RehashCell(list, all, |oldTable|);
      }
    }

    /** The inner loop of rehash: the pairs of one old cell, put in list order. */
    method RehashCell(list: seq<(K, V)>, ghost all: map<K, V>, ghost oldCapacity: int)
      requires Valid() && capacity == 2 * oldCapacity && 10 * (|all| - 1) <= 7 * oldCapacity
      requires DistinctKeys(list) && KeysOf(list) <= all.Keys && contents.Keys <= all.Keys && KeysOf(list) !! contents.Keys
      modifies table, this`numOfElements, this`contents
      ensures Valid() && contents == old(contents) + PairsMap(list)
    {
      ghost var below := contents;
      var j := 0;
      while j < |list|
        invariant 0 <= j <= |list| && Valid()
        invariant contents == below + PairsMap(list[..j])
      {
        var key, value := list[j].0, list[j].1;
        PrefixStep(list, j);
        assert key !in contents;
        SubsetNotLarger(contents.Keys, all.Keys - {key});
        Store(key, value);
        UpdateMerged(below, PairsMap(list[..j]), key, value);
        j := j + 1;
      }
      assert list[..j] == list;
    }

    /** The inner loop of putAll: the pairs of one collision list, put in list order. */
    method PutList(list: seq<(K, V)>)
      requires Valid()
      modifies this, table
      ensures Valid() && contents == old(contents) + PairsMap(list)
      ensures table == old(table) || fresh(table)
    {
      ghost var start := contents;
      var j := 0;
      while j < |list|
        invariant 0 <= j <= |list| && Valid()
        invariant contents == start + PairsMap(list[..j])
        invariant table == old(table) || fresh(table)
      {
        PairsMapExtended(list, j);
        Put(list[j].0, list[j].1);
        UpdateMerged(start, PairsMap(list[..j]), list[j].0, list[j].1);
        j := j + 1;
      }
      assert list[..j] == list;
    }

    /**
     * putAll: every pair of the other table is put here, cell by cell; the
     * scan stops once as many pairs were put as the other table holds. The
     * other table's cells are read as they stand, which putAll leaves alone.
     */
    method PutAll(other: HashTable<K, V>)
      requires Valid() && other.Valid() && other != this
      modifies this, table
      ensures Valid() && contents == old(contents) + old(other.contents)
    {
      var cells, total := other.table[..], other.numOfElements;
      ghost var m, h := other.contents, other.hash;
      ghost var start := contents;
      assert Holds(cells, h, m) && total == |m|;
      var numOfAdded := 0;
      var i := 0;
      var full := false;
      while i < |cells| && !full
        invariant 0 <= i <= |cells| && Valid()
        invariant table == old(table) || fresh(table)
        invariant numOfAdded == |Gathered(cells, i)| && contents == start + Gathered(cells, i)
        invariant (full || i == |cells|) ==> Gathered(cells, i) == m
      {
        PutList(cells[i]);
        JoinStep(start, cells, h, m, i);
        numOfAdded := numOfAdded + |cells[i]|;
        i := i + 1;
        // the break once every pair of the other table is put
        full := numOfAdded == total;
      }
    }

    /** The loop of copy: a fresh array holding the same cells. */
    method CopyCells() returns (copyTable: array<seq<(K, V)>>)
      requires Valid()
      ensures fresh(copyTable) && copyTable[..] == table[..] && copyTable.Length == capacity
    {
      copyTable := new seq<(K, V)>[capacity];
      for i := 0 to capacity
        invariant copyTable[..i] == table[..i]
      {
        copyTable[i] := table[i];
      }
      assert copyTable[..] == copyTable[..capacity];
    }

    /** clear: an empty table of the default capacity 100. */
    method Clear()
      modifies this
      ensures Valid() && fresh(table) && capacity == 100 && contents == map[]
    {
      numOfElements := 0;
      table := new seq<(K, V)>[100](_ => []);
      capacity := 100;
      contents := map[];
      EmptyHolds<K, V>(100, hash);
      assert table[..] == seq(100, _ => []);
    }
  }
}
