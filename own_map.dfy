/**
 * OwnMap.java (utils/structures): a map stored in a hash table, with the
 * set of its keys kept beside it. The Java class extends HashTable; the
 * model holds the table in a field.
 */
module Maps {
  import opened Wrappers
  import opened LinkedLists
  import opened Hashing
  import opened Sets

  class OwnMap<K(==,!new), V> {
    /** The inherited hash table. */
    const hashTable: HashTable<K, V>
    /** The set of all keys of the map. */
    var keySet: OwnSet<K>

    /** Both tables are valid, apart from each other, and the key set names exactly the stored keys. */
    ghost predicate Valid()
      reads this, hashTable, hashTable.table, keySet, keySet.hashTable, keySet.hashTable.table
    {
      && hashTable.Valid() && keySet.Valid()
      && keySet.Elements() == hashTable.contents.Keys
      && (keySet.hashTable as object) != hashTable && (keySet.hashTable.table as object) != hashTable.table
    }

    /** `new OwnMap()`: empty, capacity 100. */
    constructor (hash: K -> int)
      ensures Valid() && fresh(hashTable) && fresh(hashTable.table) && hashTable.contents == map[]
      ensures fresh(keySet) && fresh(keySet.hashTable) && fresh(keySet.hashTable.table)
      ensures hashTable.hash == hash && hashTable.capacity == 100
    {
      hashTable := new HashTable<K, V>.Default(hash);
      keySet := new OwnSet<K>(hash);
    }

    /** `new OwnMap(capacity)`; the key set gets the default capacity. */
    constructor WithCapacity(hash: K -> int, capacity: int)
      requires capacity > 0
      ensures Valid() && fresh(hashTable) && fresh(hashTable.table) && hashTable.contents == map[]
      ensures fresh(keySet) && fresh(keySet.hashTable) && fresh(keySet.hashTable.table)
      ensures hashTable.hash == hash && hashTable.capacity == capacity
    {
      hashTable := new HashTable<K, V>(hash, capacity);
      keySet := new OwnSet<K>(hash);
    }

    /** get: the value stored with the key, or none (null). */
    method Get(key: K) returns (r: Option<V>)
      requires Valid()
      ensures r == MapGet(hashTable.contents, key)
    {
      var hashCode := hashTable.ScaledHashCode(key);
      var list := hashTable.table[hashCode];
      var result := Find(list, key);
      if result.None? {
        return None;
      }
      return Some(list[result.value].1);
    }

    /** put: the table stores the pair, and the key set gains the key. */
    method Put(key: K, value: V)
      requires Valid()
      modifies hashTable, hashTable.table, keySet.hashTable, keySet.hashTable.table
      ensures Valid() && keySet == old(keySet)
      ensures hashTable.table == old(hashTable.table) || fresh(hashTable.table)
      ensures keySet.hashTable.table == old(keySet.hashTable.table) || fresh(keySet.hashTable.table)
      ensures hashTable.contents == old(hashTable.contents)[key := value]
      ensures hashTable.numOfElements == old(hashTable.numOfElements) + if key in old(hashTable.contents) then 0 else 1
    {
      hashTable.Put(key, value);
      keySet.Add(key);
    }

    /** remove: the pair leaves the table and the key leaves the key set. */
    method Remove(key: K)
      requires Valid()
      modifies hashTable.table, hashTable`numOfElements, hashTable`contents
      modifies keySet.hashTable.table, keySet.hashTable`numOfElements, keySet.hashTable`contents
      ensures Valid() && keySet == old(keySet)
      ensures hashTable.contents == old(hashTable.contents) - {key}
      ensures hashTable.numOfElements == old(hashTable.numOfElements) - if key in old(hashTable.contents) then 1 else 0
    {
      hashTable.Remove(key);
      keySet.Remove(key);
    }

    /** containsKey: asked of the key set. */
    method ContainsKey(key: K) returns (r: bool)
      requires Valid()
      ensures r <==> key in hashTable.contents
    {
      r := keySet.Contains(key);
    }

    /**
     * copy: a map of the same capacity and count whose fresh array holds
     * the same cells, with a copy of the key set.
     */
    method Copy() returns (result: OwnMap<K, V>)
      requires Valid()
      ensures fresh(result) && fresh(result.hashTable) && fresh(result.hashTable.table) && result.Valid()
      ensures fresh(result.keySet) && fresh(result.keySet.hashTable) && fresh(result.keySet.hashTable.table)
      ensures result.hashTable.contents == hashTable.contents && result.hashTable.numOfElements == hashTable.numOfElements
      ensures result.hashTable.capacity == hashTable.capacity
    {
      result := new OwnMap.WithCapacity(hashTable.hash, hashTable.capacity);
      result.hashTable.numOfElements := hashTable.numOfElements;
      var copyTable := hashTable.CopyCells();
      result.hashTable.table := copyTable;
      result.hashTable.contents := hashTable.contents;
      var keys := keySet.Copy();
      result.keySet := keys;
    }
  }

  /** get returns the value of the last put of a key, and containsKey holds for it. */
  method LastPutWins<K(==,!new), V>(hash: K -> int, key: K, first: V, second: V) returns (got: Option<V>, contained: bool)
    ensures got == Some(second) && contained
  {
    var m := new OwnMap<K, V>(hash);
    m.Put(key, first);
    m.Put(key, second);
    got := m.Get(key);
    contained := m.ContainsKey(key);
  }

  /** After remove, get finds nothing and the map is empty again. */
  method RemovedGone<K(==,!new), V>(hash: K -> int, key: K, value: V) returns (gone: Option<V>, contained: bool, size: int)
    ensures gone == None && !contained && size == 0
  {
    var m := new OwnMap<K, V>(hash);
    m.Put(key, value);
    m.Remove(key);
    gone := m.Get(key);
    contained := m.ContainsKey(key);
    size := m.hashTable.Size();
  }
}
