/**
 * OwnSet.java: a set stored in a hash table, each element as a key with the
 * value null. The Java class extends HashTable; the model holds the table
 * in a field and stores the unit value `()` for null.
 */
module Sets {
  import opened LinkedLists
  import opened Hashing
  import opened Iteration

  class OwnSet<T(==,!new)> {
    /** The inherited hash table. */
    const hashTable: HashTable<T, ()>

    ghost predicate Valid()
      reads this, hashTable, hashTable.table
    {
      hashTable.Valid()
    }

    /** The elements: the keys the table stores. */
    ghost function Elements(): set<T>
      reads this, hashTable
    {
      hashTable.contents.Keys
    }

    /** `new OwnSet()`: empty, capacity 100. */
    constructor (hash: T -> int)
      ensures Valid() && fresh(hashTable) && fresh(hashTable.table) && Elements() == {}
      ensures hashTable.hash == hash && hashTable.capacity == 100
    {
      hashTable := new HashTable<T, ()>.Default(hash);
    }

    /** `new OwnSet(capacity)`. */
    constructor WithCapacity(hash: T -> int, capacity: int)
      requires capacity > 0
      ensures Valid() && fresh(hashTable) && fresh(hashTable.table) && Elements() == {}
      ensures hashTable.hash == hash && hashTable.capacity == capacity
    {
      hashTable := new HashTable<T, ()>(hash, capacity);
    }

    /** add: the element is stored; one already there leaves the size as it was. */
    method Add(element: T)
      requires Valid()
      modifies hashTable, hashTable.table
      ensures Valid() && Elements() == old(Elements()) + {element}
      ensures hashTable.numOfElements == old(hashTable.numOfElements) + if element in old(Elements()) then 0 else 1
      ensures hashTable.table == old(hashTable.table) || fresh(hashTable.table)
    {
      hashTable.Put(element, ());
    }

    /** addAll: this set becomes the union of itself and the other. */
    method AddAll(addSet: OwnSet<T>)
      requires Valid() && addSet.Valid() && addSet.hashTable != hashTable
      modifies hashTable, hashTable.table
      ensures Valid() && Elements() == old(Elements()) + old(addSet.Elements())
    {
      hashTable.PutAll(addSet.hashTable);
    }

    /** contains: the element's cell lists it. */
    method Contains(element: T) returns (r: bool)
      requires Valid()
      ensures r <==> element in Elements()
    {
      var hash := hashTable.ScaledHashCode(element);
      var list := hashTable.table[hash];
      assert Lookup(list, element) == MapGet(hashTable.contents, element);
      r := Find(list, element).Some?;
    }

    /** remove, inherited from the table: the element is gone, and the size drops only if it was there. */
    method Remove(element: T)
      requires Valid()
      modifies hashTable.table, hashTable`numOfElements, hashTable`contents
      ensures Valid() && Elements() == old(Elements()) - {element}
      ensures hashTable.numOfElements == old(hashTable.numOfElements) - if element in old(Elements()) then 1 else 0
    {
      hashTable.Remove(element);
    }

    /** iterator: a snapshot of the elements, each once, in the reverse of the cell scan. */
    method Iterator() returns (it: SetIterator<T>)
      requires Valid()
      ensures fresh(it) && it.Valid() && it.current == 0
      ensures it.elements == Reversed(ScanKeys(hashTable.table[..]))
      ensures multiset(it.elements) == multiset(Elements())
    {
      it := new SetIterator(hashTable.table);
      ScannedAll(hashTable.table[..], hashTable.hash, hashTable.contents);
    }

    /**
     * copy, which OwnMap.copy calls: a set of the same capacity whose fresh
     * array holds the same cells, in the form of OwnMap.copy.
     */
    method Copy() returns (result: OwnSet<T>)
      requires Valid()
      ensures fresh(result) && fresh(result.hashTable) && fresh(result.hashTable.table) && result.Valid()
      ensures result.Elements() == Elements() && result.hashTable.numOfElements == hashTable.numOfElements
      ensures result.hashTable.capacity == hashTable.capacity
    {
      result := new OwnSet.WithCapacity(hashTable.hash, hashTable.capacity);
      var copyTable := hashTable.CopyCells();
      result.hashTable.table := copyTable;
      result.hashTable.numOfElements := hashTable.numOfElements;
      result.hashTable.contents := hashTable.contents;
    }
  }

  /** After add, contains holds; a second add of the same element keeps the size. */
  method AddThenContains<T(==,!new)>(hash: T -> int, element: T) returns (found: bool, size: int)
    ensures found && size == 1
  {
    var s := new OwnSet<T>(hash);
    s.Add(element);
    s.Add(element);
    found := s.Contains(element);
    size := s.hashTable.Size();
  }
}
