/**
 * OwnStack.java: a stack built from linked nodes. The model keeps the nodes'
 * data as a sequence whose last element is the top.
 */
module Stack {
  import opened Wrappers

  class OwnStack<T> {
    /** The data of the nodes from the bottom to `top`. */
    var elems: seq<T>

    constructor ()
      ensures elems == []
    {
      elems := [];
    }

    method Push(data: T)
      modifies this
      ensures elems == old(elems) + [data]
    {
      elems := elems + [data];
    }

    function IsEmpty(): (r: bool)
      reads this
      ensures r <==> |elems| == 0
    {
      elems == []
    }

    /** Removes and returns the top; an empty stack raises NoSuchElementException. */
    method Pop() returns (r: Result<T>)
      modifies this
      ensures old(elems) == [] ==> r == Err(NoSuchElement) && elems == old(elems)
      ensures old(elems) != [] ==> r == Ok(old(elems)[|old(elems)| - 1]) && elems == old(elems)[..|old(elems)| - 1]
      ensures old(elems) == elems + (if r.Ok? then [r.value] else [])
    {
      if elems == [] {
        r := Err(NoSuchElement);
      } else {
        r := Ok(elems[|elems| - 1]);
        elems := elems[..|elems| - 1];
      }
    }

    /** The top without removing it; null (None) when empty. */
    method Peek() returns (r: Option<T>)
      ensures r.None? <==> |elems| == 0
      ensures r.Some? ==> |elems| > 0 && r.value == elems[|elems| - 1]
    {
      if elems == [] {
        r := None;
      } else {
        r := Some(elems[|elems| - 1]);
      }
    }
  }

  /** Two pushes come back in reverse order, after which the stack is empty again and pop throws. */
  method LastInFirstOut<T>(x: T, y: T) returns (first: Result<T>, second: Result<T>, third: Result<T>, empty: bool)
    ensures first == Ok(y) && second == Ok(x) && third == Err(NoSuchElement) && empty
  {
    var s := new OwnStack<T>();
    s.Push(x);
    s.Push(y);
    var top := s.Peek();
    assert top == Some(y);
    first := s.Pop();
    second := s.Pop();
    empty := s.IsEmpty();
    third := s.Pop();
  }
}
