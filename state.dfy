/**
 * State.java: an automaton state identified by its integer id alone.
 */
module StateModel {
  import Decimal
  import Wrappers

  class State {
    var id: int

    constructor (id: int)
      ensures this.id == id
    {
      this.id := id;
    }

    function GetId(): int
      reads this
    {
      id
    }

    method SetId(id: int)
      modifies this
      ensures this.id == id
    {
      this.id := id;
    }

    /** Equality with an arbitrary reference: only another State with the same id is equal. */
    function Equals(o: Ref): (r: bool)
      reads this, o.Objects()
      ensures r <==> o.StateRef? && o.state.id == id
      ensures o.Null? || o.Other? ==> !r
    {
      match o
      case Null => false
      case Other => false
      case StateRef(s) => id == s.GetId()
    }

    /** Integer.hashCode(id), which is the id itself. */
    function HashCode(): int
      reads this
    {
      id
    }

    /** The decimal text of the id. */
    function ToString(): (r: string)
      reads this
      ensures Decimal.IsJavaInt(id) ==> Decimal.ParseInt(r) == Wrappers.Ok(id)
    {
      assert Decimal.IsJavaInt(id) ==> Decimal.ParseInt(Decimal.IntToString(id)) == Wrappers.Ok(id) by {
        if Decimal.IsJavaInt(id) {
          Decimal.IntToStringRoundTrip(id);
        }
      }
      Decimal.IntToString(id)
    }
  }

  /** What `equals(Object o)` can be handed: null, a State, or an object of another class. */
  datatype Ref = Null | StateRef(state: State) | Other
  {
    function Objects(): set<object>
    {
      if StateRef? then {state} else {}
    }
  }

  /** Equal states have equal hash codes. */
  lemma EqualStatesHashAlike(a: State, b: State)
    requires a.Equals(StateRef(b))
    ensures a.HashCode() == b.HashCode()
  {
  }

  /** State equality is an equivalence relation on states. */
  lemma EqualsIsEquivalence(a: State, b: State, c: State)
    ensures a.Equals(StateRef(a))
    ensures a.Equals(StateRef(b)) == b.Equals(StateRef(a))
    ensures a.Equals(StateRef(b)) && b.Equals(StateRef(c)) ==> a.Equals(StateRef(c))
  {
  }

  /** Two states print alike exactly when they are equal. */
  lemma ToStringIdentifies(a: State, b: State)
    ensures a.ToString() == b.ToString() <==> a.Equals(StateRef(b))
  {
    Decimal.IntToStringInjective(a.id, b.id);
  }

  /** setId changes what both equality and hashing see. */
  method SetIdRetargetsEquality(s: State, t: State, n: int)
    requires s != t
    modifies s
    ensures s.Equals(StateRef(t)) <==> n == t.id
    ensures s.HashCode() == n && s.ToString() == Decimal.IntToString(n)
  {
    s.SetId(n);
  }
}
