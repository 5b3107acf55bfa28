/**
 * NFA.java: an automaton with a start state, a set of accepting states, an
 * `inverted` flag, a DFA flag and a cache of simulation steps.
 */
module NFAModel {
  import opened Automaton

  /** The fields NFA.equals compares: everything but the transitions, the caching flag and the cache. */
  datatype Key = Key(inverted: bool, isDFA: bool, start: StateId, accepting: set<StateId>)

  type StepCache = map<set<StateId>, map<char, set<StateId>>>

  /** Every cached step (S, c) -> T is the closure of S's successors on c. */
  ghost predicate CacheSound(g: Graph, cache: StepCache)
  {
    WellFormed(g) && forall S, c :: S in cache && c in cache[S] ==> cache[S][c] == Advance(g, S, c)
  }

  /**
   * What one call of the two-argument closure establishes: `closed` lies
   * between `states` and their closure, everything seen is now visited, and
   * every state this call marked visited has its `'#'` successors in `closed`.
   */
  ghost predicate ClosureSweep(g: Graph, states: set<StateId>, visited: set<StateId>,
                               closed: set<StateId>, visitedAfter: set<StateId>)
    requires WellFormed(g)
  {
    && states <= closed <= Closure(g, states)
    && visited + states <= visitedAfter && closed <= visitedAfter
    && forall v :: v in visitedAfter - visited ==> Next(g, v, Epsilon) <= closed
  }

  /** A sweep that found something new visited a state of the graph it had not visited. */
  lemma SweepShrinks(g: Graph, states: set<StateId>, visited: set<StateId>, newStates: set<StateId>)
    requires WellFormed(g) && newStates == Step(g, states - visited, Epsilon) && newStates != {}
    ensures |g.Keys - (visited + states)| < |g.Keys - visited|
  {
    NonEmptyHasMember(newStates);
    var t :| t in newStates;
    var u :| u in states - visited && t in Next(g, u, Epsilon);
    assert u in g.Keys - visited && u !in g.Keys - (visited + states);
    StrictSubsetCard(g.Keys - (visited + states), g.Keys - visited);
  }

  /** The recursive call's sweep extends to the caller's. */
  lemma SweepCombines(g: Graph, states: set<StateId>, visited: set<StateId>, newStates: set<StateId>,
                      sub: set<StateId>, vis2: set<StateId>)
    requires WellFormed(g) && newStates == Step(g, states - visited, Epsilon)
    requires ClosureSweep(g, newStates, visited + states, sub, vis2)
    ensures ClosureSweep(g, states, visited, states + sub, vis2)
  {
    var C := Closure(g, states);
    StepContainsNext(g, states - visited, Epsilon);
    assert newStates <= C by {
      forall t | t in newStates ensures t in C {
        var s :| s in states - visited && t in Next(g, s, Epsilon);
      }
    }
    ClosureLeast(g, newStates, C);
    forall v | v in vis2 - visited ensures Next(g, v, Epsilon) <= states + sub {
      if v in states - visited {
        assert Next(g, v, Epsilon) <= newStates;
      }
    }
  }

  /** A sweep that found nothing new is already complete. */
  lemma SweepEnds(g: Graph, states: set<StateId>, visited: set<StateId>)
    requires WellFormed(g) && Step(g, states - visited, Epsilon) == {}
    ensures ClosureSweep(g, states, visited, states, visited + states)
  {
    StepContainsNext(g, states - visited, Epsilon);
  }

  /** Sweeping one more state s of rest: it adds its '#' successors unless it was visited before. */
  lemma SweepOne(g: Graph, states: set<StateId>, rest: set<StateId>, visited: set<StateId>, s: StateId,
                 newStates: set<StateId>)
    requires s in rest && rest <= states && newStates == Step(g, (states - rest) - visited, Epsilon)
    ensures visited + (states - (rest - {s})) == (visited + (states - rest)) + {s}
    ensures (if s !in visited + (states - rest) then newStates + Next(g, s, Epsilon) else newStates)
            == Step(g, (states - (rest - {s})) - visited, Epsilon)
  {
    var done := states - rest;
    TakeOne(states, rest, s);
    if s !in visited {
      StepAddOne(g, done - visited, s, Epsilon);
      assert (done + {s}) - visited == (done - visited) + {s};
    } else {
      assert (done + {s}) - visited == done - visited;
    }
  }

  class NFA {
    var cache: StepCache
    var cacheEnabled: bool
    var start: StateId
    var accepting: set<StateId>
    var inverted: bool
    var isDFA: bool
    /** The successor sets held by the states of this automaton. */
    var graph: Graph

    ghost predicate Valid()
      reads this
    {
      CacheSound(graph, cache)
    }

    /** `new NFA()`: the lone state 0 and no accepting states. */
    constructor ()
      ensures Valid() && graph == map[] && start == 0 && accepting == {}
      ensures !inverted && !isDFA && cacheEnabled && cache == map[]
    {
      graph, start, accepting := map[], 0, {};
      inverted, isDFA, cacheEnabled, cache := false, false, true, map[];
    }

    /** `new NFA(startingState, acceptingStates)`: not a DFA, caching on. */
    constructor Of(g: Graph, s: StateId, acc: set<StateId>)
      requires WellFormed(g)
      ensures Valid() && graph == g && start == s && accepting == acc
      ensures !inverted && !isDFA && cacheEnabled && cache == map[]
    {
      graph, start, accepting := g, s, acc;
      inverted, isDFA, cacheEnabled, cache := false, false, true, map[];
    }

    /** `new NFA(startingState, acceptingStates, isDFA)`: caching on. */
    constructor OfKind(g: Graph, s: StateId, acc: set<StateId>, dfa: bool)
      requires WellFormed(g)
      ensures Valid() && graph == g && start == s && accepting == acc
      ensures !inverted && isDFA == dfa && cacheEnabled && cache == map[]
    {
      graph, start, accepting := g, s, acc;
      inverted, isDFA, cacheEnabled, cache := false, dfa, true, map[];
    }

    /** The four-argument constructor: both flags given, never inverted. */
    constructor Full(g: Graph, s: StateId, acc: set<StateId>, dfa: bool, caching: bool)
      requires WellFormed(g)
      ensures Valid() && graph == g && start == s && accepting == acc
      ensures !inverted && isDFA == dfa && cacheEnabled == caching && cache == map[]
    {
      graph, start, accepting := g, s, acc;
      inverted, isDFA, cacheEnabled, cache := false, dfa, caching, map[];
    }

    function GetKey(): Key
      reads this
    {
      Key(inverted, isDFA, start, accepting)
    }

    method SetStartingState(s: StateId)
      modifies this
      ensures start == s
      ensures graph == old(graph) && accepting == old(accepting) && cache == old(cache)
      ensures inverted == old(inverted) && isDFA == old(isDFA) && cacheEnabled == old(cacheEnabled)
    {
      start := s;
    }

    method SetAcceptingStates(acc: set<StateId>)
      modifies this
      ensures accepting == acc
      ensures graph == old(graph) && start == old(start) && cache == old(cache)
      ensures inverted == old(inverted) && isDFA == old(isDFA) && cacheEnabled == old(cacheEnabled)
    {
      accepting := acc;
    }

    /**
     * Stands for the edges the generators add to this automaton's State
     * objects. Only done to automata that have not simulated anything yet.
     */
    method SetTransitions(g: Graph)
      requires WellFormed(g) && cache == map[]
      modifies this
      ensures Valid() && graph == g
      ensures start == old(start) && accepting == old(accepting) && cache == old(cache)
      ensures inverted == old(inverted) && isDFA == old(isDFA) && cacheEnabled == old(cacheEnabled)
    {
      graph := g;
    }

    method EnableCaching()
      modifies this
      ensures cacheEnabled
      ensures graph == old(graph) && start == old(start) && accepting == old(accepting) && cache == old(cache)
      ensures inverted == old(inverted) && isDFA == old(isDFA)
    {
      cacheEnabled := true;
    }

    method DisableCaching()
      modifies this
      ensures !cacheEnabled
      ensures graph == old(graph) && start == old(start) && accepting == old(accepting) && cache == old(cache)
      ensures inverted == old(inverted) && isDFA == old(isDFA)
    {
      cacheEnabled := false;
    }

    /** Marking an automaton as a DFA turns caching off; unmarking turns it on. */
    method SetIsDFA(dfa: bool)
      modifies this
      ensures isDFA == dfa && cacheEnabled == !dfa
      ensures graph == old(graph) && start == old(start) && accepting == old(accepting) && cache == old(cache)
      ensures inverted == old(inverted)
    {
      isDFA := dfa;
      if dfa {
        DisableCaching();
      } else {
        EnableCaching();
      }
    }

    method Invert()
      modifies this
      ensures inverted == !old(inverted)
      ensures graph == old(graph) && start == old(start) && accepting == old(accepting) && cache == old(cache)
      ensures isDFA == old(isDFA) && cacheEnabled == old(cacheEnabled)
    {
      inverted := !inverted;
    }

    /** True iff some state of `states` is accepting, read through `inverted`. */
    method ContainsAcceptingState(states: set<StateId>) returns (r: bool)
      ensures r == ContainsAccepting(states, accepting, inverted)
    {
      var rest := states;
      while rest != {}
        invariant rest <= states
        invariant !ContainsAccepting(states - rest, accepting, inverted)
        decreases |rest|
      {
        NonEmptyHasMember(rest);
        var s :| s in rest;
        if inverted != (s in accepting) {
          return true;
        }
        rest := rest - {s};
      }
      assert states - rest == states;
      return false;
    }

    /** The successors on c of every state of `states` (the inner loop of `accepts`). */
    method Successors(states: set<StateId>, c: char) returns (next: set<StateId>)
      ensures next == Step(graph, states, c)
    {
      next := {};
      var rest := states;
      while rest != {}
        invariant rest <= states
        invariant next == Step(graph, states - rest, c)
        decreases |rest|
      {
        NonEmptyHasMember(rest);
        var s :| s in rest;
        StepAddOne(graph, states - rest, s, c);
        TakeOne(states, rest, s);
        next := next + Next(graph, s, c);
        rest := rest - {s};
      }
      assert states - rest == states;
    }

    /**
     * The sweep of the two-argument closure: every state of `states` not yet
     * visited is marked visited and contributes its `'#'` successors.
     */
    method UnvisitedEpsilonSuccessors(states: set<StateId>, visited: set<StateId>)
      returns (newStates: set<StateId>, vis: set<StateId>)
      ensures vis == visited + states
      ensures newStates == Step(graph, states - visited, Epsilon)
    {
      newStates, vis := {}, visited;
      var rest := states;
      while rest != {}
        invariant rest <= states
        invariant vis == visited + (states - rest)
        invariant newStates == Step(graph, (states - rest) - visited, Epsilon)
        decreases |rest|
      {
        NonEmptyHasMember(rest);
        var s :| s in rest;
        SweepOne(graph, states, rest, visited, s, newStates);
        if s !in vis {
          newStates := newStates + Next(graph, s, Epsilon);
        }
        vis := vis + {s};
        rest := rest - {s};
      }
      assert states - rest == states;
    }

    /**
     * The two-argument closure: follows `'#'` edges from the states not yet
     * visited, recursing on what they reach. `closed` is `states` with what
     * was reached added, `visitedAfter` the grown visited set.
     */
    method AddEpsilonTransitionsFrom(states: set<StateId>, visited: set<StateId>)
      returns (closed: set<StateId>, visitedAfter: set<StateId>)
      requires Valid()
      ensures ClosureSweep(graph, states, visited, closed, visitedAfter)
      decreases |graph.Keys - visited|
    {
      var newStates, vis := UnvisitedEpsilonSuccessors(states, visited);
      if |newStates| > 0 {
        SweepShrinks(graph, states, visited, newStates);
        var sub, vis2 := AddEpsilonTransitionsFrom(newStates, vis);
        SweepCombines(graph, states, visited, newStates, sub, vis2);
        closed := states + sub;
        visitedAfter := vis2;
      } else {
        SweepEnds(graph, states, visited);
        closed := states;
        visitedAfter := vis;
      }
    }

    /** `addEpsilonTransitionsOfStates(states)`: the epsilon-closure of `states`. */
    method AddEpsilonTransitionsOfStates(states: set<StateId>) returns (closed: set<StateId>)
      requires Valid()
      ensures closed == Closure(graph, states)
    {
      var visited;
      closed, visited := AddEpsilonTransitionsFrom(states, {});
      ClosureUnique(graph, states, closed);
    }

    /** Records one simulation step in the cache, creating its row if need be. */
    method Remember(current: set<StateId>, symbol: char, next: set<StateId>)
      requires Valid() && next == Advance(graph, current, symbol)
      modifies this
      ensures Valid()
      ensures cache == old(cache)[current := (if current in old(cache) then old(cache)[current] else map[])[symbol := next]]
      ensures graph == old(graph) && start == old(start) && accepting == old(accepting)
      ensures inverted == old(inverted) && isDFA == old(isDFA) && cacheEnabled == old(cacheEnabled)
    {
      var row := if current in cache then cache[current] else map[];
      cache := cache[current := row[symbol := next]];
    }

    /** Simulates the automaton on `test`; answers as if there were no cache. */
    method Accepts(test: string) returns (r: bool)
      requires Valid()
      modifies this
      ensures Valid()
      ensures r == AcceptsSpec(graph, start, accepting, inverted, test)
      ensures graph == old(graph) && start == old(start) && accepting == old(accepting)
      ensures inverted == old(inverted) && isDFA == old(isDFA) && cacheEnabled == old(cacheEnabled)
      ensures !cacheEnabled ==> cache == old(cache)
      ensures old(cache).Keys <= cache.Keys
    {
      var current := AddEpsilonTransitionsOfStates({start});
      var i := 0;
      while i < |test|
        invariant 0 <= i <= |test|
        invariant Valid()
        invariant graph == old(graph) && start == old(start) && accepting == old(accepting)
        invariant inverted == old(inverted) && isDFA == old(isDFA) && cacheEnabled == old(cacheEnabled)
        invariant !cacheEnabled ==> cache == old(cache)
        invariant old(cache).Keys <= cache.Keys
        invariant AcceptsSpec(graph, start, accepting, inverted, test) == Run(graph, current, test[i..], accepting, inverted)
        decreases |test| - i
      {
        var symbol := test[i];
        assert test[i..][0] == symbol && test[i..][1..] == test[i + 1..];
        RunStep(graph, current, test[i..], accepting, inverted);
        if cacheEnabled && current in cache && symbol in cache[current] {
          current := cache[current][symbol];
          i := i + 1;
          continue;
        }
        var next := Successors(current, symbol);
        next := AddEpsilonTransitionsOfStates(next);
        if cacheEnabled {
          Remember(current, symbol, next);
        }
        current := next;
        if current == {} {
          return false;
        }
        i := i + 1;
      }
      r := ContainsAcceptingState(current);
    }

    /**
     * NFA.equals: the same flags, the same start id and accepting sets that
     * OwnSet.equals finds equal. This takes domain.OwnSet's equals, which
     * compares the collision lists of the two tables by reference, and
     * never-used cells are null, so two accepting sets are equal when they
     * are one object or both empty. The accepting sets of distinct NFA
     * objects are distinct OwnSet objects here.
     */
    function Equals(o: NFA?): (r: bool)
      reads this, o
      ensures r <==> o == this || (o != null && GetKey() == o.GetKey() && accepting == {})
    {
      o == this
      || (o != null && inverted == o.inverted && isDFA == o.isDFA && start == o.start
          && accepting == {} && o.accepting == {})
    }
  }

  /** Inverting twice restores the automaton's flags. */
  method InvertTwice(a: NFA)
    modifies a
    ensures a.inverted == old(a.inverted)
    ensures a.GetKey() == old(a.GetKey()) && a.graph == old(a.graph) && a.cache == old(a.cache)
  {
    a.Invert();
    a.Invert();
  }

  /** NFA equality is an equivalence; it ignores transitions and caches. */
  lemma EqualsIsEquivalence(a: NFA, b: NFA, c: NFA)
    ensures a.Equals(a)
    ensures a.Equals(b) == b.Equals(a)
    ensures a.Equals(b) && b.Equals(c) ==> a.Equals(c)
  {
  }

  /** An automaton with accepting states equals no other NFA object, whatever their flags and ids. */
  lemma AcceptingEqualsOnlyItself(a: NFA, b: NFA)
    requires a.accepting != {} && a != b
    ensures !a.Equals(b) && !b.Equals(a)
  {
  }

  /** Two automata without accepting states are equal exactly when their flags and start ids agree. */
  lemma EmptyAcceptingEqual(a: NFA, b: NFA)
    requires a.accepting == {} && b.accepting == {}
    ensures a.Equals(b) <==> a.inverted == b.inverted && a.isDFA == b.isDFA && a.start == b.start
  {
  }

  /** A lone start state that is accepting accepts the empty input and nothing else of length one. */
  lemma OneStateAutomaton(c: char)
    ensures AcceptsSpec(map[0 := NoEdges], 0, {0}, false, "")
    ensures !AcceptsSpec(map[0 := NoEdges], 0, {0}, false, [c])
  {
    var g: Graph := map[0 := NoEdges];
    assert EpsilonClosed(g, {0});
    ClosureLeast(g, {0}, {0});
    assert Closure(g, {0}) == {0};
    assert Step(g, {0}, c) == {} by {
      StepSingleton(g, 0, c);
    }
    ClosureEmpty(g);
  }

  /** One `'0'` edge from the start to an accepting state: `"0"` is accepted, `"1"` is not. */
  lemma OneEdgeAutomaton()
    ensures AcceptsSpec(map[0 := Edges(map['0' := {1}], {}), 1 := NoEdges], 0, {1}, false, "0")
    ensures !AcceptsSpec(map[0 := Edges(map['1' := {1}], {}), 1 := NoEdges], 0, {1}, false, "0")
  {
    var g: Graph := map[0 := Edges(map['0' := {1}], {}), 1 := NoEdges];
    var h: Graph := map[0 := Edges(map['1' := {1}], {}), 1 := NoEdges];
    assert EpsilonClosed(g, {0}) && EpsilonClosed(g, {1});
    ClosureLeast(g, {0}, {0});
    ClosureLeast(g, {1}, {1});
    StepSingleton(g, 0, '0');
    assert Advance(g, {0}, '0') == {1};
    assert EpsilonClosed(h, {0});
    ClosureLeast(h, {0}, {0});
    StepSingleton(h, 0, '0');
    ClosureEmpty(h);
    assert Advance(h, {0}, '0') == {};
  }
}
