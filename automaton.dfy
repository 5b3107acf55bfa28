/**
 * The transition structure behind NFA.java and State.java, as values.
 *
 * A State object in the source carries its own successor sets, one per
 * symbol, and `'#'` labels the moves that read nothing. Here the successor
 * sets of all states of an automaton form one map from state id to edges.
 * Wildcard edges (added by `addStatesReachableWithAnyCharacter`) form a
 * separate set that every symbol other than `'#'` follows.
 */
module Automaton {

  type StateId = int

  /** The label of the moves that read no input. */
  const Epsilon: char := '#'

  datatype Edges = Edges(labelled: map<char, set<StateId>>, wildcard: set<StateId>)

  const NoEdges: Edges := Edges(map[], {})

  type Graph = map<StateId, Edges>

  /** The states s moves to on symbol c (`getNextStatesForSymbol`). */
  function Next(g: Graph, s: StateId, c: char): set<StateId>
  {
    if s !in g then {}
    else (if c in g[s].labelled then g[s].labelled[c] else {}) + (if c != Epsilon then g[s].wildcard else {})
  }

  /** Every edge leads to a state that has an entry of its own. */
  predicate WellFormed(g: Graph)
  {
    forall s :: s in g ==> g[s].wildcard <= g.Keys && forall c :: c in g[s].labelled ==> g[s].labelled[c] <= g.Keys
  }

  lemma NextInGraph(g: Graph, s: StateId, c: char)
    requires WellFormed(g)
    ensures Next(g, s, c) <= g.Keys
  {
  }

  /** The union of the successors on c of every state of S. */
  function Step(g: Graph, S: set<StateId>, c: char): set<StateId>
  {
    set s, t | s in S && t in Next(g, s, c) :: t
  }

  lemma StepInGraph(g: Graph, S: set<StateId>, c: char)
    requires WellFormed(g)
    ensures Step(g, S, c) <= g.Keys
  {
    forall t | t in Step(g, S, c) ensures t in g.Keys {
      var s :| s in S && t in Next(g, s, c);
      NextInGraph(g, s, c);
    }
  }

  lemma StepUnion(g: Graph, A: set<StateId>, B: set<StateId>, c: char)
    ensures Step(g, A + B, c) == Step(g, A, c) + Step(g, B, c)
  {
  }

  /** Every state of S contributes all its successors to the step. */
  lemma StepContainsNext(g: Graph, S: set<StateId>, c: char)
    ensures forall s :: s in S ==> Next(g, s, c) <= Step(g, S, c)
  {
    forall s, t | s in S && t in Next(g, s, c) ensures t in Step(g, S, c) {
    }
  }

  lemma StepSingleton(g: Graph, s: StateId, c: char)
    ensures Step(g, {s}, c) == Next(g, s, c)
  {
    StepContainsNext(g, {s}, c);
  }

  /** One more state adds its own successors to the step. */
  lemma StepAddOne(g: Graph, done: set<StateId>, s: StateId, c: char)
    ensures Step(g, done + {s}, c) == Step(g, done, c) + Next(g, s, c)
  {
    StepSingleton(g, s, c);
    StepUnion(g, done, {s}, c);
  }

  /** Taking s out of the states still to visit moves it to those done. */
  lemma TakeOne(all: set<StateId>, rest: set<StateId>, s: StateId)
    requires s in rest && rest <= all
    ensures all - (rest - {s}) == (all - rest) + {s} && s !in all - rest
  {
  }

  lemma StepEmpty(g: Graph, c: char)
    ensures Step(g, {}, c) == {}
  {
  }

  /** `addNextStateForSymbol(c, t)`: t joins the successors on c. */
  function AddNext(e: Edges, c: char, t: StateId): (r: Edges)
    ensures r.wildcard == e.wildcard && r.labelled.Keys == e.labelled.Keys + {c}
    ensures t in r.labelled[c] && forall d :: d != c && d in e.labelled ==> r.labelled[d] == e.labelled[d]
  {
    var prior := if c in e.labelled then e.labelled[c] else {};
    Edges(e.labelled[c := prior + {t}], e.wildcard)
  }

  /** `addStatesReachableWithAnyCharacter(t)`: t joins the wildcard successors. */
  function AddWildcard(e: Edges, t: StateId): (r: Edges)
    ensures r.labelled == e.labelled && r.wildcard == e.wildcard + {t}
  {
    Edges(e.labelled, e.wildcard + {t})
  }

  /** No move that reads nothing leaves R. */
  predicate EpsilonClosed(g: Graph, R: set<StateId>)
  {
    forall s :: s in R ==> Next(g, s, Epsilon) <= R
  }

  lemma StrictSubsetCard<T>(A: set<T>, B: set<T>)
    requires A < B
    ensures |A| < |B|
  {
    assert B == A + (B - A) && A * (B - A) == {};
  }

  lemma SubsetCard<T>(A: set<T>, B: set<T>)
    requires A <= B
    ensures |A| <= |B|
  {
    assert B == A + (B - A);
  }

  /**
   * The epsilon-closure of S: the states reachable from S by moves that read
   * nothing. Computed by adding successors until nothing new appears.
   */
  function Closure(g: Graph, S: set<StateId>): (r: set<StateId>)
    requires WellFormed(g)
    ensures S <= r && EpsilonClosed(g, r)
    ensures r <= S + g.Keys
    decreases |g.Keys - S|
  {
    var T := Step(g, S, Epsilon);
    StepContainsNext(g, S, Epsilon);
    if T <= S then
      S
    else
      StepInGraph(g, S, Epsilon);
      StrictSubsetCard(g.Keys - (S + T), g.Keys - S);
      Closure(g, S + T)
  }

  /** The closure is the least epsilon-closed superset. */
  lemma {:induction false} ClosureLeast(g: Graph, S: set<StateId>, R: set<StateId>)
    requires WellFormed(g) && S <= R && EpsilonClosed(g, R)
    ensures Closure(g, S) <= R
    decreases |g.Keys - S|
  {
    var T := Step(g, S, Epsilon);
    if !(T <= S) {
      assert T <= R by {
        forall t | t in T ensures t in R {
          var s :| s in S && t in Next(g, s, Epsilon);
        }
      }
      StepInGraph(g, S, Epsilon);
      StrictSubsetCard(g.Keys - (S + T), g.Keys - S);
      ClosureLeast(g, S + T, R);
    }
  }

  /** A set between S and Closure(S) that is epsilon-closed is the closure itself. */
  lemma ClosureUnique(g: Graph, S: set<StateId>, R: set<StateId>)
    requires WellFormed(g) && S <= R && EpsilonClosed(g, R) && R <= Closure(g, S)
    ensures R == Closure(g, S)
  {
    ClosureLeast(g, S, R);
  }

  lemma ClosureMonotone(g: Graph, A: set<StateId>, B: set<StateId>)
    requires WellFormed(g) && A <= B
    ensures Closure(g, A) <= Closure(g, B)
  {
    ClosureLeast(g, A, Closure(g, B));
  }

  /** The closure of a union is the union of the closures. */
  lemma ClosureUnion(g: Graph, A: set<StateId>, B: set<StateId>)
    requires WellFormed(g)
    ensures Closure(g, A + B) == Closure(g, A) + Closure(g, B)
  {
    ClosureLeast(g, A + B, Closure(g, A) + Closure(g, B));
    ClosureMonotone(g, A, A + B);
    ClosureMonotone(g, B, A + B);
  }

  lemma ClosureIdempotent(g: Graph, S: set<StateId>)
    requires WellFormed(g)
    ensures Closure(g, Closure(g, S)) == Closure(g, S)
  {
    ClosureLeast(g, Closure(g, S), Closure(g, S));
  }

  lemma ClosureEmpty(g: Graph)
    requires WellFormed(g)
    ensures Closure(g, {}) == {}
  {
    ClosureLeast(g, {}, {});
  }

  /** One step of the simulation: the closure of the successors on c. */
  function Advance(g: Graph, F: set<StateId>, c: char): set<StateId>
    requires WellFormed(g)
  {
    Closure(g, Step(g, F, c))
  }

  /** `containsAcceptingState`: some state's membership in `accepting` differs from `inverted`. */
  predicate ContainsAccepting(F: set<StateId>, accepting: set<StateId>, inverted: bool)
  {
    exists s :: s in F && inverted != (s in accepting)
  }

  /** The answer of `accepts` from frontier F on the rest w of the input. */
  function Run(g: Graph, F: set<StateId>, w: string, accepting: set<StateId>, inverted: bool): bool
    requires WellFormed(g)
    decreases |w|
  {
    if w == [] then ContainsAccepting(F, accepting, inverted)
    else
      var F' := Advance(g, F, w[0]);
      if F' == {} then false else Run(g, F', w[1..], accepting, inverted)
  }

  /** `accepts(w)`: start from the closure of the start state. */
  function AcceptsSpec(g: Graph, start: StateId, accepting: set<StateId>, inverted: bool, w: string): bool
    requires WellFormed(g)
  {
    Run(g, Closure(g, {start}), w, accepting, inverted)
  }

  /** The frontier after reading w, carried on through empty frontiers. */
  function Frontier(g: Graph, F: set<StateId>, w: string): set<StateId>
    requires WellFormed(g)
    decreases |w|
  {
    if w == [] then F else Frontier(g, Advance(g, F, w[0]), w[1..])
  }

  /** An empty frontier rejects whatever follows, whatever `inverted` is. */
  lemma {:induction false} RunFromEmpty(g: Graph, w: string, accepting: set<StateId>, inverted: bool)
    requires WellFormed(g)
    ensures !Run(g, {}, w, accepting, inverted)
  {
    if w != [] {
      StepEmpty(g, w[0]);
      ClosureEmpty(g);
    }
  }

  lemma {:induction false} FrontierFromEmpty(g: Graph, w: string)
    requires WellFormed(g)
    ensures Frontier(g, {}, w) == {}
    decreases |w|
  {
    if w != [] {
      StepEmpty(g, w[0]);
      ClosureEmpty(g);
      FrontierFromEmpty(g, w[1..]);
    }
  }

  /**
   * Without inversion, the early exit on an empty frontier changes nothing:
   * the answer is whether the final frontier holds an accepting state.
   */
  lemma {:induction false} RunIsFinalFrontier(g: Graph, F: set<StateId>, w: string, accepting: set<StateId>)
    requires WellFormed(g)
    ensures Run(g, F, w, accepting, false) == ContainsAccepting(Frontier(g, F, w), accepting, false)
    decreases |w|
  {
    if w != [] {
      var F' := Advance(g, F, w[0]);
      if F' == {} {
        FrontierFromEmpty(g, w[1..]);
      } else {
        RunIsFinalFrontier(g, F', w[1..], accepting);
      }
    }
  }

  /** One symbol of the simulation: the early exit agrees with simulating on from nothing. */
  lemma RunStep(g: Graph, F: set<StateId>, w: string, accepting: set<StateId>, inverted: bool)
    requires WellFormed(g) && w != []
    ensures Run(g, F, w, accepting, inverted) == Run(g, Advance(g, F, w[0]), w[1..], accepting, inverted)
  {
    if Advance(g, F, w[0]) == {} {
      RunFromEmpty(g, w[1..], accepting, inverted);
    }
  }

  lemma NonEmptyHasMember(S: set<StateId>)
    requires S != {}
    ensures exists x :: x in S
  {
    if forall x :: x !in S {
      assert false;
    }
  }

  lemma NonEmptyHasSymbol(S: set<char>)
    requires S != {}
    ensures exists c :: c in S
  {
    if forall c :: c !in S {
      assert false;
    }
  }

  /** The edges state s has in g; a state without an entry has none. */
  function EdgesOf(g: Graph, s: StateId): Edges
  {
    if s in g then g[s] else NoEdges
  }

  /** Every state of T joins the successors on c. */
  function AddAll(e: Edges, c: char, T: set<StateId>): Edges
  {
    Edges(e.labelled[c := (if c in e.labelled then e.labelled[c] else {}) + T], e.wildcard)
  }

  /**
   * Every state of S gains an edge labelled c to every state of T, the
   * effect of `addNextStateForSymbol(c, t)` on each s in S and t in T;
   * states that had no entry get one.
   */
  function LinkAll(g: Graph, S: set<StateId>, c: char, T: set<StateId>): (r: Graph)
    ensures r.Keys == g.Keys + S + (if S == {} then {} else T)
    ensures forall s :: s in r ==> r[s] == if s in S then AddAll(EdgesOf(g, s), c, T) else EdgesOf(g, s)
    ensures WellFormed(g) ==> WellFormed(r)
  {
    map s | s in g.Keys + S + (if S == {} then {} else T) :: if s in S then AddAll(EdgesOf(g, s), c, T) else EdgesOf(g, s)
  }

  /** What linking does to successors: the states of S gain T on c, and nothing else changes. */
  lemma LinkAllNext(g: Graph, S: set<StateId>, c: char, T: set<StateId>)
    ensures forall s, d :: Next(LinkAll(g, S, c, T), s, d) == Next(g, s, d) + (if s in S && d == c then T else {})
  {
  }

  /** Linking nothing leaves the graph as it was. */
  lemma LinkNone(g: Graph, c: char, T: set<StateId>)
    ensures LinkAll(g, {}, c, T) == g
  {
    var r := LinkAll(g, {}, c, T);
    assert r.Keys == g.Keys;
    forall s | s in g ensures r[s] == g[s] {
    }
  }

  lemma AddAllTwice(e: Edges, c: char, T: set<StateId>)
    ensures AddAll(AddAll(e, c, T), c, T) == AddAll(e, c, T)
  {
    assert AddAll(AddAll(e, c, T), c, T).labelled == AddAll(e, c, T).labelled;
  }

  /** Linking the sources A and then the sources B to the same targets is linking A + B. */
  lemma LinkUnion(g: Graph, A: set<StateId>, B: set<StateId>, c: char, T: set<StateId>)
    ensures LinkAll(LinkAll(g, A, c, T), B, c, T) == LinkAll(g, A + B, c, T)
  {
    var m := LinkAll(g, A, c, T);
    var a := LinkAll(m, B, c, T);
    var b := LinkAll(g, A + B, c, T);
    assert a.Keys == b.Keys;
    forall u | u in a ensures a[u] == b[u] {
      if u in A && u in B {
        AddAllTwice(EdgesOf(g, u), c, T);
      }
    }
  }

  /** Two edges from s on c, one target at a time, are one link to both targets. */
  lemma LinkBoth(g: Graph, s: StateId, c: char, t1: StateId, t2: StateId)
    ensures LinkAll(LinkAll(g, {s}, c, {t1}), {s}, c, {t2}) == LinkAll(g, {s}, c, {t1, t2})
  {
    var a := LinkAll(LinkAll(g, {s}, c, {t1}), {s}, c, {t2});
    var b := LinkAll(g, {s}, c, {t1, t2});
    LinkBothKeys(g, s, c, t1, t2);
    LinkBothAt(g, s, c, t1, t2);
    forall u | u in a && u != s ensures a[u] == b[u] {
      LinkBothElsewhere(g, s, c, t1, t2, u);
    }
  }

  lemma LinkBothKeys(g: Graph, s: StateId, c: char, t1: StateId, t2: StateId)
    ensures LinkAll(LinkAll(g, {s}, c, {t1}), {s}, c, {t2}).Keys == LinkAll(g, {s}, c, {t1, t2}).Keys
  {
    assert LinkAll(g, {s}, c, {t1}).Keys == g.Keys + {s, t1};
  }

  lemma LinkBothElsewhere(g: Graph, s: StateId, c: char, t1: StateId, t2: StateId, u: StateId)
    requires u != s && u in LinkAll(LinkAll(g, {s}, c, {t1}), {s}, c, {t2}) && u in LinkAll(g, {s}, c, {t1, t2})
    ensures LinkAll(LinkAll(g, {s}, c, {t1}), {s}, c, {t2})[u] == LinkAll(g, {s}, c, {t1, t2})[u]
  {
    var m := LinkAll(g, {s}, c, {t1});
    assert LinkAll(m, {s}, c, {t2})[u] == EdgesOf(m, u);
  }

  lemma LinkBothAt(g: Graph, s: StateId, c: char, t1: StateId, t2: StateId)
    ensures LinkAll(LinkAll(g, {s}, c, {t1}), {s}, c, {t2})[s] == LinkAll(g, {s}, c, {t1, t2})[s]
  {
    var e := EdgesOf(g, s);
    var prior := LabelledOf(e, c);
    var m := LinkAll(g, {s}, c, {t1});
    assert m[s] == Edges(e.labelled[c := prior + {t1}], e.wildcard);
    assert prior + {t1} + {t2} == prior + {t1, t2};
    assert e.labelled[c := prior + {t1}][c := prior + {t1} + {t2}] == e.labelled[c := prior + {t1, t2}];
  }

  /** `addStatesReachableWithAnyCharacter(t)` on s: t follows s on every symbol but `'#'`. */
  function LinkAny(g: Graph, s: StateId, t: StateId): (r: Graph)
    ensures r.Keys == g.Keys + {s, t}
    ensures forall u, d :: Next(r, u, d) == Next(g, u, d) + (if u == s && d != Epsilon then {t} else {})
    ensures WellFormed(g) ==> WellFormed(r)
  {
    map u | u in g.Keys + {s, t} :: if u == s then AddWildcard(EdgesOf(g, u), t) else EdgesOf(g, u)
  }

  function LabelledOf(e: Edges, c: char): set<StateId>
  {
    if c in e.labelled then e.labelled[c] else {}
  }

  /** The edges of a and b together. */
  function UnionEdges(a: Edges, b: Edges): (r: Edges)
    ensures forall c :: LabelledOf(r, c) == LabelledOf(a, c) + LabelledOf(b, c)
    ensures r.wildcard == a.wildcard + b.wildcard
  {
    Edges(map c | c in a.labelled.Keys + b.labelled.Keys :: LabelledOf(a, c) + LabelledOf(b, c), a.wildcard + b.wildcard)
  }

  /** The edges of both graphs together (MergeNext: a state's successors are its successors in either). */
  function Merge(g: Graph, h: Graph): (r: Graph)
    ensures r.Keys == g.Keys + h.Keys
  {
    map s | s in g.Keys + h.Keys :: UnionEdges(EdgesOf(g, s), EdgesOf(h, s))
  }

  lemma MergeNextAt(g: Graph, h: Graph, s: StateId, c: char)
    ensures Next(Merge(g, h), s, c) == Next(g, s, c) + Next(h, s, c)
  {
    var r := Merge(g, h);
    if s in r {
      assert LabelledOf(r[s], c) == LabelledOf(EdgesOf(g, s), c) + LabelledOf(EdgesOf(h, s), c);
    }
  }

  /** Merging a graph with itself changes nothing. */
  lemma MergeSelf(g: Graph)
    ensures Merge(g, g) == g
  {
    forall s | s in g ensures Merge(g, g)[s] == g[s] {
      UnionSelf(g[s]);
    }
  }

  lemma UnionSelf(e: Edges)
    ensures UnionEdges(e, e) == e
  {
    var r := UnionEdges(e, e);
    assert r.labelled.Keys == e.labelled.Keys;
    forall c | c in e.labelled ensures r.labelled[c] == e.labelled[c] {
      assert LabelledOf(e, c) == e.labelled[c];
    }
  }

  /** A state of the merge moves wherever it moves in either graph, and nowhere else. */
  lemma MergeNext(g: Graph, h: Graph)
    ensures forall s, c :: Next(Merge(g, h), s, c) == Next(g, s, c) + Next(h, s, c)
  {
    forall s, c ensures Next(Merge(g, h), s, c) == Next(g, s, c) + Next(h, s, c) {
      MergeNextAt(g, h, s, c);
    }
  }

  /** Merging two well-formed graphs gives a well-formed graph. */
  lemma MergeWellFormed(g: Graph, h: Graph)
    requires WellFormed(g) && WellFormed(h)
    ensures WellFormed(Merge(g, h))
  {
    var r := Merge(g, h);
    forall s, c | s in r && c in r[s].labelled ensures r[s].labelled[c] <= r.Keys {
      assert r[s].labelled[c] == LabelledOf(EdgesOf(g, s), c) + LabelledOf(EdgesOf(h, s), c);
    }
  }

  /** h has every edge g has. */
  ghost predicate Grows(g: Graph, h: Graph)
  {
    forall s, c :: Next(g, s, c) <= Next(h, s, c)
  }

  lemma GrowsTransitive(f: Graph, g: Graph, h: Graph)
    requires Grows(f, g) && Grows(g, h)
    ensures Grows(f, h)
  {
  }

  /** More edges and more states to start from reach at least as much without reading. */
  lemma ClosureGrows(g: Graph, h: Graph, A: set<StateId>, B: set<StateId>)
    requires WellFormed(g) && WellFormed(h) && Grows(g, h) && A <= B
    ensures Closure(g, A) <= Closure(h, B)
  {
    var R := Closure(h, B);
    forall s | s in R ensures Next(g, s, Epsilon) <= R {
      assert Next(g, s, Epsilon) <= Next(h, s, Epsilon);
    }
    ClosureLeast(g, A, R);
  }

  lemma StepGrows(g: Graph, h: Graph, A: set<StateId>, B: set<StateId>, c: char)
    requires Grows(g, h) && A <= B
    ensures Step(g, A, c) <= Step(h, B, c)
  {
    forall t | t in Step(g, A, c) ensures t in Step(h, B, c) {
      var s :| s in A && t in Next(g, s, c);
      assert t in Next(h, s, c);
    }
  }

  /** Simulation is monotone in the edges and in the frontier. */
  lemma {:induction false} FrontierGrows(g: Graph, h: Graph, A: set<StateId>, B: set<StateId>, w: string)
    requires WellFormed(g) && WellFormed(h) && Grows(g, h) && A <= B
    ensures Frontier(g, A, w) <= Frontier(h, B, w)
    decreases |w|
  {
    if w != [] {
      StepGrows(g, h, A, B, w[0]);
      ClosureGrows(g, h, Step(g, A, w[0]), Step(h, B, w[0]));
      FrontierGrows(g, h, Advance(g, A, w[0]), Advance(h, B, w[0]), w[1..]);
    }
  }

  /** Reading u and then v is reading u + v. */
  lemma {:induction false} FrontierAppend(g: Graph, F: set<StateId>, u: string, v: string)
    requires WellFormed(g)
    ensures Frontier(g, F, u + v) == Frontier(g, Frontier(g, F, u), v)
    decreases |u|
  {
    if u == [] {
      assert u + v == v;
    } else {
      assert (u + v)[0] == u[0] && (u + v)[1..] == u[1..] + v;
      FrontierAppend(g, Advance(g, F, u[0]), u[1..], v);
    }
  }

  /** A frontier that starts epsilon-closed stays epsilon-closed. */
  lemma {:induction false} FrontierClosed(g: Graph, F: set<StateId>, w: string)
    requires WellFormed(g) && EpsilonClosed(g, F)
    ensures EpsilonClosed(g, Frontier(g, F, w))
    decreases |w|
  {
    if w != [] {
      FrontierClosed(g, Advance(g, F, w[0]), w[1..]);
    }
  }

  /** A symbol no state has an edge for, wildcards included, empties the frontier for good. */
  lemma {:induction false} AbsentSymbolRejected(g: Graph, F: set<StateId>, w: string, k: nat)
    requires WellFormed(g) && k < |w| && forall s :: Next(g, s, w[k]) == {}
    ensures Frontier(g, F, w) == {}
    decreases k
  {
    if k == 0 {
      assert Step(g, F, w[0]) == {};
      ClosureEmpty(g);
      FrontierFromEmpty(g, w[1..]);
    } else {
      AbsentSymbolRejected(g, Advance(g, F, w[0]), w[1..], k - 1);
    }
  }

  /** Inside h, a state of a merge with a graph on other states moves as it does in h. */
  lemma MergeStepInside(g: Graph, h: Graph, S: set<StateId>, c: char)
    requires S <= h.Keys && g.Keys !! h.Keys
    ensures Step(Merge(g, h), S, c) == Step(h, S, c)
  {
    forall s | s in S ensures Next(Merge(g, h), s, c) == Next(h, s, c) {
      MergeNextAt(g, h, s, c);
    }
  }

  lemma MergeClosureInside(g: Graph, h: Graph, S: set<StateId>)
    requires WellFormed(g) && WellFormed(h) && S <= h.Keys && g.Keys !! h.Keys
    ensures WellFormed(Merge(g, h)) && Closure(Merge(g, h), S) == Closure(h, S)
  {
    MergeWellFormed(g, h);
    var m := Merge(g, h);
    var C := Closure(h, S);
    forall s | s in C ensures Next(m, s, Epsilon) <= C {
      MergeNextAt(g, h, s, Epsilon);
    }
    ClosureLeast(m, S, C);
    var D := Closure(m, S);
    forall s | s in D ensures Next(h, s, Epsilon) <= D {
      MergeNextAt(g, h, s, Epsilon);
    }
    ClosureLeast(h, S, D);
  }

  lemma {:induction false} MergeRunInside(g: Graph, h: Graph, F: set<StateId>, w: string,
                                          accepting: set<StateId>, inverted: bool)
    requires WellFormed(g) && WellFormed(h) && F <= h.Keys && g.Keys !! h.Keys
    ensures WellFormed(Merge(g, h)) && Run(Merge(g, h), F, w, accepting, inverted) == Run(h, F, w, accepting, inverted)
    decreases |w|
  {
    MergeWellFormed(g, h);
    if w != [] {
      MergeStepInside(g, h, F, w[0]);
      StepInGraph(h, F, w[0]);
      MergeClosureInside(g, h, Step(h, F, w[0]));
      MergeRunInside(g, h, Advance(h, F, w[0]), w[1..], accepting, inverted);
    }
  }

  /**
   * Merging in a graph on other states changes nothing an automaton of h
   * accepts: no edge of g leads into h.
   */
  lemma MergeAcceptsInside(g: Graph, h: Graph, start: StateId, accepting: set<StateId>, inverted: bool, w: string)
    requires WellFormed(g) && WellFormed(h) && start in h && g.Keys !! h.Keys
    ensures WellFormed(Merge(g, h))
    ensures AcceptsSpec(Merge(g, h), start, accepting, inverted, w) == AcceptsSpec(h, start, accepting, inverted, w)
  {
    MergeClosureInside(g, h, {start});
    MergeRunInside(g, h, Closure(h, {start}), w, accepting, inverted);
  }
}
