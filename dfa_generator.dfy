/**
 * DFAGenerator.java (utils.generators): the complement of an automaton by
 * the subset construction.
 *
 * Every subset state of the DFA stands for one set of states of the input
 * automaton, closed under moves that read nothing. A worklist of subset
 * states still to be investigated drives the construction: each one gets a
 * transition on every symbol the generator knows, to the subset state of the
 * set reached, minted with a fresh, decreasing id when that set is new. A
 * subset state accepts exactly when its set holds no accepting state of the
 * input, so the DFA accepts the words the input rejects.
 *
 * The predicates and lemmas take the symbol set as a parameter `syms`; the
 * generator instantiates it with SymbolSet.
 */
module DFAConstruction {
  import opened Automaton
  import opened NFAModel
  import Utilities

  /** `allPossibleSymbols`: the alphabet, the shorthands, the operations and the escape `/`. */
  const SymbolSet: set<char> :=
    Utilities.DefaultAlphabet + Utilities.DefaultShorthands + Utilities.DefaultBasicOperations + {'/'}

  /** Membership in the symbol set, character by character. */
  lemma SymbolSetMembership(c: char)
    ensures c in SymbolSet <==>
      Utilities.IsAlphanumeric(c) || c in {'?', '+', '[', ']', '-', ',', '*', '|', '&', '(', ')', '!', '/'}
  {
    Utilities.AlphabetMembership(c);
  }

  /** The empty symbol `#` and the wildcard `.` are not symbols the generator builds transitions for. */
  lemma EpsilonNotSymbol()
    ensures Epsilon !in SymbolSet && '.' !in SymbolSet
  {
    SymbolSetMembership(Epsilon);
    SymbolSetMembership('.');
  }

  /** Every symbol of w is in syms. */
  predicate OverSymbols(w: string, syms: set<char>)
  {
    forall k :: 0 <= k < |w| ==> w[k] in syms
  }

  // ---------------------------------------------------------------------------
  // The finished construction and the language it accepts
  // ---------------------------------------------------------------------------

  /**
   * The transitions e of subset state d on the symbols syms: no wildcard,
   * and on each symbol the single subset state of the set reached.
   */
  ghost predicate Explored(g: Graph, bySubset: map<StateId, set<StateId>>, bySet: map<set<StateId>, StateId>,
                           e: Edges, d: StateId, syms: set<char>)
  {
    && WellFormed(g) && d in bySubset
    && e.wildcard == {} && (forall c :: c in e.labelled ==> c in syms)
    && forall c :: c in syms ==>
         c in e.labelled && Advance(g, bySubset[d], c) in bySet && e.labelled[c] == {bySet[Advance(g, bySubset[d], c)]}
  }

  /**
   * What the construction leaves behind: the two maps between subset states
   * and sets of states are inverses of each other; every subset state has
   * exactly one successor on every symbol of syms, the subset state of the
   * set reached; and a subset state accepts iff its set holds no accepting
   * state.
   */
  ghost predicate SubsetAutomaton(g: Graph, accepting: set<StateId>, syms: set<char>,
                                  bySubset: map<StateId, set<StateId>>, bySet: map<set<StateId>, StateId>,
                                  dg: Graph, dacc: set<StateId>)
  {
    && WellFormed(g) && WellFormed(dg) && Epsilon !in syms
    && dg.Keys == bySubset.Keys
    && (forall S :: S in bySet ==> bySet[S] in bySubset && bySubset[bySet[S]] == S)
    && (forall d :: d in bySubset ==> bySubset[d] in bySet && bySet[bySubset[d]] == d)
    && (forall d :: d in dacc <==> d in bySubset && bySubset[d] * accepting == {})
    && (forall d :: d in dg ==> Explored(g, bySubset, bySet, dg[d], d, syms))
  }

  /** A single subset state is closed under moves that read nothing. */
  lemma SingleStateClosed(g: Graph, accepting: set<StateId>, syms: set<char>, bySubset: map<StateId, set<StateId>>,
                          bySet: map<set<StateId>, StateId>, dg: Graph, dacc: set<StateId>, d: StateId)
    requires SubsetAutomaton(g, accepting, syms, bySubset, bySet, dg, dacc) && d in dg
    ensures Closure(dg, {d}) == {d}
  {
    assert Explored(g, bySubset, bySet, dg[d], d, syms);
    assert Next(dg, d, Epsilon) == {};
    assert EpsilonClosed(dg, {d});
    ClosureLeast(dg, {d}, {d});
  }

  /** Reading w from subset state d leads to the subset state of the frontier the input reaches. */
  lemma {:induction false} SubsetFrontier(g: Graph, accepting: set<StateId>, syms: set<char>,
                                          bySubset: map<StateId, set<StateId>>, bySet: map<set<StateId>, StateId>,
                                          dg: Graph, dacc: set<StateId>, d: StateId, w: string)
    requires SubsetAutomaton(g, accepting, syms, bySubset, bySet, dg, dacc) && d in dg && OverSymbols(w, syms)
    ensures Frontier(g, bySubset[d], w) in bySet
    ensures Frontier(dg, {d}, w) == {bySet[Frontier(g, bySubset[d], w)]}
    decreases |w|
  {
    if w != [] {
      var c := w[0];
      var T := Advance(g, bySubset[d], c);
      assert Explored(g, bySubset, bySet, dg[d], d, syms);
      var e := bySet[T];
      StepSingleton(dg, d, c);
      assert Step(dg, {d}, c) == {e};
      SingleStateClosed(g, accepting, syms, bySubset, bySet, dg, dacc, e);
      assert Advance(dg, {d}, c) == {e};
      assert OverSymbols(w[1..], syms) by {
        forall k | 0 <= k < |w[1..]| ensures w[1..][k] in syms {
          assert w[1..][k] == w[k + 1];
        }
      }
      SubsetFrontier(g, accepting, syms, bySubset, bySet, dg, dacc, e, w[1..]);
    }
  }

  /** Without inversion, a frontier accepts iff it meets the accepting states. */
  lemma AcceptingMeets(F: set<StateId>, accepting: set<StateId>)
    ensures ContainsAccepting(F, accepting, false) <==> F * accepting != {}
  {
    if F * accepting != {} {
      NonEmptyHasMember(F * accepting);
      var s :| s in F * accepting;
      assert s in F && s in accepting;
    }
    if ContainsAccepting(F, accepting, false) {
      var s :| s in F && s in accepting;
      assert s in F * accepting;
    }
  }

  /**
   * Over syms, the subset automaton started at the subset state of the
   * closure of the input's start accepts exactly the words the input rejects.
   */
  lemma ComplementLanguage(g: Graph, start: StateId, accepting: set<StateId>, syms: set<char>,
                           bySubset: map<StateId, set<StateId>>, bySet: map<set<StateId>, StateId>,
                           dg: Graph, dacc: set<StateId>, dstart: StateId, w: string)
    requires SubsetAutomaton(g, accepting, syms, bySubset, bySet, dg, dacc)
    requires dstart in dg && bySubset[dstart] == Closure(g, {start}) && OverSymbols(w, syms)
    ensures AcceptsSpec(dg, dstart, dacc, false, w) == !AcceptsSpec(g, start, accepting, false, w)
  {
    SingleStateClosed(g, accepting, syms, bySubset, bySet, dg, dacc, dstart);
    RunIsFinalFrontier(dg, {dstart}, w, dacc);
    RunIsFinalFrontier(g, Closure(g, {start}), w, accepting);
    SubsetFrontier(g, accepting, syms, bySubset, bySet, dg, dacc, dstart, w);
    var F := Frontier(g, Closure(g, {start}), w);
    var e := bySet[F];
    assert e in bySubset && bySubset[e] == F;
    AcceptingMeets({e}, dacc);
    AcceptingMeets(F, accepting);
    assert {e} * dacc != {} <==> e in dacc;
  }

  /** Every word over syms is accepted by exactly one of the two. */
  lemma ComplementEverywhere(g: Graph, start: StateId, accepting: set<StateId>, syms: set<char>,
                             bySubset: map<StateId, set<StateId>>, bySet: map<set<StateId>, StateId>,
                             dg: Graph, dacc: set<StateId>, dstart: StateId)
    requires SubsetAutomaton(g, accepting, syms, bySubset, bySet, dg, dacc)
    requires dstart in dg && bySubset[dstart] == Closure(g, {start})
    ensures forall w :: OverSymbols(w, syms) ==>
      AcceptsSpec(dg, dstart, dacc, false, w) == !AcceptsSpec(g, start, accepting, false, w)
  {
    forall w | OverSymbols(w, syms)
      ensures AcceptsSpec(dg, dstart, dacc, false, w) == !AcceptsSpec(g, start, accepting, false, w)
    {
      ComplementLanguage(g, start, accepting, syms, bySubset, bySet, dg, dacc, dstart, w);
    }
  }

  /** A word holding a symbol outside syms is rejected by the subset automaton. */
  lemma {:induction false} ForeignSymbolRejected(g: Graph, accepting: set<StateId>, syms: set<char>,
                                                 bySubset: map<StateId, set<StateId>>, bySet: map<set<StateId>, StateId>,
                                                 dg: Graph, dacc: set<StateId>, d: StateId, w: string, k: nat)
    requires SubsetAutomaton(g, accepting, syms, bySubset, bySet, dg, dacc) && d in dg
    requires k < |w| && w[k] !in syms
    ensures !Run(dg, {d}, w, dacc, false)
    decreases k
  {
    var c := w[0];
    StepSingleton(dg, d, c);
    assert Explored(g, bySubset, bySet, dg[d], d, syms);
    if c in syms {
      var e := bySet[Advance(g, bySubset[d], c)];
      SingleStateClosed(g, accepting, syms, bySubset, bySet, dg, dacc, e);
      assert Advance(dg, {d}, c) == {e};
      assert k != 0;
      assert w[1..][k - 1] == w[k];
      ForeignSymbolRejected(g, accepting, syms, bySubset, bySet, dg, dacc, e, w[1..], k - 1);
    } else {
      assert Next(dg, d, c) == {};
      ClosureEmpty(dg);
    }
  }

  // ---------------------------------------------------------------------------
  // The construction in progress
  // ---------------------------------------------------------------------------

  /** Every subset of U. */
  ghost function Powerset(U: set<StateId>): set<set<StateId>>
    decreases |U|
  {
    if U == {} then {{}}
    else
      var x := Pick(U);
      var P := Powerset(U - {x});
      P + set X | X in P :: X + {x}
  }

  ghost function Pick(U: set<StateId>): (x: StateId)
    requires U != {}
    ensures x in U
  {
    NonEmptyHasMember(U);
    var x :| x in U; x
  }

  /** Only finitely many sets can ever be met: each is a member of the powerset of U. */
  lemma {:induction false} PowersetContains(U: set<StateId>, X: set<StateId>)
    requires X <= U
    ensures X in Powerset(U)
    decreases |U|
  {
    if U != {} {
      var x := Pick(U);
      var P := Powerset(U - {x});
      PowersetContains(U - {x}, X - {x});
      if x in X {
        assert X == (X - {x}) + {x};
        assert (X - {x}) + {x} in (set Y | Y in P :: Y + {x});
      } else {
        assert X == X - {x};
      }
    }
  }

  /** Meeting a new set leaves fewer of the finitely many sets still to meet. */
  lemma FewerToMeet(P: set<set<StateId>>, A: set<set<StateId>>, B: set<set<StateId>>, T: set<StateId>)
    requires A <= B <= P && T in B && T !in A
    ensures |P - B| < |P - A|
  {
    assert T in P - A && T !in P - B;
    StrictSubsetCard(P - B, P - A);
  }

  /**
   * One round of the worklist makes progress: either a new set was met, or
   * none was and the subset state taken off the worklist is not back.
   */
  lemma WorklistShrinks(P: set<set<StateId>>, A: set<set<StateId>>, B: set<set<StateId>>,
                        W0: set<StateId>, W: set<StateId>, cur: StateId)
    requires A <= B <= P && cur in W0 && (B == A ==> W <= W0 - {cur})
    ensures |P - B| < |P - A| || (|P - B| == |P - A| && |W| < |W0|)
  {
    if B == A {
      SubsetCard(W, W0 - {cur});
    } else {
      var T: set<StateId> :| T in B && T !in A;
      FewerToMeet(P, A, B, T);
    }
  }

  /** Before the loop over the symbols none is done; after it, all are. */
  lemma NoneDone(all: set<char>)
    ensures all - all == {}
  {
  }

  lemma AllDone(all: set<char>)
    ensures all - {} == all
  {
  }

  /** Taking a symbol out of those still to do adds it to those done. */
  lemma SymbolTaken(all: set<char>, rest: set<char>, c: char)
    requires c in rest && rest <= all
    ensures all - (rest - {c}) == (all - rest) + {c} && c !in all - rest
  {
  }

  /**
   * What stays fixed during one construction: the input's transitions and
   * accepting states, the states U a set can be made of, the closure S0 of
   * the start state, the id h of the start subset state, and the symbols.
   */
  datatype Context = Context(g: Graph, nfaAcc: set<StateId>, U: set<StateId>, S0: set<StateId>, h: StateId,
                             syms: set<char>)

  /**
   * The local state of generateComplementDFA: the map from sets of states
   * to subset states and back, the transitions and accepting subset states
   * built so far, and the two sets of the worklist.
   */
  datatype Progress = Progress(
    bySet: map<set<StateId>, StateId>,
    bySubset: map<StateId, set<StateId>>,
    edges: Graph,
    accepting: set<StateId>,
    toInvestigate: set<StateId>,
    investigated: set<StateId>)

  /**
   * The invariant of the worklist: the two maps are inverse, ids lie above
   * low (the next id to mint) and at most h (the first), the start subset
   * state h stands for S0, investigated subset states have their
   * transitions (the one being investigated, cur, only on curSyms), the
   * others none yet, and acceptance is decided by the set.
   */
  ghost predicate Inv(x: Context, low: int, p: Progress, cur: StateId, curSyms: set<char>)
  {
    && WellFormed(x.g)
    && p.bySubset.Keys == p.edges.Keys == p.toInvestigate + p.investigated
    && p.toInvestigate !! p.investigated
    && Inverse(p.bySet, p.bySubset)
    && (forall d :: d in p.bySubset ==> low < d <= x.h && p.bySubset[d] <= x.U)
    && x.h in p.bySubset && p.bySubset[x.h] == x.S0
    && InvestigatedExplored(x, p, cur, curSyms)
    && (forall d :: d in p.toInvestigate ==> p.edges[d] == NoEdges)
    && (forall d :: d in p.accepting <==> d in p.bySubset && p.bySubset[d] * x.nfaAcc == {})
  }

  /** The map from sets to subset states and the map back are inverses of each other. */
  ghost predicate Inverse(bySet: map<set<StateId>, StateId>, bySubset: map<StateId, set<StateId>>)
  {
    && (forall S :: S in bySet ==> bySet[S] in bySubset && bySubset[bySet[S]] == S)
    && (forall d :: d in bySubset ==> bySubset[d] in bySet && bySet[bySubset[d]] == d)
  }

  /** Investigated subset states have their transitions: cur only on curSyms, the others on every symbol. */
  ghost predicate InvestigatedExplored(x: Context, p: Progress, cur: StateId, curSyms: set<char>)
    requires p.investigated <= p.edges.Keys
  {
    forall d :: d in p.investigated ==>
      Explored(x.g, p.bySubset, p.bySet, p.edges[d], d, if d == cur then curSyms else x.syms)
  }

  /** The progress right after the start subset state h is created for the closure S0. */
  ghost function Initial(x: Context): Progress
  {
    Progress(map[x.S0 := x.h], map[x.h := x.S0], map[x.h := NoEdges],
             if x.S0 * x.nfaAcc == {} then {x.h} else {}, {x.h}, {})
  }

  lemma InitialInv(x: Context, low: int)
    requires WellFormed(x.g) && x.S0 <= x.U && low < x.h
    ensures Inv(x, low, Initial(x), x.h, x.syms)
  {
  }

  /** A subset state taken off the worklist has no transitions yet. */
  lemma StartInvestigating(x: Context, low: int, p: Progress, cur: StateId)
    requires Inv(x, low, p, x.h, x.syms) && cur in p.toInvestigate
    ensures Inv(x, low, p.(investigated := p.investigated + {cur}, toInvestigate := p.toInvestigate - {cur}), cur, {})
  {
    var q := p.(investigated := p.investigated + {cur}, toInvestigate := p.toInvestigate - {cur});
    forall d | d in q.investigated
      ensures Explored(x.g, q.bySubset, q.bySet, q.edges[d], d, if d == cur then {} else x.syms)
    {
      if d != cur {
        assert d in p.investigated;
        assert Explored(x.g, p.bySubset, p.bySet, p.edges[d], d, if d == x.h then x.syms else x.syms);
      }
    }
  }

  /** Once every symbol is done for cur, which subset state is named cur no longer matters. */
  lemma DoneInvestigating(x: Context, low: int, p: Progress, cur: StateId)
    requires Inv(x, low, p, cur, x.syms)
    ensures Inv(x, low, p, x.h, x.syms)
  {
    forall d | d in p.investigated
      ensures Explored(x.g, p.bySubset, p.bySet, p.edges[d], d, if d == x.h then x.syms else x.syms)
    {
      assert Explored(x.g, p.bySubset, p.bySet, p.edges[d], d, if d == cur then x.syms else x.syms);
    }
  }

  /** A set met for the first time gets the subset state `id`, to be investigated. */
  ghost function Minted(x: Context, p: Progress, T: set<StateId>, id: StateId): Progress
  {
    p.(bySet := p.bySet[T := id], bySubset := p.bySubset[id := T], edges := p.edges[id := NoEdges],
       accepting := if T * x.nfaAcc == {} then p.accepting + {id} else p.accepting,
       toInvestigate := p.toInvestigate + {id})
  }

  /** The transition of cur on c to next. */
  ghost function Linked(p: Progress, cur: StateId, c: char, next: StateId): Progress
    requires cur in p.edges
  {
    p.(edges := p.edges[cur := AddNext(p.edges[cur], c, next)])
  }

  /** A new pair of a set and a subset state, neither known before, keeps the maps inverse. */
  lemma MintInverse(bySet: map<set<StateId>, StateId>, bySubset: map<StateId, set<StateId>>, T: set<StateId>, id: StateId)
    requires Inverse(bySet, bySubset) && T !in bySet && id !in bySubset
    ensures Inverse(bySet[T := id], bySubset[id := T])
  {
  }

  /** Transitions explored under the old maps stay explored once a new pair is added. */
  lemma ExploredAfterMint(g: Graph, bySubset: map<StateId, set<StateId>>, bySet: map<set<StateId>, StateId>,
                          e: Edges, d: StateId, syms: set<char>, T: set<StateId>, id: StateId)
    requires Explored(g, bySubset, bySet, e, d, syms) && T !in bySet && id !in bySubset
    ensures Explored(g, bySubset[id := T], bySet[T := id], e, d, syms)
  {
    assert d != id;
    forall c | c in syms
      ensures Advance(g, bySubset[d], c) in bySet[T := id]
      ensures e.labelled[c] == {bySet[T := id][Advance(g, bySubset[id := T][d], c)]}
    {
      assert Advance(g, bySubset[d], c) in bySet;
    }
  }

  lemma MintKeepsInv(x: Context, low: int, p: Progress, cur: StateId, done: set<char>, T: set<StateId>)
    requires Inv(x, low, p, cur, done) && T !in p.bySet && T <= x.U
    ensures Inv(x, low - 1, Minted(x, p, T, low), cur, done)
  {
    assert low !in p.bySubset;
    MintInverse(p.bySet, p.bySubset, T, low);
    ExploredAfterMinted(x, p, cur, done, T, low);
  }

  /** Minting leaves every investigated subset state as explored as it was. */
  lemma ExploredAfterMinted(x: Context, p: Progress, cur: StateId, done: set<char>, T: set<StateId>, id: StateId)
    requires p.investigated <= p.edges.Keys && InvestigatedExplored(x, p, cur, done)
    requires T !in p.bySet && id !in p.bySubset && id !in p.investigated
    ensures InvestigatedExplored(x, Minted(x, p, T, id), cur, done)
  {
    var q := Minted(x, p, T, id);
    forall d | d in q.investigated
      ensures Explored(x.g, q.bySubset, q.bySet, q.edges[d], d, if d == cur then done else x.syms)
    {
      assert Explored(x.g, p.bySubset, p.bySet, p.edges[d], d, if d == cur then done else x.syms);
      ExploredAfterMint(x.g, p.bySubset, p.bySet, p.edges[d], d, if d == cur then done else x.syms, T, id);
    }
  }

  /** Adding the transition on c to the explored transitions on done explores done + {c}. */
  lemma ExploredAfterLink(g: Graph, bySubset: map<StateId, set<StateId>>, bySet: map<set<StateId>, StateId>,
                          e: Edges, d: StateId, done: set<char>, c: char)
    requires Explored(g, bySubset, bySet, e, d, done) && c !in done
    requires Advance(g, bySubset[d], c) in bySet
    ensures Explored(g, bySubset, bySet, AddNext(e, c, bySet[Advance(g, bySubset[d], c)]), d, done + {c})
  {
  }

  /** Linking cur leaves every other investigated subset state as explored as it was. */
  lemma ExploredAfterLinked(x: Context, p: Progress, cur: StateId, done: set<char>, c: char, next: StateId)
    requires cur in p.edges && p.investigated <= p.edges.Keys && InvestigatedExplored(x, p, cur, done)
    requires Explored(x.g, p.bySubset, p.bySet, AddNext(p.edges[cur], c, next), cur, done + {c})
    ensures InvestigatedExplored(x, Linked(p, cur, c, next), cur, done + {c})
  {
    var q := Linked(p, cur, c, next);
    forall d | d in q.investigated
      ensures Explored(x.g, q.bySubset, q.bySet, q.edges[d], d, if d == cur then done + {c} else x.syms)
    {
      if d != cur {
        assert Explored(x.g, p.bySubset, p.bySet, p.edges[d], d, x.syms);
      }
    }
  }

  lemma LinkKeepsInv(x: Context, low: int, p: Progress, cur: StateId, done: set<char>, c: char)
    requires Inv(x, low, p, cur, done) && cur in p.investigated && c !in done
    requires Advance(x.g, p.bySubset[cur], c) in p.bySet
    ensures Inv(x, low, Linked(p, cur, c, p.bySet[Advance(x.g, p.bySubset[cur], c)]), cur, done + {c})
  {
    var next := p.bySet[Advance(x.g, p.bySubset[cur], c)];
    assert Explored(x.g, p.bySubset, p.bySet, p.edges[cur], cur, done);
    ExploredAfterLink(x.g, p.bySubset, p.bySet, p.edges[cur], cur, done, c);
    ExploredAfterLinked(x, p, cur, done, c, next);
  }


  /**
   * What addTransition leaves: the subset state of R (a new one, numbered
   * low, when R was not met before), the transition of cur on c to it, its
   * acceptance, and its place on the worklist unless already investigated.
   */
  ghost function AfterTransition(x: Context, p: Progress, cur: StateId, c: char, R: set<StateId>, low: int): Progress
    requires cur in p.edges
  {
    var next := if R in p.bySet then p.bySet[R] else low;
    var q := if R in p.bySet then p
             else p.(bySet := p.bySet[R := low], bySubset := p.bySubset[low := R], edges := p.edges[low := NoEdges]);
    var r := q.(edges := q.edges[cur := AddNext(q.edges[cur], c, next)]);
    var s := if R * x.nfaAcc == {} then r.(accepting := r.accepting + {next}) else r;
    if next !in s.investigated then s.(toInvestigate := s.toInvestigate + {next}) else s
  }

  /**
   * One transition keeps the invariant, for the set actually reached: the
   * next id drops by one exactly when a new subset state is minted, and no
   * subset state joins the worklist unless a new set was met.
   */
  lemma TransitionKeepsInv(x: Context, low: int, p: Progress, cur: StateId, done: set<char>, c: char,
                           R: set<StateId>, newLow: int, newDone: set<char>)
    requires Inv(x, low, p, cur, done) && cur in p.investigated && c !in done && x.g.Keys <= x.U
    requires R == Advance(x.g, p.bySubset[cur], c)
    requires newLow == (if R in p.bySet then low else low - 1) && newDone == done + {c}
    ensures Inv(x, newLow, AfterTransition(x, p, cur, c, R, low), cur, newDone)
    ensures Extends(p, AfterTransition(x, p, cur, c, R, low))
  {
    StepInGraph(x.g, p.bySubset[cur], c);
    if R in p.bySet {
      var next := p.bySet[R];
      assert p.bySubset[next] == R;
      assert next in p.toInvestigate || next in p.investigated;
      assert AfterTransition(x, p, cur, c, R, low) == Linked(p, cur, c, next);
      LinkKeepsInv(x, low, p, cur, done, c);
    } else {
      var q := Minted(x, p, R, low);
      MintKeepsInv(x, low, p, cur, done, R);
      assert AfterTransition(x, p, cur, c, R, low) == Linked(q, cur, c, low);
      LinkKeepsInv(x, low - 1, q, cur, done, c);
    }
  }

  /** Every set the construction has met is a subset of U. */
  lemma KnownSetsBounded(x: Context, low: int, p: Progress, cur: StateId, curSyms: set<char>)
    requires Inv(x, low, p, cur, curSyms)
    ensures p.bySet.Keys <= Powerset(x.U)
  {
    forall S | S in p.bySet ensures S in Powerset(x.U) {
      var d := p.bySet[S];
      assert d in p.bySubset && p.bySubset[d] == S;
      PowersetContains(x.U, S);
    }
  }

  /** The transitions Explored describes stay among the subset states. */
  lemma ExploredInside(g: Graph, bySubset: map<StateId, set<StateId>>, bySet: map<set<StateId>, StateId>,
                       e: Edges, d: StateId, syms: set<char>)
    requires Explored(g, bySubset, bySet, e, d, syms)
    requires forall S :: S in bySet ==> bySet[S] in bySubset
    ensures e.wildcard <= bySubset.Keys && forall c :: c in e.labelled ==> e.labelled[c] <= bySubset.Keys
  {
    forall c | c in e.labelled ensures e.labelled[c] <= bySubset.Keys {
      assert bySet[Advance(g, bySubset[d], c)] in bySubset;
    }
  }

  lemma ExploredGraphWellFormed(g: Graph, bySubset: map<StateId, set<StateId>>, bySet: map<set<StateId>, StateId>,
                                dg: Graph, syms: set<char>)
    requires dg.Keys == bySubset.Keys
    requires forall S :: S in bySet ==> bySet[S] in bySubset
    requires forall d :: d in dg ==> Explored(g, bySubset, bySet, dg[d], d, syms)
    ensures WellFormed(dg)
  {
    forall d | d in dg
      ensures dg[d].wildcard <= dg.Keys && forall c :: c in dg[d].labelled ==> dg[d].labelled[c] <= dg.Keys
    {
      ExploredInside(g, bySubset, bySet, dg[d], d, syms);
    }
  }

  /** With nothing left to investigate, every subset state has its transitions on every symbol. */
  lemma AllExplored(x: Context, low: int, p: Progress)
    requires Inv(x, low, p, x.h, x.syms) && p.toInvestigate == {}
    ensures forall d :: d in p.edges ==> Explored(x.g, p.bySubset, p.bySet, p.edges[d], d, x.syms)
  {
    forall d | d in p.edges ensures Explored(x.g, p.bySubset, p.bySet, p.edges[d], d, x.syms) {
      assert d in p.investigated;
      assert Explored(x.g, p.bySubset, p.bySet, p.edges[d], d, if d == x.h then x.syms else x.syms);
    }
  }

  /** With nothing left to investigate, the construction is a finished subset automaton. */
  lemma Finished(x: Context, low: int, p: Progress)
    requires Inv(x, low, p, x.h, x.syms) && p.toInvestigate == {} && Epsilon !in x.syms
    ensures SubsetAutomaton(x.g, x.nfaAcc, x.syms, p.bySubset, p.bySet, p.edges, p.accepting)
  {
    AllExplored(x, low, p);
    ExploredGraphWellFormed(x.g, p.bySubset, p.bySet, p.edges, x.syms);
  }

  /**
   * What one step of the worklist may do to the sets met and the work left:
   * the sets met only grow, and while no new set is met no new subset state
   * joins the worklist.
   */
  ghost predicate Extends(p0: Progress, p: Progress)
  {
    p0.bySet.Keys <= p.bySet.Keys && (p.bySet.Keys == p0.bySet.Keys ==> p.toInvestigate <= p0.toInvestigate)
  }

  lemma ExtendsTransitive(p0: Progress, p1: Progress, p2: Progress)
    requires Extends(p0, p1) && Extends(p1, p2)
    ensures Extends(p0, p2)
  {
  }

  /** Whether some state of S is one of the accepting states: the two early-exit loops of the source. */
  method AnyAccepting(S: set<StateId>, accepting: set<StateId>) returns (r: bool)
    ensures r <==> S * accepting != {}
  {
    var rest := S;
    while rest != {}
      invariant rest <= S
      invariant (S - rest) * accepting == {}
      decreases |rest|
    {
      NonEmptyHasMember(rest);
      var s :| s in rest;
      if s in accepting {
        assert s in S * accepting;
        return true;
      }
      assert S - (rest - {s}) == (S - rest) + {s};
      rest := rest - {s};
    }
    assert S - rest == S;
    return false;
  }

  /** Adding one state's closed successors to those of done gives those of done + {s}. */
  lemma ReachableStep(g: Graph, done: set<StateId>, s: StateId, c: char)
    requires WellFormed(g)
    ensures Closure(g, Step(g, done, c)) + Closure(g, Next(g, s, c)) == Closure(g, Step(g, done + {s}, c))
  {
    StepSingleton(g, s, c);
    StepUnion(g, done, {s}, c);
    ClosureUnion(g, Step(g, done, c), Step(g, {s}, c));
  }

  /**
   * `reachableFromAny`: the union, over every state of S, of the closure of
   * its successors on the symbol. By ClosureUnion this is one simulation step.
   */
  method ReachableFromAny(nfa: NFA, S: set<StateId>, symbol: char) returns (r: set<StateId>)
    requires nfa.Valid()
    ensures r == Advance(nfa.graph, S, symbol)
  {
    var g := nfa.graph;
    r := {};
    var rest := S;
    ClosureEmpty(g);
    while rest != {}
      invariant rest <= S
      invariant r == Closure(g, Step(g, S - rest, symbol))
      decreases |rest|
    {
      NonEmptyHasMember(rest);
      var s :| s in rest;
      ghost var done := S - rest;
      var reachableFromState := nfa.AddEpsilonTransitionsOfStates(Next(g, s, symbol));
      ReachableStep(g, done, s, symbol);
      TakeOne(S, rest, s);
      r := r + reachableFromState;
      rest := rest - {s};
    }
    assert S - rest == S;
  }

  /** The accepting subset states are subset states. */
  lemma SubsetAcceptingInside(g: Graph, accepting: set<StateId>, syms: set<char>, bySubset: map<StateId, set<StateId>>,
                              bySet: map<set<StateId>, StateId>, dg: Graph, dacc: set<StateId>)
    requires SubsetAutomaton(g, accepting, syms, bySubset, bySet, dg, dacc)
    ensures dacc <= dg.Keys && WellFormed(dg)
  {
    forall d | d in dacc ensures d in dg {
      assert d in bySubset;
    }
  }

  class DFAGenerator {
    /** The letters and digits, the shorthands, the basic operations and '/'. */
    const allPossibleSymbols: set<char>
    /** Complements already built, by the NFA object complemented; lookups go by NFA.equals. */
    var cache: map<NFA, NFA>
    var cacheEnabled: bool
    /** The id the next subset state gets. */
    var highestAvailable: int
    /** The id the generator was created with: every id it hands out is at most this one. */
    ghost const firstId: int

    /** Every state of n has an id this generator handed out, and n starts and accepts among its states. */
    ghost predicate HandedOut(n: NFA)
      reads this, n
    {
      n.start in n.graph && n.accepting <= n.graph.Keys && forall d :: d in n.graph ==> highestAvailable < d <= firstId
    }

    /** OwnMap.containsKey on the cache: some cached automaton is NFA.equals to nfa. */
    predicate Cached(nfa: NFA)
      reads this, cache.Keys, nfa
    {
      exists k :: k in cache && k.Equals(nfa)
    }

    /** The symbols are those of SymbolSet, and every complement kept in the cache is valid and handed out here. */
    ghost predicate Valid()
      reads this, cache.Values
    {
      && allPossibleSymbols == SymbolSet && highestAvailable <= firstId
      && forall k :: k in cache ==> cache[k].Valid() && HandedOut(cache[k])
    }

    /** `new DFAGenerator(highestAvailable)`: caching on. */
    constructor (highestAvailable: int)
      ensures Valid() && this.highestAvailable == highestAvailable && cacheEnabled && cache == map[]
      ensures firstId == highestAvailable
    {
      this.highestAvailable := highestAvailable;
      firstId := highestAvailable;
      cacheEnabled := true;
      cache := map[];
      allPossibleSymbols := SymbolSet;
    }

    /** `new DFAGenerator(highestAvailable, cacheEnabled)`; without caching there is no cache yet. */
    constructor WithCaching(highestAvailable: int, cacheEnabled: bool)
      ensures Valid() && this.highestAvailable == highestAvailable && this.cacheEnabled == cacheEnabled
      ensures cache == map[] && firstId == highestAvailable
    {
      this.highestAvailable := highestAvailable;
      firstId := highestAvailable;
      this.cacheEnabled := cacheEnabled;
      cache := map[];
      allPossibleSymbols := SymbolSet;
    }

    /** Turns caching on; a cache that already exists is kept. */
    method EnableCaching()
      modifies this
      ensures cacheEnabled && cache == old(cache) && highestAvailable == old(highestAvailable)
    {
      cacheEnabled := true;
    }

    method DisableCaching()
      modifies this
      ensures !cacheEnabled && cache == old(cache) && highestAvailable == old(highestAvailable)
    {
      cacheEnabled := false;
    }

    /**
     * The complement of nfa, from the cache when caching is on and an equal
     * automaton was complemented before; nfa itself, inverted in place, when
     * it is already a DFA; otherwise a new DFA built by the subset
     * construction, whose subset states get ids counting down from
     * highestAvailable.
     */
    method GenerateComplementDFA(nfa: NFA) returns (dfa: NFA, ghost bySubset: map<StateId, set<StateId>>,
                                                    ghost bySet: map<set<StateId>, StateId>, ghost found: NFA?)
      requires Valid() && nfa.Valid()
      modifies this, nfa
      ensures cacheEnabled == old(cacheEnabled)
      ensures Valid() && dfa.Valid()
      ensures old(cacheEnabled && Cached(nfa)) ==>
        && cache == old(cache) && highestAvailable == old(highestAvailable) && unchanged(nfa) && HandedOut(dfa)
        && found != null && found in cache && found.Equals(nfa) && dfa == cache[found]
      ensures !old(cacheEnabled && Cached(nfa)) && old(nfa.isDFA) ==>
        dfa == nfa && nfa.inverted == !old(nfa.inverted) && nfa.start == old(nfa.start)
        && nfa.isDFA && nfa.accepting == old(nfa.accepting) && nfa.graph == old(nfa.graph)
        && nfa.cacheEnabled == old(nfa.cacheEnabled)
        && cache == old(cache) && highestAvailable == old(highestAvailable)
      ensures !old(cacheEnabled && Cached(nfa)) && !old(nfa.isDFA) ==>
        && fresh(dfa) && unchanged(nfa)
        && dfa.Valid() && dfa.isDFA && !dfa.cacheEnabled && !dfa.inverted
        && SubsetAutomaton(nfa.graph, nfa.accepting, SymbolSet, bySubset, bySet, dfa.graph, dfa.accepting)
        && dfa.start == old(highestAvailable) && dfa.start in dfa.graph && HandedOut(dfa)
        && bySubset[dfa.start] == Closure(nfa.graph, {nfa.start})
        && highestAvailable < old(highestAvailable)
        && (forall d :: d in dfa.graph ==> highestAvailable < d <= old(highestAvailable))
        && (forall w :: OverSymbols(w, SymbolSet) ==>
              AcceptsSpec(dfa.graph, dfa.start, dfa.accepting, dfa.inverted, w)
              == !AcceptsSpec(nfa.graph, nfa.start, nfa.accepting, false, w))
        && cache == if old(cacheEnabled) then old(cache)[nfa := dfa] else old(cache)
    {
      bySubset, bySet, found := map[], map[], null;
      if cacheEnabled && Cached(nfa) {
        var k :| k in cache && k.Equals(nfa);
        return cache[k], bySubset, bySet, k;
      }
      if nfa.isDFA {
        nfa.Invert();
        return nfa, bySubset, bySet, found;
      }
      dfa, bySubset, bySet := FreshComplement(nfa);
    }

    /** generateComplementDFA past its two early returns: the subset construction, cached when caching is on. */
    method FreshComplement(nfa: NFA) returns (dfa: NFA, ghost bySubset: map<StateId, set<StateId>>,
                                              ghost bySet: map<set<StateId>, StateId>)
      requires Valid() && nfa.Valid()
      modifies this
      ensures cacheEnabled == old(cacheEnabled) && Valid()
      ensures fresh(dfa) && dfa.Valid() && dfa.isDFA && !dfa.cacheEnabled && !dfa.inverted
      ensures SubsetAutomaton(nfa.graph, nfa.accepting, SymbolSet, bySubset, bySet, dfa.graph, dfa.accepting)
      ensures dfa.start == old(highestAvailable) && dfa.start in dfa.graph && HandedOut(dfa)
      ensures bySubset[dfa.start] == Closure(nfa.graph, {nfa.start})
      ensures highestAvailable < old(highestAvailable)
      ensures forall d :: d in dfa.graph ==> highestAvailable < d <= old(highestAvailable)
      ensures forall w :: OverSymbols(w, SymbolSet) ==>
        AcceptsSpec(dfa.graph, dfa.start, dfa.accepting, dfa.inverted, w)
        == !AcceptsSpec(nfa.graph, nfa.start, nfa.accepting, false, w)
      ensures cache == if old(cacheEnabled) then old(cache)[nfa := dfa] else old(cache)
    {
      dfa, bySubset, bySet := SubsetConstruction(nfa);
      dfa.SetIsDFA(true);
      SubsetAcceptingInside(nfa.graph, nfa.accepting, SymbolSet, bySubset, bySet, dfa.graph, dfa.accepting);
      forall k | k in cache ensures HandedOut(cache[k]) {
        assert old(HandedOut(cache[k]));
      }
      if cacheEnabled {
        cache := cache[nfa := dfa];
      }
      ComplementEverywhere(nfa.graph, nfa.start, nfa.accepting, SymbolSet, bySubset, bySet,
                           dfa.graph, dfa.accepting, dfa.start);
    }

    /**
     * The subset construction of generateComplementDFA, before the result is
     * cached and marked as a DFA: the start subset state for the closure of
     * the start state, then the worklist.
     */
    method SubsetConstruction(nfa: NFA) returns (dfa: NFA, ghost bySubset: map<StateId, set<StateId>>,
                                                 ghost bySet: map<set<StateId>, StateId>)
      requires nfa.Valid() && allPossibleSymbols == SymbolSet
      modifies this
      ensures fresh(dfa) && dfa.Valid() && !dfa.inverted && dfa.cache == map[]
      ensures SubsetAutomaton(nfa.graph, nfa.accepting, SymbolSet, bySubset, bySet, dfa.graph, dfa.accepting)
      ensures dfa.start == old(highestAvailable) && dfa.start in dfa.graph
      ensures bySubset[dfa.start] == Closure(nfa.graph, {nfa.start})
      ensures highestAvailable < old(highestAvailable)
      ensures forall d :: d in dfa.graph ==> highestAvailable < d <= old(highestAvailable)
      ensures cacheEnabled == old(cacheEnabled) && cache == old(cache)
    {
      dfa := new NFA();
      var h := highestAvailable;
      highestAvailable := highestAvailable - 1;
      dfa.SetStartingState(h);
      var S0 := nfa.AddEpsilonTransitionsOfStates({nfa.start});
      ghost var x := Context(nfa.graph, nfa.accepting, {nfa.start} + nfa.graph.Keys, S0, h, SymbolSet);
      var startReachesAccepting := AnyAccepting(S0, nfa.accepting);
      var p := Progress(map[S0 := h], map[h := S0], map[h := NoEdges], if startReachesAccepting then {} else {h}, {h}, {});
      assert p == Initial(x);
      InitialInv(x, highestAvailable);
      p := Worklist(nfa, x, p);
      EpsilonNotSymbol();
      Finished(x, highestAvailable, p);
      dfa.SetAcceptingStates(p.accepting);
      dfa.SetTransitions(p.edges);
      bySubset, bySet := p.bySubset, p.bySet;
    }

    /** The `while` loop of generateComplementDFA: investigate subset states until none is left. */
    method Worklist(nfa: NFA, ghost x: Context, p0: Progress) returns (p: Progress)
      requires nfa.Valid() && x.g == nfa.graph && x.nfaAcc == nfa.accepting && x.syms == allPossibleSymbols
      requires x.U == {nfa.start} + nfa.graph.Keys
      requires Inv(x, highestAvailable, p0, x.h, x.syms)
      modifies this
      ensures Inv(x, highestAvailable, p, x.h, x.syms) && p.toInvestigate == {}
      ensures highestAvailable <= old(highestAvailable)
      ensures cacheEnabled == old(cacheEnabled) && cache == old(cache)
    {
      p := p0;
      while p.toInvestigate != {}
        invariant Inv(x, highestAvailable, p, x.h, x.syms)
        invariant highestAvailable <= old(highestAvailable)
        invariant cacheEnabled == old(cacheEnabled) && cache == old(cache)
        decreases |Powerset(x.U) - p.bySet.Keys|, |p.toInvestigate|
      {
        NonEmptyHasMember(p.toInvestigate);
        var current :| current in p.toInvestigate;
        ghost var before := p;
        StartInvestigating(x, highestAvailable, p, current);
        p := p.(investigated := p.investigated + {current}, toInvestigate := p.toInvestigate - {current});
        p := InvestigateSymbols(nfa, x, p, current);
        KnownSetsBounded(x, highestAvailable, p, x.h, x.syms);
        WorklistShrinks(Powerset(x.U), before.bySet.Keys, p.bySet.Keys, before.toInvestigate, p.toInvestigate, current);
      }
    }

    /**
     * The `for` loop over allPossibleSymbols for one subset state: each
     * symbol gets its transition, and a set not met before gets a new subset
     * state that joins the worklist.
     */
    method InvestigateSymbols(nfa: NFA, ghost x: Context, p0: Progress, current: StateId) returns (p: Progress)
      requires nfa.Valid() && x.g == nfa.graph && x.nfaAcc == nfa.accepting && x.syms == allPossibleSymbols
      requires x.g.Keys <= x.U
      requires Inv(x, highestAvailable, p0, current, {}) && current in p0.investigated
      modifies this
      ensures Inv(x, highestAvailable, p, x.h, x.syms)
      ensures highestAvailable <= old(highestAvailable)
      ensures Extends(p0, p)
      ensures cacheEnabled == old(cacheEnabled) && cache == old(cache)
    {
      p := p0;
      var rest := allPossibleSymbols;
      NoneDone(x.syms);
      while rest != {}
        invariant rest <= x.syms
        invariant Inv(x, highestAvailable, p, current, x.syms - rest)
        invariant current in p.investigated
        invariant highestAvailable <= old(highestAvailable)
        invariant Extends(p0, p)
        invariant cacheEnabled == old(cacheEnabled) && cache == old(cache)
        decreases |rest|
      {
        NonEmptyHasSymbol(rest);
        var symbol :| symbol in rest;
        ghost var before := p;
        p := InvestigateSymbol(nfa, x, p, current, rest, symbol);
        ExtendsTransitive(p0, before, p);
        rest := rest - {symbol};
      }
      AllDone(x.syms);
      DoneInvestigating(x, highestAvailable, p, current);
    }

    /** The body of the `for` loop over allPossibleSymbols: the set reached on symbol, and its transition. */
    method InvestigateSymbol(nfa: NFA, ghost x: Context, p0: Progress, current: StateId, ghost rest: set<char>,
                             symbol: char) returns (p: Progress)
      requires nfa.Valid() && x.g == nfa.graph && x.nfaAcc == nfa.accepting && x.g.Keys <= x.U
      requires Inv(x, highestAvailable, p0, current, x.syms - rest) && current in p0.investigated
      requires symbol in rest && rest <= x.syms
      modifies this
      ensures Inv(x, highestAvailable, p, current, x.syms - (rest - {symbol})) && current in p.investigated
      ensures highestAvailable <= old(highestAvailable)
      ensures Extends(p0, p)
      ensures cacheEnabled == old(cacheEnabled) && cache == old(cache)
    {
      var reachableFromAny := ReachableFromAny(nfa, p0.bySubset[current], symbol);
      ghost var low := highestAvailable;
      p := AddTransition(nfa, x, p0, current, symbol, reachableFromAny);
      SymbolTaken(x.syms, rest, symbol);
      TransitionKeepsInv(x, low, p0, current, x.syms - rest, symbol, reachableFromAny, highestAvailable,
                         x.syms - (rest - {symbol}));
    }

    /**
     * One symbol of one subset state: find or mint the subset state of the
     * set reached, record the transition, mark it accepting when the set
     * holds no accepting state, and queue it unless already investigated.
     */
    method AddTransition(nfa: NFA, ghost x: Context, p0: Progress, current: StateId, symbol: char,
                         reachableFromAny: set<StateId>) returns (p: Progress)
      requires x.nfaAcc == nfa.accepting && current in p0.edges
      modifies this
      ensures p == AfterTransition(x, p0, current, symbol, reachableFromAny, old(highestAvailable))
      ensures highestAvailable == if reachableFromAny in p0.bySet then old(highestAvailable) else old(highestAvailable) - 1
      ensures cacheEnabled == old(cacheEnabled) && cache == old(cache)
    {
      p := p0;
      var nextSubsetState;
      if reachableFromAny in p.bySet {
        nextSubsetState := p.bySet[reachableFromAny];
      } else {
        nextSubsetState := highestAvailable;
        highestAvailable := highestAvailable - 1;
        p := p.(bySet := p.bySet[reachableFromAny := nextSubsetState],
                bySubset := p.bySubset[nextSubsetState := reachableFromAny],
                edges := p.edges[nextSubsetState := NoEdges]);
      }
      p := p.(edges := p.edges[current := AddNext(p.edges[current], symbol, nextSubsetState)]);
      var reachesAccepting := AnyAccepting(reachableFromAny, nfa.accepting);
      if !reachesAccepting {
        p := p.(accepting := p.accepting + {nextSubsetState});
      }
      if nextSubsetState !in p.investigated {
        p := p.(toInvestigate := p.toInvestigate + {nextSubsetState});
      }
    }
  }
}
