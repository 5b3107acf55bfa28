/**
 * The languages of a few compiled patterns, as NFAGeneratorTest expects
 * them: the automaton generateNFA builds for each normalised pattern, and
 * which words it accepts or rejects.
 */
module GeneratorExamples {
  import opened Wrappers
  import opened Automaton
  import opened NFAGeneration
  import Utilities
  import PatternProcessing

  // ---------------------------------------------------------------------------
  // One pass of the scan, for the two kinds of symbol the examples hold
  // ---------------------------------------------------------------------------

  /** A letter of the alphabet that is no operation pushes its leaf and moves on. */
  lemma ReadLetter(A: set<char>, O: set<char>, p: string, i: nat, m: Machine)
    requires i < |p| && '!' !in p && '!' !in m.ops
    requires p[i] in A && p[i] !in O && p[i] !in {'/', '#', '.'}
    ensures Read(Current, A, O, p, i, m) == Ok((PushSymbol(m, p[i]), i + 1))
    ensures Scanned(Current, A, O, p, i, m) == Scanned(Current, A, O, p, i + 1, PushSymbol(m, p[i]))
  {
  }

  /** An operation that is no letter reduces the operation stack and is pushed onto it. */
  lemma ReadOperation(A: set<char>, O: set<char>, p: string, i: nat, m: Machine, reduced: Machine)
    requires i < |p| && '!' !in p && '!' !in m.ops
    requires p[i] in O && p[i] !in A && p[i] !in {'/', '#', '.'}
    requires Reduced(m, p[i]) == Ok(reduced)
    ensures Read(Current, A, O, p, i, m) == Ok((reduced.(ops := reduced.ops + [p[i]]), i + 1))
    ensures Scanned(Current, A, O, p, i, m) == Scanned(Current, A, O, p, i + 1, reduced.(ops := reduced.ops + [p[i]]))
  {
  }

  /** An operation that is no letter, read where nothing on the stack takes precedence over it, is only pushed. */
  lemma ReadPushed(A: set<char>, O: set<char>, p: string, i: nat, m: Machine)
    requires i < |p| && '!' !in p && '!' !in m.ops
    requires p[i] in O && p[i] !in A && p[i] !in {'/', '#', '.'}
    requires m.ops == [] || !HasPrecedence(Last(m.ops), p[i])
    ensures Scanned(Current, A, O, p, i, m) == Scanned(Current, A, O, p, i + 1, m.(ops := m.ops + [p[i]]))
  {
    assert Reduced(m, p[i]) == Ok(m);
    ReadOperation(A, O, p, i, m, m);
  }

  /** An operation that is no letter, read last, ends the scan once it is pushed. */
  lemma ReadLastOperation(A: set<char>, O: set<char>, p: string, m: Machine, reduced: Machine)
    requires |p| >= 1 && '!' !in p && '!' !in m.ops
    requires p[|p| - 1] in O && p[|p| - 1] !in A && p[|p| - 1] !in {'/', '#', '.'}
    requires Reduced(m, p[|p| - 1]) == Ok(reduced)
    ensures Scanned(Current, A, O, p, |p| - 1, m) == Ok(reduced.(ops := reduced.ops + [p[|p| - 1]]))
  {
    ReadOperation(A, O, p, |p| - 1, m, reduced);
    ScanEnd(A, O, p, reduced.(ops := reduced.ops + [p[|p| - 1]]));
  }

  /** The scan ends at the end of the pattern with the machine it has. */
  lemma ScanEnd(A: set<char>, O: set<char>, p: string, m: Machine)
    requires '!' !in p && '!' !in m.ops
    ensures Scanned(Current, A, O, p, |p|, m) == Ok(m)
  {
  }

  // ---------------------------------------------------------------------------
  // The first three symbols of `a*`, `a|b` and `a&b*`
  // ---------------------------------------------------------------------------

  /** The leaf of `a`, on states 0 and 1. */
  const LeafA: Machine := Machine([], [PairFragment(0)], SymbolGlue(map[], 0, 'a'), 2)

  /** The leaf of `a` with an operation pushed after it. */
  function LeafAThen(op: char): Machine
  {
    Machine([op], [PairFragment(0)], SymbolGlue(map[], 0, 'a'), 2)
  }

  /** The leaves of `a` and `b` with an operation between them on the operation stack. */
  function LeavesAfter(op: char): Machine
  {
    Machine([op], [PairFragment(0), PairFragment(2)], LeavesAB, 4)
  }

  /** A pattern starting with `a` pushes its leaf first. */
  lemma ScanLeadingA(A: set<char>, O: set<char>, p: string)
    requires |p| >= 1 && p[0] == 'a' && '!' !in p && 'a' in A && 'a' !in O
    ensures Scanned(Current, A, O, p, 0, Initial) == Scanned(Current, A, O, p, 1, LeafA)
  {
    ReadLetter(A, O, p, 0, Initial);
    assert PushSymbol(Initial, 'a') == LeafA;
  }

  /** An operation after the leading `a` is pushed onto the empty operation stack. */
  lemma ScanOperationAfterA(A: set<char>, O: set<char>, p: string, op: char)
    requires |p| >= 2 && p[1] == op && '!' !in p && op in O && op !in A && op !in {'/', '#', '.'}
    ensures Scanned(Current, A, O, p, 1, LeafA) == Scanned(Current, A, O, p, 2, LeafAThen(op))
  {
    ReadPushed(A, O, p, 1, LeafA);
    assert LeafA.(ops := [] + [p[1]]) == LeafAThen(op);
  }

  /** A `b` after that operation pushes its leaf on states 2 and 3. */
  lemma ScanBAfter(A: set<char>, O: set<char>, p: string, op: char)
    requires |p| >= 3 && p[2] == 'b' && '!' !in p && op != '!' && 'b' in A && 'b' !in O
    ensures Scanned(Current, A, O, p, 2, LeafAThen(op)) == Scanned(Current, A, O, p, 3, LeavesAfter(op))
  {
    ReadLetter(A, O, p, 2, LeafAThen(op));
    assert PushSymbol(LeafAThen(op), 'b') == LeavesAfter(op);
  }

  /** generateNFA on a scanned and drained pattern: the automaton left on top. */
  lemma CompiledOf(A: set<char>, O: set<char>, p: string, m: Machine, d: Machine)
    requires '!' !in p && Scanned(Current, A, O, p, 0, Initial) == Ok(m)
    requires Drained(m) == Ok(d) && d.automata != []
    ensures Compiled(Current, A, O, p) == Ok(d)
  {
  }

  /** evaluate on an operation other than `)`: the operation is popped and applied. */
  lemma EvaluatedTop(m: Machine)
    requires '!' !in m.ops && m.ops != [] && Last(m.ops) != ')'
    ensures Last(m.ops) != '!'
    ensures Evaluated(m) == Apply(Last(m.ops), m.(ops := AllButLast(m.ops)))
  {
    assert Last(m.ops) == m.ops[|m.ops| - 1];
  }

  /** Draining a machine with operations left evaluates once and drains the rest. */
  lemma DrainedStep(m: Machine, next: Machine)
    requires '!' !in m.ops && m.ops != [] && Evaluated(m) == Ok(next)
    ensures Drained(m) == Drained(next)
  {
  }

  /** Draining a lone star over a lone automaton: the star of that automaton. */
  lemma DrainedLastStar(g: Graph, f: Fragment, low: int)
    ensures Drained(Machine(['*'], [f], g, low)) == Ok(Machine([], [StarredAt(f, low)], StarAt(g, low, f), low + 2))
  {
    var m := Machine(['*'], [f], g, low);
    EvaluatedTop(m);
    assert m.(ops := AllButLast(m.ops)) == Machine([], [] + [f], g, low);
    StarredTop([], [], f, g, low);
    var d := Machine([], [StarredAt(f, low)], StarAt(g, low, f), low + 2);
    assert [] + [StarredAt(f, low)] == [StarredAt(f, low)];
    DrainedStep(m, d);
  }

  /** Draining a lone union over two automata: their union. */
  lemma DrainedLastUnion(g: Graph, first: Fragment, second: Fragment, low: int)
    ensures Drained(Machine(['|'], [first, second], g, low))
            == Ok(Machine([], [PairFragment(low)], UnionAt(g, low, first, second), low + 2))
  {
    var m := Machine(['|'], [first, second], g, low);
    EvaluatedTop(m);
    assert m.(ops := AllButLast(m.ops)) == Machine([], [] + [first, second], g, low);
    UnitedTop([], [], first, second, g, low);
    var d := Machine([], [PairFragment(low)], UnionAt(g, low, first, second), low + 2);
    assert [] + [PairFragment(low)] == [PairFragment(low)];
    DrainedStep(m, d);
  }

  /** Draining a lone concatenation over two automata: their concatenation. */
  lemma DrainedLastConcatenation(g: Graph, first: Fragment, second: Fragment, low: int)
    ensures Drained(Machine(['&'], [first, second], g, low))
            == Ok(Machine([], [ConcatFragment(first, second)], ConcatGlue(g, first, second), low))
  {
    var m := Machine(['&'], [first, second], g, low);
    EvaluatedTop(m);
    assert m.(ops := AllButLast(m.ops)) == Machine([], [] + [first, second], g, low);
    ConcatenatedTop([], [], first, second, g, low);
    var d := Machine([], [ConcatFragment(first, second)], ConcatGlue(g, first, second), low);
    assert [] + [ConcatFragment(first, second)] == [ConcatFragment(first, second)];
    DrainedStep(m, d);
  }

  /** A star above another operation is evaluated first, over the automaton on top. */
  lemma EvaluatedStarAbove(op: char, g: Graph, first: Fragment, f: Fragment, low: int)
    requires op != '!'
    ensures Evaluated(Machine([op, '*'], [first, f], g, low))
            == Ok(Machine([op], [first, StarredAt(f, low)], StarAt(g, low, f), low + 2))
  {
    var m := Machine([op, '*'], [first, f], g, low);
    EvaluatedTop(m);
    assert m.(ops := AllButLast(m.ops)) == Machine([op], [first] + [f], g, low);
    StarredTop([op], [first], f, g, low);
    assert [first] + [StarredAt(f, low)] == [first, StarredAt(f, low)];
  }

  /** evaluateKleeneStar on the automaton on top. */
  lemma StarredTop(ops: seq<char>, rest: seq<Fragment>, f: Fragment, g: Graph, low: int)
    ensures Starred(Machine(ops, rest + [f], g, low)) == Ok(Machine(ops, rest + [StarredAt(f, low)], StarAt(g, low, f), low + 2))
  {
    var s := rest + [f];
    assert Last(s) == f && AllButLast(s) == rest;
    var r := Starred(Machine(ops, s, g, low));
    assert r.value.automata == rest + [StarredAt(f, low)];
    assert r.value.graph == StarAt(g, low, f);
    assert r.value.ops == ops && r.value.low == low + 2;
    assert r.value == Machine(ops, rest + [StarredAt(f, low)], StarAt(g, low, f), low + 2);
  }

  /** evaluateUnion on the two automata on top. */
  lemma UnitedTop(ops: seq<char>, rest: seq<Fragment>, first: Fragment, second: Fragment, g: Graph, low: int)
    ensures Unite(Machine(ops, rest + [first, second], g, low))
            == Ok(Machine(ops, rest + [PairFragment(low)], UnionAt(g, low, first, second), low + 2))
  {
    var s := rest + [first, second];
    assert s[|s| - 2] == first && s[|s| - 1] == second && s[..|s| - 2] == rest;
    var r := Unite(Machine(ops, s, g, low));
    assert r.value.automata == rest + [PairFragment(low)];
    assert r.value.graph == UnionAt(g, low, first, second);
    assert r.value.ops == ops && r.value.low == low + 2;
    assert r.value == Machine(ops, rest + [PairFragment(low)], UnionAt(g, low, first, second), low + 2);
  }

  /** evaluateConcatenation on the two automata on top. */
  lemma ConcatenatedTop(ops: seq<char>, rest: seq<Fragment>, first: Fragment, second: Fragment, g: Graph, low: int)
    ensures Concatenate(Machine(ops, rest + [first, second], g, low))
            == Ok(Machine(ops, rest + [ConcatFragment(first, second)], ConcatGlue(g, first, second), low))
  {
    var s := rest + [first, second];
    assert s[|s| - 2] == first && s[|s| - 1] == second && s[..|s| - 2] == rest;
    var r := Concatenate(Machine(ops, s, g, low));
    assert r.value.automata == rest + [ConcatFragment(first, second)];
    assert r.value.graph == ConcatGlue(g, first, second);
    assert r.value.ops == ops && r.value.low == low;
    assert r.value == Machine(ops, rest + [ConcatFragment(first, second)], ConcatGlue(g, first, second), low);
  }

  /** What `accepts` answers for the NFA generateNFA returns with fragment f over edges g. */
  ghost predicate Accepts(g: Graph, f: Fragment, w: string)
  {
    WellFormed(g) && AcceptsSpec(g, f.start, f.accepting, f.inverted, w)
  }

  /** n copies of c. */
  function Repeat(c: char, n: nat): string
  {
    seq(n, _ => c)
  }

  /** n one-symbol words, one after another, are n copies of the symbol. */
  lemma {:induction false} ConcatenateCopies(c: char, n: nat)
    ensures Concatenation(seq(n, _ => [c])) == Repeat(c, n)
  {
    if n > 0 {
      var ws := seq(n, _ => [c]);
      assert ws[1..] == seq(n - 1, _ => [c]);
      ConcatenateCopies(c, n - 1);
      assert Repeat(c, n) == [c] + Repeat(c, n - 1);
    }
  }

  /** A word holding a symbol with no edge anywhere is rejected, whatever the automaton starts and accepts with. */
  lemma NowhereRejected(g: Graph, f: Fragment, w: string, k: nat)
    requires WellFormed(g) && k < |w| && forall s :: Next(g, s, w[k]) == {}
    ensures !AcceptsSpec(g, f.start, f.accepting, false, w)
  {
    AbsentSymbolRejected(g, Closure(g, {f.start}), w, k);
    RunIsFinalFrontier(g, Closure(g, {f.start}), w, f.accepting);
  }

  /**
   * One symbol read from within R ends within R2 when every move of R on c
   * lands in R2 and R2 is closed under moves that read nothing.
   */
  lemma AdvanceWithin(g: Graph, F: set<StateId>, R: set<StateId>, c: char, R2: set<StateId>)
    requires WellFormed(g) && F <= R && EpsilonClosed(g, R2)
    requires forall s :: s in R ==> Next(g, s, c) <= R2
    ensures Advance(g, F, c) <= R2
  {
    ClosureLeast(g, Step(g, F, c), R2);
  }

  // ---------------------------------------------------------------------------
  // a*
  // ---------------------------------------------------------------------------

  /** The automaton of `a*`: the leaf for `a` on states 0 and 1, starred with 2 and 3. */
  const StarGraph: Graph := StarAt(SymbolGlue(map[], 0, 'a'), 2, PairFragment(0))
  const StarOfA: Fragment := StarredAt(PairFragment(0), 2)

  /** The machine after scanning `a*`: the leaf for `a`, the star on the operation stack. */
  const ScannedStar: Machine := Machine(['*'], [PairFragment(0)], SymbolGlue(map[], 0, 'a'), 2)

  /** Scanning `a*` from nothing. */
  lemma ScanStar()
    ensures Scanned(Current, Utilities.DefaultAlphabet, Utilities.DefaultBasicOperations, "a*", 0, Initial)
            == Ok(ScannedStar)
  {
    var A, O := Utilities.DefaultAlphabet, Utilities.DefaultBasicOperations;
    var p := "a*";
    assert 'a' in A && 'a' !in O && '*' !in A && '*' in O;
    ScanLeadingA(A, O, p);
    ScanOperationAfterA(A, O, p, '*');
    ScanEnd(A, O, p, ScannedStar);
  }

  /** Draining `a*`: the star of the leaf, over states 2 and 3. */
  lemma DrainedStar()
    ensures Drained(ScannedStar) == Ok(Machine([], [StarOfA], StarGraph, 4))
  {
    DrainedLastStar(ScannedStar.graph, PairFragment(0), 2);
  }

  /** generateNFA on `a*`: the leaf, then the star drained from the operation stack. */
  lemma CompiledStar()
    ensures Compiled(Current, Utilities.DefaultAlphabet, Utilities.DefaultBasicOperations, "a*")
            == Ok(Machine([], [StarOfA], StarGraph, 4))
  {
    assert '!' !in "a*";
    ScanStar();
    DrainedStar();
    CompiledOf(Utilities.DefaultAlphabet, Utilities.DefaultBasicOperations, "a*", ScannedStar,
               Machine([], [StarOfA], StarGraph, 4));
  }

  /** The edges of `a*`: `a` from 0 to 1, and from 2 and 1 without reading to 0 and 3. */
  lemma StarNext()
    ensures WellFormed(StarGraph)
    ensures forall s, d :: Next(StarGraph, s, d) ==
                            (if s == 0 && d == 'a' then {1} else {}) + (if (s == 1 || s == 2) && d == Epsilon then {0, 3} else {})
  {
    var g0 := SymbolGlue(map[], 0, 'a');
    LinkAllNext(map[], {0}, 'a', {1});
    LinkAllNext(g0, {2} + {1}, Epsilon, {0, 3});
  }

  /** `a*` accepts every number of `a`s, none included. */
  lemma StarAcceptsRepetitions(n: nat)
    ensures Accepts(StarGraph, StarOfA, Repeat('a', n))
  {
    var g0 := SymbolGlue(map[], 0, 'a');
    SymbolLeafRecognises(map[], 0, 1, 'a');
    var ws := seq(n, _ => ['a']);
    StarSound(g0, 2, 3, PairFragment(0), ws);
    ConcatenateCopies('a', n);
    StarNext();
    RecognisesIsAccepts(StarGraph, StarOfA, Repeat('a', n));
  }

  /** `a*` rejects every word with a symbol other than `a` (and the empty symbol). */
  lemma StarRejectsOthers(w: string, k: nat)
    requires k < |w| && w[k] != 'a' && w[k] != Epsilon
    ensures !Accepts(StarGraph, StarOfA, w)
  {
    StarNext();
    NowhereRejected(StarGraph, StarOfA, w, k);
  }

  /** NFAGeneratorTest: `a*` accepts `""` and `"aaaaaa"` and rejects `"bb"`. */
  lemma StarExamples()
    ensures Accepts(StarGraph, StarOfA, "")
    ensures Accepts(StarGraph, StarOfA, "aaaaaa")
    ensures !Accepts(StarGraph, StarOfA, "bb")
  {
    StarAcceptsRepetitions(0);
    assert Repeat('a', 0) == "";
    StarAcceptsRepetitions(6);
    assert Repeat('a', 6) == "aaaaaa";
    StarRejectsOthers("bb", 0);
  }

  /** The normalised form of `a*` is `a*` itself. */
  lemma NormalisedStar()
    ensures PatternProcessing.Elongated(Utilities.DefaultAlphabet, Utilities.DefaultShorthands, "a*") == Ok("a*")
  {
    PatternProcessing.ElongatedPlain(Utilities.DefaultAlphabet, Utilities.DefaultShorthands, "a*");
    assert "a*"[1..] == "*" && "a*"[0] == 'a' && "a*"[1] == '*';
    assert !PatternProcessing.NeedsConcatenation(Utilities.DefaultAlphabet, 'a', '*');
    assert PatternProcessing.WithConcatenation(Utilities.DefaultAlphabet, "*") == "*";
    assert PatternProcessing.WithConcatenation(Utilities.DefaultAlphabet, "a*") == ['a'] + "*";
    assert ['a'] + "*" == "a*";
    assert PatternProcessing.Elongated(Utilities.DefaultAlphabet, Utilities.DefaultShorthands, "a*")
           == Ok(PatternProcessing.WithConcatenation(Utilities.DefaultAlphabet, "a*"));
  }

  // ---------------------------------------------------------------------------
  // a|b
  // ---------------------------------------------------------------------------

  /** The leaves for `a` on states 0 and 1 and for `b` on 2 and 3. */
  const LeavesAB: Graph := SymbolGlue(SymbolGlue(map[], 0, 'a'), 2, 'b')
  /** The automaton of `a|b`: both leaves, united with 4 and 5. */
  const UnionGraph: Graph := UnionAt(LeavesAB, 4, PairFragment(0), PairFragment(2))

  /** What linking does to the successors of one state on one symbol. */
  lemma LinkedNext(g: Graph, S: set<StateId>, c: char, T: set<StateId>, s: StateId, d: char)
    ensures Next(LinkAll(g, S, c, T), s, d) == Next(g, s, d) + (if s in S && d == c then T else {})
  {
    LinkAllNext(g, S, c, T);
  }

  /** The two leaves: `a` from 0 to 1 and `b` from 2 to 3, and the first leaf's edges are kept. */
  lemma LeavesNext()
    ensures WellFormed(LeavesAB) && Grows(SymbolGlue(map[], 0, 'a'), LeavesAB)
    ensures forall s, d :: Next(LeavesAB, s, d) ==
                            (if s == 0 && d == 'a' then {1} else {}) + (if s == 2 && d == 'b' then {3} else {})
  {
    LinkAllNext(map[], {0}, 'a', {1});
    LinkAllNext(SymbolGlue(map[], 0, 'a'), {2}, 'b', {3});
  }

  /** Both leaves recognise their symbol in the edges of both. */
  lemma LeavesRecognise()
    ensures Recognises(LeavesAB, PairFragment(0), "a") && Recognises(LeavesAB, PairFragment(2), "b")
  {
    SymbolLeafRecognises(map[], 0, 1, 'a');
    LeavesNext();
    RecognisesGrows(SymbolGlue(map[], 0, 'a'), LeavesAB, PairFragment(0), "a");
    SymbolLeafRecognises(SymbolGlue(map[], 0, 'a'), 2, 3, 'b');
  }

  /** The machine after scanning `a|b`: both leaves on the automaton stack, the union on the operation stack. */
  const ScannedUnion: Machine := Machine(['|'], [PairFragment(0), PairFragment(2)], LeavesAB, 4)

  /** Scanning `a|b` from nothing. */
  lemma ScanUnion()
    ensures Scanned(Current, Utilities.DefaultAlphabet, Utilities.DefaultBasicOperations, "a|b", 0, Initial)
            == Ok(ScannedUnion)
  {
    var A, O := Utilities.DefaultAlphabet, Utilities.DefaultBasicOperations;
    var p := "a|b";
    assert 'a' in A && 'a' !in O && 'b' in A && 'b' !in O && '|' !in A && '|' in O;
    ScanLeadingA(A, O, p);
    ScanOperationAfterA(A, O, p, '|');
    ScanBAfter(A, O, p, '|');
    ScanEnd(A, O, p, ScannedUnion);
  }

  /** Draining `a|b`: the union of the leaves, over states 4 and 5. */
  lemma DrainedUnion()
    ensures Drained(ScannedUnion) == Ok(Machine([], [PairFragment(4)], UnionGraph, 6))
  {
    DrainedLastUnion(ScannedUnion.graph, PairFragment(0), PairFragment(2), 4);
  }

  /** generateNFA on `a|b`: the two leaves, then the union drained from the operation stack. */
  lemma CompiledUnion()
    ensures Compiled(Current, Utilities.DefaultAlphabet, Utilities.DefaultBasicOperations, "a|b")
            == Ok(Machine([], [PairFragment(4)], UnionGraph, 6))
  {
    assert '!' !in "a|b";
    ScanUnion();
    DrainedUnion();
    CompiledOf(Utilities.DefaultAlphabet, Utilities.DefaultBasicOperations, "a|b", ScannedUnion,
               Machine([], [PairFragment(4)], UnionGraph, 6));
  }

  /** The normalised form of `a|b` is `a|b` itself. */
  lemma NormalisedUnion()
    ensures PatternProcessing.Elongated(Utilities.DefaultAlphabet, Utilities.DefaultShorthands, "a|b") == Ok("a|b")
  {
    PatternProcessing.ElongatedPlain(Utilities.DefaultAlphabet, Utilities.DefaultShorthands, "a|b");
    PatternProcessing.ConcatenationNotAroundUnion();
  }

  /** The edges of `a|b`: the leaves, 4 to both starts and both finishes to 5 without reading. */
  lemma UnionNext(s: StateId, d: char)
    ensures WellFormed(UnionGraph)
    ensures Next(UnionGraph, s, d) ==
            (if s == 0 && d == 'a' then {1} else {}) + (if s == 2 && d == 'b' then {3} else {})
            + (if s == 4 && d == Epsilon then {0, 2} else {})
            + (if (s == 1 || s == 3) && d == Epsilon then {5} else {})
  {
    LeavesNext();
    var g := LinkAll(LeavesAB, {4}, Epsilon, {0, 2});
    LinkedNext(LeavesAB, {4}, Epsilon, {0, 2}, s, d);
    LinkedNext(g, {1} + {3}, Epsilon, {5}, s, d);
  }

  /** NFAGeneratorTest: `a|b` accepts `"a"` and `"b"`. */
  lemma UnionAcceptsEither()
    ensures Accepts(UnionGraph, PairFragment(4), "a") && Accepts(UnionGraph, PairFragment(4), "b")
  {
    LeavesRecognise();
    LeavesNext();
    UnionSound(LeavesAB, 4, 5, PairFragment(0), PairFragment(2), "a");
    UnionSound(LeavesAB, 4, 5, PairFragment(0), PairFragment(2), "b");
    UnionNext(4, Epsilon);
    RecognisesIsAccepts(UnionGraph, PairFragment(4), "a");
    RecognisesIsAccepts(UnionGraph, PairFragment(4), "b");
  }

  /** The edges of `a|b`, as UnionNext lists them. */
  ghost predicate UnionEdges(g: Graph)
  {
    forall s, d :: Next(g, s, d) ==
                   (if s == 0 && d == 'a' then {1} else {}) + (if s == 2 && d == 'b' then {3} else {})
                   + (if s == 4 && d == Epsilon then {0, 2} else {})
                   + (if (s == 1 || s == 3) && d == Epsilon then {5} else {})
  }

  /** The automaton generateNFA builds for `a|b` has exactly those edges. */
  lemma UnionEdgesHold()
    ensures WellFormed(UnionGraph) && UnionEdges(UnionGraph)
  {
    UnionNext(0, 'a');
    forall s, d
      ensures Next(UnionGraph, s, d) ==
              (if s == 0 && d == 'a' then {1} else {}) + (if s == 2 && d == 'b' then {3} else {})
              + (if s == 4 && d == Epsilon then {0, 2} else {})
              + (if (s == 1 || s == 3) && d == Epsilon then {5} else {})
    {
      UnionNext(s, d);
    }
  }

  /** The moves without reading, in an automaton with the edges of `a|b`, from the states the rejected words meet. */
  lemma UnionEpsilonMet(g: Graph)
    requires UnionEdges(g)
    ensures Next(g, 4, Epsilon) == {0, 2} && Next(g, 0, Epsilon) == {} && Next(g, 2, Epsilon) == {}
    ensures Next(g, 1, Epsilon) == {5} && Next(g, 5, Epsilon) == {}
  {
    assert Next(g, 4, Epsilon) == {} + {} + {0, 2} + {};
    assert Next(g, 0, Epsilon) == {} + {} + {} + {};
    assert Next(g, 2, Epsilon) == {} + {} + {} + {};
    assert Next(g, 1, Epsilon) == {} + {} + {} + {5};
    assert Next(g, 5, Epsilon) == {} + {} + {} + {};
  }

  /** The moves on `a` and `b`, in an automaton with the edges of `a|b`, from the states the rejected words meet. */
  lemma UnionSymbolsMet(g: Graph)
    requires UnionEdges(g)
    ensures Next(g, 4, 'a') == {} && Next(g, 0, 'a') == {1} && Next(g, 2, 'a') == {}
    ensures Next(g, 1, 'b') == {} && Next(g, 5, 'b') == {}
  {
    assert Next(g, 4, 'a') == {} + {} + {} + {};
    assert Next(g, 0, 'a') == {1} + {} + {} + {};
    assert Next(g, 2, 'a') == {} + {} + {} + {};
    assert Next(g, 1, 'b') == {} + {} + {} + {};
    assert Next(g, 5, 'b') == {} + {} + {} + {};
  }

  /** Without reading, a start 4 whose only moves go to 0 and 2, which have none, stays among 4, 0 and 2. */
  lemma ShapeStart(g: Graph)
    requires WellFormed(g)
    requires Next(g, 4, Epsilon) == {0, 2} && Next(g, 0, Epsilon) == {} && Next(g, 2, Epsilon) == {}
    ensures Closure(g, {4}) <= {4, 0, 2}
  {
    assert EpsilonClosed(g, {4, 0, 2});
    ClosureLeast(g, {4}, {4, 0, 2});
  }

  /** Of 4, 0 and 2 only 0 reads `a`, into 1, and 1 moves on only to 5. */
  lemma ShapeAfterA(g: Graph, F: set<StateId>)
    requires WellFormed(g) && F <= {4, 0, 2}
    requires Next(g, 1, Epsilon) == {5} && Next(g, 5, Epsilon) == {}
    requires Next(g, 4, 'a') == {} && Next(g, 0, 'a') == {1} && Next(g, 2, 'a') == {}
    ensures Advance(g, F, 'a') <= {1, 5}
  {
    assert EpsilonClosed(g, {1, 5});
    AdvanceWithin(g, F, {4, 0, 2}, 'a', {1, 5});
  }

  /** Neither 1 nor 5 reads `b`. */
  lemma ShapeAfterB(g: Graph, F: set<StateId>)
    requires WellFormed(g) && F <= {1, 5}
    requires Next(g, 1, 'b') == {} && Next(g, 5, 'b') == {}
    ensures Advance(g, F, 'b') == {}
  {
    AdvanceWithin(g, F, {1, 5}, 'b', {});
  }

  /**
   * An automaton whose start 4 reaches only 0 and 2 without reading, of
   * which only 0 reads `a` (into 1, then 5), and where neither 1 nor 5
   * reads `b`, rejects `""` and `"ab"` when 5 is its one accepting state.
   */
  lemma UnionShapeRejects(g: Graph)
    requires WellFormed(g)
    requires Next(g, 4, Epsilon) == {0, 2} && Next(g, 0, Epsilon) == {} && Next(g, 2, Epsilon) == {}
    requires Next(g, 1, Epsilon) == {5} && Next(g, 5, Epsilon) == {}
    requires Next(g, 4, 'a') == {} && Next(g, 0, 'a') == {1} && Next(g, 2, 'a') == {}
    requires Next(g, 1, 'b') == {} && Next(g, 5, 'b') == {}
    ensures !AcceptsSpec(g, 4, {5}, false, "") && !AcceptsSpec(g, 4, {5}, false, "ab")
  {
    var start := Closure(g, {4});
    ShapeStart(g);
    var afterA := Advance(g, start, 'a');
    ShapeAfterA(g, start);
    ShapeAfterB(g, afterA);
    assert Frontier(g, start, "ab") == {} by {
      assert "ab"[0] == 'a' && "ab"[1..] == "b" && "b"[0] == 'b' && "b"[1..] == "";
    }
    RunIsFinalFrontier(g, start, "", {5});
    RunIsFinalFrontier(g, start, "ab", {5});
  }

  /** NFAGeneratorTest: `a|b` rejects `""` and `"ab"`. */
  lemma UnionRejects()
    ensures !Accepts(UnionGraph, PairFragment(4), "") && !Accepts(UnionGraph, PairFragment(4), "ab")
  {
    UnionEdgesHold();
    UnionEpsilonMet(UnionGraph);
    UnionSymbolsMet(UnionGraph);
    UnionShapeRejects(UnionGraph);
  }

  // ---------------------------------------------------------------------------
  // ab* and (ab)*: parentheses change the order of operations
  // ---------------------------------------------------------------------------

  /** The normalised form of `ab*`: a concatenation between the letters, none before the star. */
  lemma NormalisedConcatStar()
    ensures PatternProcessing.Elongated(Utilities.DefaultAlphabet, Utilities.DefaultShorthands, "ab*") == Ok("a&b*")
  {
    var A := Utilities.DefaultAlphabet;
    PatternProcessing.ElongatedPlain(A, Utilities.DefaultShorthands, "ab*");
    assert "ab*"[1..] == "b*" && "b*"[1..] == "*";
    assert PatternProcessing.WithConcatenation(A, "*") == "*";
    assert PatternProcessing.WithConcatenation(A, "b*") == ['b'] + "*";
    assert PatternProcessing.WithConcatenation(A, "ab*") == ['a', '&'] + (['b'] + "*");
    assert ['a', '&'] + (['b'] + "*") == "a&b*";
  }

  /** The normalised form of `(ab)*`: the concatenation goes only between the letters. */
  lemma NormalisedStarOfPair()
    ensures PatternProcessing.Elongated(Utilities.DefaultAlphabet, Utilities.DefaultShorthands, "(ab)*") == Ok("(a&b)*")
  {
    var A := Utilities.DefaultAlphabet;
    PatternProcessing.ElongatedPlain(A, Utilities.DefaultShorthands, "(ab)*");
    assert "(ab)*"[1..] == "ab)*" && "ab)*"[1..] == "b)*" && "b)*"[1..] == ")*" && ")*"[1..] == "*";
    assert PatternProcessing.WithConcatenation(A, "*") == "*";
    assert PatternProcessing.WithConcatenation(A, ")*") == [')'] + "*";
    assert PatternProcessing.WithConcatenation(A, "b)*") == ['b'] + ([')'] + "*");
    assert PatternProcessing.WithConcatenation(A, "ab)*") == ['a', '&'] + (['b'] + ([')'] + "*"));
    assert PatternProcessing.WithConcatenation(A, "(ab)*") == ['('] + (['a', '&'] + (['b'] + ([')'] + "*")));
    assert ['('] + (['a', '&'] + (['b'] + ([')'] + "*"))) == "(a&b)*";
  }

  /** The machine after scanning `a&b*`: the star does not take the concatenation off the operation stack. */
  const ScannedConcatStar: Machine := Machine(['&', '*'], [PairFragment(0), PairFragment(2)], LeavesAB, 4)

  /** p reads `a&b*`, over an alphabet and operations that keep its symbols apart. */
  ghost predicate ConcatStarPattern(A: set<char>, O: set<char>, p: string)
  {
    && |p| == 4 && p[0] == 'a' && p[1] == '&' && p[2] == 'b' && p[3] == '*' && '!' !in p
    && 'a' in A && 'a' !in O && 'b' in A && 'b' !in O && '&' !in A && '&' in O && '*' !in A && '*' in O
  }

  /** The star of `a&b*`, pushed over the concatenation, which does not take precedence over it. */
  lemma ScanConcatStarLast(A: set<char>, O: set<char>, p: string)
    requires ConcatStarPattern(A, O, p)
    ensures Scanned(Current, A, O, p, 3, LeavesAfter('&')) == Ok(ScannedConcatStar)
  {
    assert !HasPrecedence('&', '*');
    ReadPushed(A, O, p, 3, LeavesAfter('&'));
    assert LeavesAfter('&').(ops := ['&'] + [p[3]]) == ScannedConcatStar;
    ScanEnd(A, O, p, ScannedConcatStar);
  }

  /** Scanning `a&b*` from nothing. */
  lemma ScanConcatStar()
    ensures Scanned(Current, Utilities.DefaultAlphabet, Utilities.DefaultBasicOperations, "a&b*", 0, Initial)
            == Ok(ScannedConcatStar)
  {
    var A, O := Utilities.DefaultAlphabet, Utilities.DefaultBasicOperations;
    var p := "a&b*";
    assert 'a' in A && 'a' !in O && 'b' in A && 'b' !in O && '&' !in A && '&' in O && '*' !in A && '*' in O;
    assert ConcatStarPattern(A, O, p);
    ScanLeadingA(A, O, p);
    ScanOperationAfterA(A, O, p, '&');
    ScanBAfter(A, O, p, '&');
    ScanConcatStarLast(A, O, p);
  }

  /** The automaton of `a&b*`: the leaf for `a` followed by the star of the leaf for `b`. */
  const ConcatStarGraph: Graph := ConcatGlue(StarAt(LeavesAB, 4, PairFragment(2)), PairFragment(0), StarredAt(PairFragment(2), 4))
  const ConcatOfStar: Fragment := ConcatFragment(PairFragment(0), StarredAt(PairFragment(2), 4))

  /** The machine once the star of `a&b*` is evaluated: the second leaf starred with 4 and 5. */
  const StarredConcatStar: Machine :=
    Machine(['&'], [PairFragment(0), StarredAt(PairFragment(2), 4)], StarAt(LeavesAB, 4, PairFragment(2)), 6)

  /** Draining `a&b*` starts with the star, the top of the operation stack. */
  lemma EvaluateStarOfConcatStar()
    ensures Evaluated(ScannedConcatStar) == Ok(StarredConcatStar)
  {
    EvaluatedStarAbove('&', ScannedConcatStar.graph, PairFragment(0), PairFragment(2), 4);
  }

  /** Draining `a&b*`: the star first, then the concatenation of the first leaf with it. */
  lemma DrainedConcatStar()
    ensures Drained(ScannedConcatStar) == Ok(Machine([], [ConcatOfStar], ConcatStarGraph, 6))
  {
    EvaluateStarOfConcatStar();
    DrainedStep(ScannedConcatStar, StarredConcatStar);
    DrainedLastConcatenation(StarredConcatStar.graph, PairFragment(0), StarredAt(PairFragment(2), 4), 6);
  }

  /** generateNFA on `a&b*`: the star is evaluated first, then the concatenation. */
  lemma CompiledConcatStar()
    ensures Compiled(Current, Utilities.DefaultAlphabet, Utilities.DefaultBasicOperations, "a&b*")
            == Ok(Machine([], [ConcatOfStar], ConcatStarGraph, 6))
  {
    assert '!' !in "a&b*";
    ScanConcatStar();
    DrainedConcatStar();
    CompiledOf(Utilities.DefaultAlphabet, Utilities.DefaultBasicOperations, "a&b*", ScannedConcatStar,
               Machine([], [ConcatOfStar], ConcatStarGraph, 6));
  }

  /** The edges of `a&b*`: the leaves, 4 and 3 to 2 and 5 without reading, 1 to 4 without reading. */
  lemma ConcatStarNext(s: StateId, d: char)
    ensures WellFormed(ConcatStarGraph)
    ensures Next(ConcatStarGraph, s, d) ==
            (if s == 0 && d == 'a' then {1} else {}) + (if s == 2 && d == 'b' then {3} else {})
            + (if (s == 4 || s == 3) && d == Epsilon then {2, 5} else {})
            + (if s == 1 && d == Epsilon then {4} else {})
  {
    LeavesNext();
    var g := StarAt(LeavesAB, 4, PairFragment(2));
    LinkedNext(LeavesAB, {4} + {3}, Epsilon, {2, 5}, s, d);
    LinkedNext(g, {1}, Epsilon, {4}, s, d);
  }

  /** The edges of `a&b*`, as ConcatStarNext lists them. */
  ghost predicate ConcatStarEdges(g: Graph)
  {
    forall s, d :: Next(g, s, d) ==
                   (if s == 0 && d == 'a' then {1} else {}) + (if s == 2 && d == 'b' then {3} else {})
                   + (if (s == 4 || s == 3) && d == Epsilon then {2, 5} else {})
                   + (if s == 1 && d == Epsilon then {4} else {})
  }

  /** The automaton generateNFA builds for `a&b*` has exactly those edges. */
  lemma ConcatStarEdgesHold()
    ensures WellFormed(ConcatStarGraph) && ConcatStarEdges(ConcatStarGraph)
  {
    ConcatStarNext(0, 'a');
    forall s, d
      ensures Next(ConcatStarGraph, s, d) ==
              (if s == 0 && d == 'a' then {1} else {}) + (if s == 2 && d == 'b' then {3} else {})
              + (if (s == 4 || s == 3) && d == Epsilon then {2, 5} else {})
              + (if s == 1 && d == Epsilon then {4} else {})
    {
      ConcatStarNext(s, d);
    }
  }

  /** The moves without reading, in an automaton with the edges of `a&b*`. */
  lemma ConcatStarEpsilonMet(g: Graph)
    requires ConcatStarEdges(g)
    ensures Next(g, 0, Epsilon) == {} && Next(g, 1, Epsilon) == {4}
    ensures Next(g, 4, Epsilon) == {2, 5} && Next(g, 3, Epsilon) == {2, 5}
    ensures Next(g, 2, Epsilon) == {} && Next(g, 5, Epsilon) == {}
  {
    assert Next(g, 0, Epsilon) == {} + {} + {} + {};
    assert Next(g, 1, Epsilon) == {} + {} + {} + {4};
    assert Next(g, 4, Epsilon) == {} + {} + {2, 5} + {};
    assert Next(g, 3, Epsilon) == {} + {} + {2, 5} + {};
    assert Next(g, 2, Epsilon) == {} + {} + {} + {};
    assert Next(g, 5, Epsilon) == {} + {} + {} + {};
  }

  /** The moves on `a` and on `b` that `"abab"` meets, in an automaton with the edges of `a&b*`. */
  lemma ConcatStarSymbolsMet(g: Graph)
    requires ConcatStarEdges(g)
    ensures Next(g, 0, 'a') == {1}
    ensures Next(g, 1, 'b') == {} && Next(g, 4, 'b') == {}
    ensures Next(g, 2, 'b') == {3} && Next(g, 5, 'b') == {}
    ensures Next(g, 3, 'a') == {} && Next(g, 2, 'a') == {} && Next(g, 5, 'a') == {}
  {
    assert Next(g, 0, 'a') == {1} + {} + {} + {};
    assert Next(g, 1, 'b') == {} + {} + {} + {};
    assert Next(g, 4, 'b') == {} + {} + {} + {};
    assert Next(g, 2, 'b') == {} + {3} + {} + {};
    assert Next(g, 5, 'b') == {} + {} + {} + {};
    assert Next(g, 3, 'a') == {} + {} + {} + {};
    assert Next(g, 2, 'a') == {} + {} + {} + {};
    assert Next(g, 5, 'a') == {} + {} + {} + {};
  }


  /** The start of `a&b*` has no move without reading. */
  lemma ConcatStarShapeStart(g: Graph)
    requires WellFormed(g) && Next(g, 0, Epsilon) == {}
    ensures Closure(g, {0}) <= {0}
  {
    assert EpsilonClosed(g, {0});
    ClosureLeast(g, {0}, {0});
  }

  /** After `a`: the first leaf's finish, the star's start and what it moves to. */
  lemma ConcatStarShapeFirstA(g: Graph, F: set<StateId>)
    requires WellFormed(g) && F <= {0} && Next(g, 0, 'a') == {1}
    requires Next(g, 1, Epsilon) == {4} && Next(g, 4, Epsilon) == {2, 5}
    requires Next(g, 2, Epsilon) == {} && Next(g, 5, Epsilon) == {}
    ensures Advance(g, F, 'a') <= {1, 4, 2, 5}
  {
    assert EpsilonClosed(g, {1, 4, 2, 5});
    AdvanceWithin(g, F, {0}, 'a', {1, 4, 2, 5});
  }

  /** After `ab`: the second leaf's finish, its start again and the star's finish. */
  lemma ConcatStarShapeFirstB(g: Graph, F: set<StateId>)
    requires WellFormed(g) && F <= {1, 4, 2, 5}
    requires Next(g, 1, 'b') == {} && Next(g, 4, 'b') == {} && Next(g, 2, 'b') == {3} && Next(g, 5, 'b') == {}
    requires Next(g, 3, Epsilon) == {2, 5} && Next(g, 2, Epsilon) == {} && Next(g, 5, Epsilon) == {}
    ensures Advance(g, F, 'b') <= {3, 2, 5}
  {
    assert EpsilonClosed(g, {3, 2, 5});
    AdvanceWithin(g, F, {1, 4, 2, 5}, 'b', {3, 2, 5});
  }

  /** After `aba`: nothing, since none of those states reads `a`. */
  lemma ConcatStarShapeSecondA(g: Graph, F: set<StateId>)
    requires WellFormed(g) && F <= {3, 2, 5}
    requires Next(g, 3, 'a') == {} && Next(g, 2, 'a') == {} && Next(g, 5, 'a') == {}
    ensures Advance(g, F, 'a') == {}
  {
    AdvanceWithin(g, F, {3, 2, 5}, 'a', {});
  }

  /**
   * An automaton shaped like `a&b*` (0 reads `a` into 1, 1 moves to the
   * star's start 4 and 4 to 2 and 5, 2 reads `b` into 3, which moves back
   * to 2 and 5) rejects `"abab"`: no state reached after `"ab"` reads `a`.
   */
  lemma ConcatStarShapeRejects(g: Graph)
    requires WellFormed(g)
    requires Next(g, 0, Epsilon) == {} && Next(g, 1, Epsilon) == {4}
    requires Next(g, 4, Epsilon) == {2, 5} && Next(g, 3, Epsilon) == {2, 5}
    requires Next(g, 2, Epsilon) == {} && Next(g, 5, Epsilon) == {}
    requires Next(g, 0, 'a') == {1}
    requires Next(g, 1, 'b') == {} && Next(g, 4, 'b') == {} && Next(g, 2, 'b') == {3} && Next(g, 5, 'b') == {}
    requires Next(g, 3, 'a') == {} && Next(g, 2, 'a') == {} && Next(g, 5, 'a') == {}
    ensures !AcceptsSpec(g, 0, {5}, false, "abab")
  {
    var w := "abab";
    var start := Closure(g, {0});
    ConcatStarShapeStart(g);
    var f1 := Advance(g, start, 'a');
    ConcatStarShapeFirstA(g, start);
    var f2 := Advance(g, f1, 'b');
    ConcatStarShapeFirstB(g, f1);
    var f3 := Advance(g, f2, 'a');
    ConcatStarShapeSecondA(g, f2);
    AdvanceWithin(g, f3, {}, 'b', {});
    assert w[0] == 'a' && w[1..] == "bab" && "bab"[0] == 'b' && "bab"[1..] == "ab";
    assert "ab"[0] == 'a' && "ab"[1..] == "b" && "b"[0] == 'b' && "b"[1..] == "";
    assert Frontier(g, f3, "b") == {};
    assert Frontier(g, f2, "ab") == {};
    assert Frontier(g, f1, "bab") == {};
    assert Frontier(g, start, w) == {};
    RunIsFinalFrontier(g, start, w, {5});
  }

  /** NFAGeneratorTest: `ab*` rejects `"abab"`. */
  lemma ConcatStarRejects()
    ensures !Accepts(ConcatStarGraph, ConcatOfStar, "abab")
  {
    ConcatStarEdgesHold();
    ConcatStarEpsilonMet(ConcatStarGraph);
    ConcatStarSymbolsMet(ConcatStarGraph);
    ConcatStarShapeRejects(ConcatStarGraph);
  }

  /** The concatenation of the two leaves, as `(a&b)` leaves it. */
  const PairGraph: Graph := ConcatGlue(LeavesAB, PairFragment(0), PairFragment(2))
  const PairOfAB: Fragment := ConcatFragment(PairFragment(0), PairFragment(2))
  /** The machine after scanning `(a&b)*`: the star found the closing parenthesis on top and evaluated down to `(`. */
  const ScannedStarOfPair: Machine := Machine(['*'], [PairOfAB], PairGraph, 4)

  /** Reading `*` after `(a&b)`: the parentheses are evaluated, leaving the concatenation. */
  lemma ReduceParenthesised()
    ensures Reduced(ScannedClosedPair, '*') == Ok(Machine([], [PairOfAB], PairGraph, 4))
  {
    ReducedPairInParentheses(LeavesAB, PairFragment(0), PairFragment(2), 4);
  }

  /**
   * A star read after `(`, `&` and `)` over two automata: the closing
   * parenthesis takes precedence, so the concatenation is evaluated and the
   * open parenthesis popped.
   */
  lemma ReducedPairInParentheses(g: Graph, first: Fragment, second: Fragment, low: int)
    ensures Reduced(Machine(['(', '&', ')'], [first, second], g, low), '*')
            == Ok(Machine([], [ConcatFragment(first, second)], ConcatGlue(g, first, second), low))
  {
    var m := Machine(['(', '&', ')'], [first, second], g, low);
    assert Last(m.ops) == ')' && AllButLast(m.ops) == ['(', '&'] && HasPrecedence(')', '*');
    var inner := Machine(['(', '&'], [first, second], g, low);
    assert m.(ops := AllButLast(m.ops)) == inner;
    assert Evaluated(m) == Parenthesised(inner);
    EvaluatedTop(inner);
    assert inner.(ops := AllButLast(inner.ops)) == Machine(['('], [] + [first, second], g, low);
    ConcatenatedTop(['('], [], first, second, g, low);
    var joined := Machine(['('], [ConcatFragment(first, second)], ConcatGlue(g, first, second), low);
    assert [] + [ConcatFragment(first, second)] == [ConcatFragment(first, second)];
    assert Evaluated(inner) == Ok(joined);
    var d := Machine([], [ConcatFragment(first, second)], ConcatGlue(g, first, second), low);
    assert Last(joined.ops) == '(' && AllButLast(joined.ops) == [];
    assert Parenthesised(joined) == Ok(d);
    assert Parenthesised(inner) == Ok(d);
    assert Reduced(d, '*') == Ok(d);
  }

  /** The machine after scanning `(a`. */
  const ScannedOpenLetter: Machine := Machine(['('], [PairFragment(0)], SymbolGlue(map[], 0, 'a'), 2)

  /** The machine after scanning `(a&b`. */
  const ScannedOpenPair: Machine := Machine(['(', '&'], [PairFragment(0), PairFragment(2)], LeavesAB, 4)

  /** The machine after scanning `(a&b)`. */
  const ScannedClosedPair: Machine := Machine(['(', '&', ')'], [PairFragment(0), PairFragment(2)], LeavesAB, 4)

  /** p reads `(a&b)*`, over an alphabet and operations that keep its symbols apart. */
  ghost predicate StarOfPairPattern(A: set<char>, O: set<char>, p: string)
  {
    && |p| == 6 && p[0] == '(' && p[1] == 'a' && p[2] == '&' && p[3] == 'b' && p[4] == ')' && p[5] == '*'
    && '!' !in p
    && 'a' in A && 'a' !in O && 'b' in A && 'b' !in O
    && '(' !in A && '(' in O && '&' !in A && '&' in O && ')' !in A && ')' in O && '*' !in A && '*' in O
  }

  /** The open parenthesis of `(a&b)*` is pushed onto the empty operation stack. */
  lemma ScanOpen(A: set<char>, O: set<char>, p: string)
    requires |p| == 6 && p[0] == '(' && '!' !in p && '(' in O && '(' !in A
    ensures Scanned(Current, A, O, p, 0, Initial) == Scanned(Current, A, O, p, 1, Opened)
  {
    ReadPushed(A, O, p, 0, Initial);
    assert Initial.(ops := [] + [p[0]]) == Opened;
  }

  /** The machine after scanning `(`. */
  const Opened: Machine := Machine(['('], [], map[], 0)

  /** The `a` of `(a&b)*` pushes its leaf on states 0 and 1. */
  lemma ScanLetterOpened(A: set<char>, O: set<char>, p: string)
    requires |p| == 6 && p[1] == 'a' && '!' !in p && 'a' in A && 'a' !in O
    ensures Scanned(Current, A, O, p, 1, Opened) == Scanned(Current, A, O, p, 2, ScannedOpenLetter)
  {
    ReadLetter(A, O, p, 1, Opened);
    assert PushSymbol(Opened, 'a') == ScannedOpenLetter;
  }

  /** The concatenation after `(a` is pushed, over the open parenthesis, which takes precedence over nothing. */
  lemma ScanAmpersandInside(A: set<char>, O: set<char>, p: string)
    requires |p| == 6 && p[2] == '&' && '!' !in p && '&' in O && '&' !in A
    ensures Scanned(Current, A, O, p, 2, ScannedOpenLetter) == Scanned(Current, A, O, p, 3, OpenLetterThen)
  {
    assert !HasPrecedence('(', '&');
    ReadPushed(A, O, p, 2, ScannedOpenLetter);
    assert ScannedOpenLetter.(ops := ['('] + [p[2]]) == OpenLetterThen;
  }

  /** The machine after scanning `(a&`. */
  const OpenLetterThen: Machine := Machine(['(', '&'], [PairFragment(0)], SymbolGlue(map[], 0, 'a'), 2)

  /** The `b` of `(a&b)*` pushes its leaf on states 2 and 3. */
  lemma ScanLetterInside(A: set<char>, O: set<char>, p: string)
    requires |p| == 6 && p[3] == 'b' && '!' !in p && 'b' in A && 'b' !in O
    ensures Scanned(Current, A, O, p, 3, OpenLetterThen) == Scanned(Current, A, O, p, 4, ScannedOpenPair)
  {
    ReadLetter(A, O, p, 3, OpenLetterThen);
    assert PushSymbol(OpenLetterThen, 'b') == ScannedOpenPair;
  }

  /** Scanning `)` after `(a&b` only pushes the parenthesis, since the concatenation does not take precedence over it. */
  lemma ScanClose(A: set<char>, O: set<char>, p: string)
    requires |p| == 6 && p[4] == ')' && '!' !in p && ')' in O && ')' !in A
    ensures Scanned(Current, A, O, p, 4, ScannedOpenPair) == Scanned(Current, A, O, p, 5, ScannedClosedPair)
  {
    assert !HasPrecedence('&', ')');
    ReadPushed(A, O, p, 4, ScannedOpenPair);
    assert ScannedOpenPair.(ops := ['(', '&'] + [p[4]]) == ScannedClosedPair;
  }

  /** Scanning the star after `(a&b)` evaluates the parentheses first. */
  lemma ScanStarAfterPair(A: set<char>, O: set<char>, p: string)
    requires |p| == 6 && p[5] == '*' && '!' !in p && '*' in O && '*' !in A
    ensures Scanned(Current, A, O, p, 5, ScannedClosedPair) == Ok(ScannedStarOfPair)
  {
    ScanStarAfterParentheses(A, O, p, LeavesAB, PairFragment(0), PairFragment(2), 4);
  }

  /** A star read last, after `(`, `&` and `)` over two automata, is pushed once the parentheses are evaluated. */
  lemma ScanStarAfterParentheses(A: set<char>, O: set<char>, p: string, g: Graph, first: Fragment, second: Fragment, low: int)
    requires |p| >= 1 && p[|p| - 1] == '*' && '!' !in p && '*' in O && '*' !in A
    ensures Scanned(Current, A, O, p, |p| - 1, Machine(['(', '&', ')'], [first, second], g, low))
            == Ok(Machine(['*'], [ConcatFragment(first, second)], ConcatGlue(g, first, second), low))
  {
    var m5 := Machine([], [ConcatFragment(first, second)], ConcatGlue(g, first, second), low);
    ReducedPairInParentheses(g, first, second, low);
    ReadLastOperation(A, O, p, Machine(['(', '&', ')'], [first, second], g, low), m5);
    assert m5.(ops := [] + [p[|p| - 1]]) == Machine(['*'], [ConcatFragment(first, second)], ConcatGlue(g, first, second), low);
  }

  /** Scanning `(a&b)*` from nothing. */
  lemma ScanStarOfPair()
    ensures Scanned(Current, Utilities.DefaultAlphabet, Utilities.DefaultBasicOperations, "(a&b)*", 0, Initial)
            == Ok(ScannedStarOfPair)
  {
    var A, O := Utilities.DefaultAlphabet, Utilities.DefaultBasicOperations;
    var p := "(a&b)*";
    assert 'a' in A && 'a' !in O && 'b' in A && 'b' !in O;
    assert '(' !in A && '(' in O && '&' !in A && '&' in O && ')' !in A && ')' in O && '*' !in A && '*' in O;
    assert StarOfPairPattern(A, O, p);
    ScanOpen(A, O, p);
    ScanLetterOpened(A, O, p);
    ScanAmpersandInside(A, O, p);
    ScanLetterInside(A, O, p);
    ScanClose(A, O, p);
    ScanStarAfterPair(A, O, p);
  }

  /** The automaton of `(a&b)*`: the concatenation of the leaves, starred with 4 and 5. */
  const StarPairGraph: Graph := StarAt(PairGraph, 4, PairOfAB)
  const StarOfPair: Fragment := StarredAt(PairOfAB, 4)

  /** Draining `(a&b)*`: the star of the concatenation, over states 4 and 5. */
  lemma DrainedStarOfPair()
    ensures Drained(ScannedStarOfPair) == Ok(Machine([], [StarOfPair], StarPairGraph, 6))
  {
    DrainedLastStar(ScannedStarOfPair.graph, PairOfAB, 4);
  }

  /** generateNFA on `(a&b)*`: the concatenation inside the parentheses is evaluated before the star. */
  lemma CompiledStarOfPair()
    ensures Compiled(Current, Utilities.DefaultAlphabet, Utilities.DefaultBasicOperations, "(a&b)*")
            == Ok(Machine([], [StarOfPair], StarPairGraph, 6))
  {
    assert '!' !in "(a&b)*";
    ScanStarOfPair();
    DrainedStarOfPair();
    CompiledOf(Utilities.DefaultAlphabet, Utilities.DefaultBasicOperations, "(a&b)*", ScannedStarOfPair,
               Machine([], [StarOfPair], StarPairGraph, 6));
  }

  /** The concatenation of the two leaves recognises `ab`. */
  lemma PairRecognises()
    ensures Recognises(PairGraph, PairOfAB, "ab")
  {
    LeavesRecognise();
    TwoSymbols(LeavesAB, PairFragment(0), PairFragment(2), 'a', 'b');
  }

  /** Two one-symbol words of two fragments make a two-symbol word of their concatenation. */
  lemma TwoSymbols(g: Graph, first: Fragment, second: Fragment, a: char, b: char)
    requires Recognises(g, first, [a]) && Recognises(g, second, [b])
    ensures Recognises(ConcatGlue(g, first, second), ConcatFragment(first, second), [a, b])
  {
    ConcatSound(g, first, second, [a], [b]);
    assert [a] + [b] == [a, b];
  }

  /** Two copies of u, one after another. */
  lemma DoubleConcatenation(u: string)
    ensures Concatenation([u, u]) == u + u
  {
    var ws := [u, u];
    assert ws[1..] == [u] && ws[1..][1..] == [];
    assert Concatenation(ws[1..]) == u + Concatenation([]) == u;
  }

  /** A word of a fragment that is not inverted, read twice, is accepted by its star. */
  lemma TwiceStarred(g: Graph, f: Fragment, low: int, u: string)
    requires Recognises(g, f, u) && !f.inverted
    ensures Accepts(StarAt(g, low, f), StarredAt(f, low), u + u)
  {
    var h, s := StarAt(g, low, f), StarredAt(f, low);
    var ws := [u, u];
    assert forall k :: 0 <= k < |ws| ==> ws[k] == u;
    StarSound(g, low, low + 1, f, ws);
    DoubleConcatenation(u);
    assert Recognises(h, s, u + u);
    RecognisesIsAccepts(h, s, u + u);
  }

  /** A two-symbol word, twice. */
  lemma TwoSymbolsTwice(a: char, b: char)
    ensures [a, b] + [a, b] == [a, b, a, b]
  {
  }

  /** NFAGeneratorTest: `(ab)*` accepts `"abab"`, two rounds of `ab`. */
  lemma StarOfPairAccepts()
    ensures Accepts(StarPairGraph, StarOfPair, "abab")
  {
    PairRecognises();
    TwiceStarred(PairGraph, PairOfAB, 4, "ab");
    TwoSymbolsTwice('a', 'b');
  }

  /** NFAGeneratorTest: parentheses change the order of operations, `ab*` rejects `"abab"` and `(ab)*` accepts it. */
  lemma ParenthesesChangeOrder()
    ensures !Accepts(ConcatStarGraph, ConcatOfStar, "abab") && Accepts(StarPairGraph, StarOfPair, "abab")
  {
    ConcatStarRejects();
    StarOfPairAccepts();
  }
}
