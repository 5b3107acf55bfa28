/**
 * NFAGenerator.java, in both revisions: utils/generators/NFAGenerator.java
 * (the current one) and utils/NFAGenerator.java (the earlier one).
 *
 * A normalised pattern is scanned once. Every symbol pushes a small
 * automaton onto the automaton stack; every operation symbol first
 * evaluates the operations on the operation stack that take precedence
 * over it and is then pushed itself. At the end the remaining operations
 * are evaluated and the automaton left on top is the result.
 *
 * In the source the automata share State objects whose successor sets the
 * operations extend in place. Here the successors of every state created
 * during one call form the generator's `graph`; an automaton on the stack is
 * a Fragment: its start, its accepting states and its flags.
 */
module NFAGeneration {
  import opened Wrappers
  import opened Automaton
  import opened NFAModel
  import opened DFAConstruction
  import opened Stack
  import Utilities
  import PatternProcessing

  /** Which of the two NFAGenerator classes is meant. */
  datatype Revision =
    | Current   // utils/generators/NFAGenerator.java: `#` and `.` have automata of their own
    | Earlier   // utils/NFAGenerator.java: `#` is an ordinary symbol, `.` is skipped

  /** An NFA object on the automaton stack, without its transitions (those live in the shared graph). */
  datatype Fragment = Fragment(start: StateId, accepting: set<StateId>, inverted: bool, isDFA: bool, caching: bool)

  /** `new NFA(start, accepting)`: not inverted, not a DFA, caching on. */
  function Plain(start: StateId, accepting: set<StateId>): Fragment
  {
    Fragment(start, accepting, false, false, true)
  }

  /**
   * `new NFA()`: start state 0, nothing accepting. In the program this is a
   * State object of its own with no transitions; here its id 0 is the id the
   * first leaf automaton mints, so its start may have that leaf's edges in
   * the shared graph. Without accepting states the language is empty either
   * way, and NFA.equals compares states by id, so the cache sees no difference.
   */
  const EmptyAutomaton: Fragment := Plain(0, {})

  function Last<T>(s: seq<T>): T
    requires s != []
  {
    s[|s| - 1]
  }

  function AllButLast<T>(s: seq<T>): seq<T>
    requires s != []
  {
    s[..|s| - 1]
  }

  // ---------------------------------------------------------------------------
  // Precedence
  // ---------------------------------------------------------------------------

  /**
   * hasPrecedence(operation1, operation2): whether operation1 is evaluated
   * before operation2 is pushed. On the six operations it is the table
   * PrecedencePairs; `(` and `|` on top never take precedence.
   */
  function HasPrecedence(operation1: char, operation2: char): (r: bool)
    ensures operation1 in Utilities.DefaultBasicOperations && operation2 in Utilities.DefaultBasicOperations ==>
      (r <==> (operation1, operation2) in PrecedencePairs)
    ensures operation1 == '(' || operation1 == '|' ==> !r
  {
    if operation1 == '*' && operation2 != '*' then true
    else if operation1 == '&' && operation2 == '|' then true
    else if operation2 == '(' then false
    else if operation1 == ')' then true
    else if operation1 == '!' then true
    else false
  }

  /** The pairs of operations in which the first takes precedence, written out. */
  const PrecedencePairs: set<(char, char)> := {
    ('*', '|'), ('*', '&'), ('*', '('), ('*', ')'), ('*', '!'),
    ('&', '|'),
    (')', '*'), (')', '|'), (')', '&'), (')', ')'), (')', '!'),
    ('!', '*'), ('!', '|'), ('!', '&'), ('!', ')'), ('!', '!')
  }

  /** On the six operations, hasPrecedence is exactly the sixteen pairs above. */
  lemma PrecedenceTable(operation1: char, operation2: char)
    requires operation1 in Utilities.DefaultBasicOperations && operation2 in Utilities.DefaultBasicOperations
    ensures HasPrecedence(operation1, operation2) <==> (operation1, operation2) in PrecedencePairs
  {
  }

  /** An open parenthesis never takes precedence: it leaves the operation stack only through evaluateParentheses. */
  lemma OpenParenthesisWaits(operation2: char)
    ensures !HasPrecedence('(', operation2)
  {
  }

  /** A union never takes precedence either: it waits until the end or a closing parenthesis. */
  lemma UnionWaits(operation2: char)
    ensures !HasPrecedence('|', operation2)
  {
  }

  // ---------------------------------------------------------------------------
  // The edges the operations add
  // ---------------------------------------------------------------------------

  /** evaluateConcatenation: every accepting state of `first` moves to `second`'s start without reading. */
  function ConcatGlue(g: Graph, first: Fragment, second: Fragment): Graph
  {
    LinkAll(g, first.accepting, Epsilon, {second.start})
  }

  /** The concatenation starts where `first` does and accepts where `second` does. */
  function ConcatFragment(first: Fragment, second: Fragment): Fragment
  {
    Plain(first.start, second.accepting)
  }

  /** evaluateUnion: the new start moves to both starts, every accepting state of both to the new finish. */
  function UnionGlue(g: Graph, start: StateId, finish: StateId, first: Fragment, second: Fragment): Graph
  {
    LinkAll(LinkAll(g, {start}, Epsilon, {first.start, second.start}), first.accepting + second.accepting, Epsilon, {finish})
  }

  /** evaluateKleeneStar: the new start and every accepting state move to the old start and to the new finish. */
  function StarGlue(g: Graph, newStart: StateId, newFinish: StateId, f: Fragment): (r: Graph)
    ensures WellFormed(g) ==> WellFormed(r)
  {
    LinkAll(g, {newStart} + f.accepting, Epsilon, {f.start, newFinish})
  }

  /**
   * The popped automaton with its start and accepting states replaced, as
   * evaluateKleeneStar leaves it: its flags are kept, so an operand flagged
   * as a DFA stays flagged although the star is not deterministic.
   */
  function StarFragmentAsWritten(f: Fragment, newStart: StateId, newFinish: StateId): (r: Fragment)
    ensures r.isDFA == f.isDFA && r.inverted == f.inverted
  {
    f.(start := newStart, accepting := {newFinish})
  }

  /** The star as it is meant: no longer flagged as a DFA. The generator below uses this one. */
  function StarFragment(f: Fragment, newStart: StateId, newFinish: StateId): (r: Fragment)
    ensures !r.isDFA && r.start == newStart && r.accepting == {newFinish}
    ensures r == StarFragmentAsWritten(f, newStart, newFinish).(isDFA := false)
  {
    f.(start := newStart, accepting := {newFinish}, isDFA := false)
  }

  // The generator mints ids in pairs: `low` and then `low + 1`. The forms below
  // take only `low`, the id lowestAvailableId held before the operation.

  /** The automaton of a leaf or a union: the first new state starts it, the second accepts. */
  function PairFragment(low: int): (r: Fragment)
    ensures r.start == low && r.accepting == {low + 1} && !r.inverted && !r.isDFA
  {
    Plain(low, {low + 1})
  }

  /** generateNFAFromOneSymbol (and generateNFAFromEmptySymbol, with Epsilon): the new pair linked by c. */
  function SymbolGlue(g: Graph, low: int, c: char): Graph
  {
    LinkAll(g, {low}, c, {low + 1})
  }

  /** generateNFAFromAnySingleSymbol: the new pair linked by any symbol. */
  function AnyGlue(g: Graph, low: int): Graph
  {
    LinkAny(g, low, low + 1)
  }

  function UnionAt(g: Graph, low: int, first: Fragment, second: Fragment): Graph
  {
    UnionGlue(g, low, low + 1, first, second)
  }

  function StarAt(g: Graph, low: int, f: Fragment): Graph
  {
    StarGlue(g, low, low + 1, f)
  }

  function StarredAt(f: Fragment, low: int): Fragment
  {
    StarFragment(f, low, low + 1)
  }

  // ---------------------------------------------------------------------------
  // What the fragments recognise
  // ---------------------------------------------------------------------------

  /** Reading w from the closure of f's start in g ends on an accepting state of f (its `inverted` flag aside). */
  ghost predicate Recognises(g: Graph, f: Fragment, w: string)
  {
    WellFormed(g) && Frontier(g, Closure(g, {f.start}), w) * f.accepting != {}
  }

  /** For an automaton that is not inverted, recognising is what `accepts` answers. */
  lemma RecognisesIsAccepts(g: Graph, f: Fragment, w: string)
    requires WellFormed(g)
    ensures Recognises(g, f, w) == AcceptsSpec(g, f.start, f.accepting, false, w)
  {
    RunIsFinalFrontier(g, Closure(g, {f.start}), w, f.accepting);
    AcceptingMeets(Frontier(g, Closure(g, {f.start}), w), f.accepting);
  }

  /** Edges added later never take a word away. */
  lemma RecognisesGrows(g: Graph, h: Graph, f: Fragment, w: string)
    requires WellFormed(h) && Grows(g, h) && Recognises(g, f, w)
    ensures Recognises(h, f, w)
  {
    ClosureGrows(g, h, {f.start}, {f.start});
    FrontierGrows(g, h, Closure(g, {f.start}), Closure(h, {f.start}), w);
  }

  /** Everything the closure reaches from an epsilon-closed set is already in it. */
  lemma ClosureOfClosed(g: Graph, F: set<StateId>, S: set<StateId>)
    requires WellFormed(g) && EpsilonClosed(g, F) && S <= F
    ensures Closure(g, S) <= F
  {
    ClosureLeast(g, S, F);
  }

  /** A path of epsilon moves s -> t keeps t in every epsilon-closed set holding s. */
  lemma EpsilonMoveStays(g: Graph, F: set<StateId>, s: StateId, t: StateId)
    requires EpsilonClosed(g, F) && s in F && t in Next(g, s, Epsilon)
    ensures t in F
  {
  }

  /** Reading one symbol c from a set holding s reaches every c-successor of s. */
  lemma ReadOne(g: Graph, F: set<StateId>, s: StateId, c: char, t: StateId)
    requires WellFormed(g) && s in F && t in Next(g, s, c)
    ensures t in Frontier(g, F, [c])
  {
    StepContainsNext(g, F, c);
    assert [c][1..] == [];
  }

  /** The automaton of one symbol (a symbol other than `#`) recognises that symbol. */
  lemma SymbolLeafRecognises(g: Graph, s0: StateId, s1: StateId, c: char)
    requires WellFormed(g) && c != Epsilon
    ensures Recognises(LinkAll(g, {s0}, c, {s1}), Plain(s0, {s1}), [c])
  {
    var h := LinkAll(g, {s0}, c, {s1});
    LinkAllNext(g, {s0}, c, {s1});
    ReadOne(h, Closure(h, {s0}), s0, c, s1);
  }

  /** With fresh states, the automaton of one symbol recognises that symbol and nothing else. */
  lemma SymbolLeafExactly(g: Graph, s0: StateId, s1: StateId, c: char, w: string)
    requires WellFormed(g) && c != Epsilon && s0 !in g && s1 !in g && s0 != s1
    ensures Recognises(LinkAll(g, {s0}, c, {s1}), Plain(s0, {s1}), w) <==> w == [c]
  {
    var h := LinkAll(g, {s0}, c, {s1});
    LinkAllNext(g, {s0}, c, {s1});
    assert Next(h, s0, Epsilon) == {} && Next(h, s1, Epsilon) == {};
    ClosureUnique(h, {s0}, {s0});
    ClosureUnique(h, {s1}, {s1});
    if w == [c] {
      SymbolLeafRecognises(g, s0, s1, c);
    } else if w != [] {
      StepSingleton(h, s0, w[0]);
      if w[0] != c {
        ClosureEmpty(h);
        FrontierFromEmpty(h, w[1..]);
      } else {
        assert Advance(h, {s0}, w[0]) == {s1};
        var rest := w[1..];
        assert rest != [] by {
          assert w == [c] + rest;
        }
        StepSingleton(h, s1, rest[0]);
        assert Next(h, s1, rest[0]) == Next(g, s1, rest[0]) == {};
        ClosureEmpty(h);
        assert Advance(h, {s1}, rest[0]) == {};
        FrontierFromEmpty(h, rest[1..]);
        assert Frontier(h, {s1}, rest) == {};
      }
    }
  }

  /** generateNFAFromEmptySymbol: the empty word. */
  lemma EmptyLeafRecognises(g: Graph, s0: StateId, s1: StateId)
    requires WellFormed(g)
    ensures Recognises(LinkAll(g, {s0}, Epsilon, {s1}), Plain(s0, {s1}), [])
  {
    var h := LinkAll(g, {s0}, Epsilon, {s1});
    LinkAllNext(g, {s0}, Epsilon, {s1});
    EpsilonMoveStays(h, Closure(h, {s0}), s0, s1);
  }

  /** generateNFAFromAnySingleSymbol: every single symbol other than `#`. */
  lemma AnyLeafRecognises(g: Graph, s0: StateId, s1: StateId, c: char)
    requires WellFormed(g) && c != Epsilon
    ensures Recognises(LinkAny(g, s0, s1), Plain(s0, {s1}), [c])
  {
    var h := LinkAny(g, s0, s1);
    ReadOne(h, Closure(h, {s0}), s0, c, s1);
  }

  /** A word of `first` followed by a word of `second` is a word of their concatenation. */
  lemma ConcatSound(g: Graph, first: Fragment, second: Fragment, u: string, v: string)
    requires Recognises(g, first, u) && Recognises(g, second, v)
    ensures Recognises(ConcatGlue(g, first, second), ConcatFragment(first, second), u + v)
  {
    var h := ConcatGlue(g, first, second);
    LinkAllNext(g, first.accepting, Epsilon, {second.start});
    assert Grows(g, h);
    RecognisesGrows(g, h, first, u);
    RecognisesGrows(g, h, second, v);
    var C := Closure(h, {first.start});
    var F := Frontier(h, C, u);
    FrontierClosed(h, C, u);
    var t :| t in F * first.accepting;
    EpsilonMoveStays(h, F, t, second.start);
    ClosureOfClosed(h, F, {second.start});
    FrontierGrows(h, h, Closure(h, {second.start}), F, v);
    FrontierAppend(h, C, u, v);
  }

  lemma UnionGrows(g: Graph, start: StateId, finish: StateId, first: Fragment, second: Fragment)
    requires WellFormed(g)
    ensures var h := UnionGlue(g, start, finish, first, second);
      && WellFormed(h) && Grows(g, h)
      && first.start in Next(h, start, Epsilon) && second.start in Next(h, start, Epsilon)
      && forall s :: s in first.accepting + second.accepting ==> finish in Next(h, s, Epsilon)
  {
    var m := LinkAll(g, {start}, Epsilon, {first.start, second.start});
    LinkAllNext(g, {start}, Epsilon, {first.start, second.start});
    LinkAllNext(m, first.accepting + second.accepting, Epsilon, {finish});
  }

  /** A word of either operand is a word of the union. */
  lemma UnionSound(g: Graph, start: StateId, finish: StateId, first: Fragment, second: Fragment, w: string)
    requires Recognises(g, first, w) || Recognises(g, second, w)
    ensures Recognises(UnionGlue(g, start, finish, first, second), Plain(start, {finish}), w)
  {
    var h := UnionGlue(g, start, finish, first, second);
    UnionGrows(g, start, finish, first, second);
    var f := if Recognises(g, first, w) then first else second;
    RecognisesGrows(g, h, f, w);
    var C := Closure(h, {start});
    EpsilonMoveStays(h, C, start, f.start);
    ClosureOfClosed(h, C, {f.start});
    FrontierGrows(h, h, Closure(h, {f.start}), C, w);
    var F := Frontier(h, C, w);
    FrontierClosed(h, C, w);
    var t :| t in Frontier(h, Closure(h, {f.start}), w) * f.accepting;
    EpsilonMoveStays(h, F, t, finish);
  }

  /** The words of ws, one after another. */
  function Concatenation(ws: seq<string>): string
  {
    if ws == [] then [] else ws[0] + Concatenation(ws[1..])
  }

  lemma StarEdges(g: Graph, newStart: StateId, newFinish: StateId, f: Fragment)
    requires WellFormed(g)
    ensures var h := StarGlue(g, newStart, newFinish, f);
      && WellFormed(h) && Grows(g, h)
      && forall s :: s in {newStart} + f.accepting ==> f.start in Next(h, s, Epsilon) && newFinish in Next(h, s, Epsilon)
  {
    LinkAllNext(g, {newStart} + f.accepting, Epsilon, {f.start, newFinish});
  }

  /**
   * From any epsilon-closed frontier of the star that holds the old start
   * and the new finish, reading words of f one after another comes back to
   * such a frontier.
   */
  lemma {:induction false} StarRounds(g: Graph, newStart: StateId, newFinish: StateId, f: Fragment,
                                      F: set<StateId>, ws: seq<string>)
    requires WellFormed(g)
    requires EpsilonClosed(StarGlue(g, newStart, newFinish, f), F) && f.start in F && newFinish in F
    requires forall k :: 0 <= k < |ws| ==> Recognises(g, f, ws[k])
    ensures var h := StarGlue(g, newStart, newFinish, f);
      f.start in Frontier(h, F, Concatenation(ws)) && newFinish in Frontier(h, F, Concatenation(ws))
    decreases |ws|
  {
    var h := StarGlue(g, newStart, newFinish, f);
    StarEdges(g, newStart, newFinish, f);
    if ws != [] {
      assert Recognises(g, f, ws[0]);
      ClosureGrows(g, h, {f.start}, F);
      ClosureUnique(h, F, F);
      FrontierGrows(g, h, Closure(g, {f.start}), F, ws[0]);
      var G := Frontier(h, F, ws[0]);
      FrontierClosed(h, F, ws[0]);
      var t :| t in Frontier(g, Closure(g, {f.start}), ws[0]) * f.accepting;
      EpsilonMoveStays(h, G, t, f.start);
      EpsilonMoveStays(h, G, t, newFinish);
      StarRounds(g, newStart, newFinish, f, G, ws[1..]);
      FrontierAppend(h, F, ws[0], Concatenation(ws[1..]));
    }
  }

  /** Any number of words of f, one after another, is a word of its star; no words is the empty word. */
  lemma StarSound(g: Graph, newStart: StateId, newFinish: StateId, f: Fragment, ws: seq<string>)
    requires WellFormed(g)
    requires forall k :: 0 <= k < |ws| ==> Recognises(g, f, ws[k])
    ensures Recognises(StarGlue(g, newStart, newFinish, f), StarFragment(f, newStart, newFinish), Concatenation(ws))
  {
    var h := StarGlue(g, newStart, newFinish, f);
    StarEdges(g, newStart, newFinish, f);
    var C := Closure(h, {newStart});
    EpsilonMoveStays(h, C, newStart, f.start);
    EpsilonMoveStays(h, C, newStart, newFinish);
    StarRounds(g, newStart, newFinish, f, C, ws);
  }

  /** The star recognises the empty word. */
  lemma StarAcceptsEmpty(g: Graph, newStart: StateId, newFinish: StateId, f: Fragment)
    requires WellFormed(g)
    ensures Recognises(StarGlue(g, newStart, newFinish, f), StarFragment(f, newStart, newFinish), [])
  {
    StarSound(g, newStart, newFinish, f, []);
  }

  // ---------------------------------------------------------------------------
  // The star of a DFA and the fast path of the complement
  // ---------------------------------------------------------------------------

  /**
   * As written, the star of an automaton flagged as a DFA is still flagged,
   * so `!` takes generateComplementDFA's fast path and merely inverts it.
   * The inverted star accepts the empty word, and so does the star itself:
   * the "complement" shares a word with the automaton it complements.
   */
  lemma NegatedStarAsWritten(g: Graph, newStart: StateId, newFinish: StateId, f: Fragment)
    requires WellFormed(g) && newStart != newFinish && f.isDFA
    ensures var s := StarFragmentAsWritten(f, newStart, newFinish); var h := StarGlue(g, newStart, newFinish, f);
      && s.isDFA
      && AcceptsSpec(h, s.start, s.accepting, false, [])
      && AcceptsSpec(h, s.start, s.accepting, true, [])
  {
    var h := StarGlue(g, newStart, newFinish, f);
    StarEdges(g, newStart, newFinish, f);
    StarAcceptsEmpty(g, newStart, newFinish, f);
    RecognisesIsAccepts(h, StarFragment(f, newStart, newFinish), []);
    assert newStart in Closure(h, {newStart}) && newStart !in {newFinish};
  }

  /**
   * With the flag cleared, `!` builds the subset automaton of the star,
   * whose start stands for the closure of the star's start; that DFA
   * rejects the empty word, as the complement of a star must.
   */
  lemma NegatedStarCorrected(g: Graph, newStart: StateId, newFinish: StateId, f: Fragment, syms: set<char>,
                             bySubset: map<StateId, set<StateId>>, bySet: map<set<StateId>, StateId>,
                             dg: Graph, dacc: set<StateId>, dstart: StateId)
    requires WellFormed(g)
    requires SubsetAutomaton(StarGlue(g, newStart, newFinish, f), {newFinish}, syms, bySubset, bySet, dg, dacc)
    requires dstart in dg && bySubset[dstart] == Closure(StarGlue(g, newStart, newFinish, f), {newStart})
    ensures !StarFragment(f, newStart, newFinish).isDFA
    ensures !AcceptsSpec(dg, dstart, dacc, false, [])
  {
    var h := StarGlue(g, newStart, newFinish, f);
    StarAcceptsEmpty(g, newStart, newFinish, f);
    RecognisesIsAccepts(h, StarFragment(f, newStart, newFinish), []);
    ComplementLanguage(h, newStart, {newFinish}, syms, bySubset, bySet, dg, dacc, dstart, []);
  }

  // ---------------------------------------------------------------------------
  // One generateNFA call on values
  // ---------------------------------------------------------------------------

  /**
   * What a generateNFA call works on: the operation stack and the automaton
   * stack (tops last), the edges of the states created so far and
   * lowestAvailableId.
   */
  datatype Machine = Machine(ops: seq<char>, automata: seq<Fragment>, graph: Graph, low: int)

  /** Nothing read yet: both stacks empty, no states, ids from 0. */
  const Initial: Machine := Machine([], [], map[], 0)

  /** generateNFAFromOneSymbol: two fresh states, the second reached from the first by the symbol. */
  function PushSymbol(m: Machine, c: char): Machine
  {
    Machine(m.ops, m.automata + [PairFragment(m.low)], SymbolGlue(m.graph, m.low, c), m.low + 2)
  }

  /** generateNFAFromEmptySymbol: two fresh states, the second reached from the first without reading. */
  function PushEmpty(m: Machine): Machine
  {
    Machine(m.ops, m.automata + [PairFragment(m.low)], SymbolGlue(m.graph, m.low, Epsilon), m.low + 2)
  }

  /** generateNFAFromAnySingleSymbol: two fresh states, the second reached from the first by any symbol. */
  function PushAny(m: Machine): Machine
  {
    Machine(m.ops, m.automata + [PairFragment(m.low)], AnyGlue(m.graph, m.low), m.low + 2)
  }

  /** evaluateConcatenation: the top automaton is the second operand; popping from too short a stack throws. */
  function Concatenate(m: Machine): (r: Result<Machine>)
    ensures r.Ok? <==> |m.automata| >= 2
    ensures r.Ok? ==> r.value.ops == m.ops && r.value.low == m.low && |r.value.automata| == |m.automata| - 1
  {
    if |m.automata| < 2 then Err(NoSuchElement)
    else
      var n := |m.automata|;
      var first, second := m.automata[n - 2], m.automata[n - 1];
      Ok(Machine(m.ops, m.automata[..n - 2] + [ConcatFragment(first, second)], ConcatGlue(m.graph, first, second), m.low))
  }

  /** evaluateUnion: two operands popped, two fresh states minted. */
  function Unite(m: Machine): (r: Result<Machine>)
    ensures r.Ok? <==> |m.automata| >= 2
    ensures r.Ok? ==> r.value.ops == m.ops && r.value.low == m.low + 2 && |r.value.automata| == |m.automata| - 1
  {
    if |m.automata| < 2 then Err(NoSuchElement)
    else
      var n := |m.automata|;
      var first, second := m.automata[n - 2], m.automata[n - 1];
      Ok(Machine(m.ops, m.automata[..n - 2] + [PairFragment(m.low)], UnionAt(m.graph, m.low, first, second), m.low + 2))
  }

  /** evaluateKleeneStar: one operand popped, two fresh states minted. */
  function Starred(m: Machine): (r: Result<Machine>)
    ensures r.Ok? <==> |m.automata| >= 1
    ensures r.Ok? ==> r.value.ops == m.ops && r.value.low == m.low + 2 && |r.value.automata| == |m.automata|
  {
    if m.automata == [] then Err(NoSuchElement)
    else
      var f := Last(m.automata);
      Ok(Machine(m.ops, AllButLast(m.automata) + [StarredAt(f, m.low)], StarAt(m.graph, m.low, f), m.low + 2))
  }

  /** An operation other than `)` and `!`, already popped: `&`, `|`, `*`, or `new NFA()` pushed for any other. */
  function Apply(op: char, m: Machine): (r: Result<Machine>)
    requires op != ')' && op != '!'
    ensures r.Ok? ==> r.value.ops == m.ops
  {
    if op == '&' then Concatenate(m)
    else if op == '|' then Unite(m)
    else if op == '*' then Starred(m)
    else Ok(m.(automata := m.automata + [EmptyAutomaton]))
  }

  /**
   * evaluate, for operation stacks without `!`: nothing happens on an empty
   * operation stack; otherwise the top operation is popped and applied, a
   * `)` by evaluating down to its `(`. Only operations are ever removed.
   */
  function Evaluated(m: Machine): (r: Result<Machine>)
    requires '!' !in m.ops
    ensures r.Ok? ==> r.value.ops <= m.ops && '!' !in r.value.ops
    ensures r.Ok? && m.ops != [] ==> |r.value.ops| < |m.ops|
    ensures m.ops == [] ==> r == Ok(m)
    decreases |m.ops|, 0
  {
    if m.ops == [] then Ok(m)
    else
      var op := Last(m.ops);
      var popped := m.(ops := AllButLast(m.ops));
      assert '!' !in popped.ops by {
        assert forall k :: 0 <= k < |popped.ops| ==> popped.ops[k] == m.ops[k];
      }
      if op == ')' then Parenthesised(popped) else Apply(op, popped)
  }

  /**
   * evaluateParentheses: evaluates until a `(` is on top and pops it; an
   * operation stack that runs out first unboxes the null of peek.
   */
  function Parenthesised(m: Machine): (r: Result<Machine>)
    requires '!' !in m.ops
    ensures r.Ok? ==> |r.value.ops| < |m.ops| && r.value.ops <= m.ops && '!' !in r.value.ops
    decreases |m.ops|, 1
  {
    if m.ops == [] then Err(NullPointer)
    else if Last(m.ops) == '(' then
      var popped := m.(ops := AllButLast(m.ops));
      assert '!' !in popped.ops by {
        assert forall k :: 0 <= k < |popped.ops| ==> popped.ops[k] == m.ops[k];
      }
      Ok(popped)
    else
      match Evaluated(m)
      case Err(e) => Err(e)
      case Ok(next) => Parenthesised(next)
  }

  /** The while loop before pushing operation c: evaluate while the top operation takes precedence over c. */
  function Reduced(m: Machine, c: char): (r: Result<Machine>)
    requires '!' !in m.ops
    ensures r.Ok? ==> r.value.ops <= m.ops && '!' !in r.value.ops
    ensures r.Ok? ==> r.value.ops == [] || !HasPrecedence(Last(r.value.ops), c)
    decreases |m.ops|
  {
    if m.ops != [] && HasPrecedence(Last(m.ops), c) then
      match Evaluated(m)
      case Err(e) => Err(e)
      case Ok(next) => Reduced(next, c)
    else Ok(m)
  }

  /** The while loop after the scan: evaluate until the operation stack is empty. */
  function Drained(m: Machine): (r: Result<Machine>)
    requires '!' !in m.ops
    ensures r.Ok? ==> r.value.ops == []
    decreases |m.ops|
  {
    if m.ops == [] then Ok(m)
    else
      match Evaluated(m)
      case Err(e) => Err(e)
      case Ok(next) => Drained(next)
  }

  /** What the symbol read pushes onto the automaton stack, before the operation check. */
  function Leaves(rev: Revision, A: set<char>, c: char, m: Machine): (r: Machine)
    ensures r.ops == m.ops
  {
    match rev
    case Current =>
      var m1 := if c == '#' then PushEmpty(m) else m;
      var m2 := if c == '.' then PushAny(m1) else m1;
      if c in A then PushSymbol(m2, c) else m2
    case Earlier =>
      if c in A || c == '#' then PushSymbol(m, c) else m
  }

  /**
   * One pass of the for loop at index i: an escaped symbol `/x` is read as
   * x, and the loop skips it; otherwise the leaves come first, and an
   * operation then reduces the stack and is pushed. The result is the new
   * machine and the next index.
   */
  function Read(rev: Revision, A: set<char>, O: set<char>, p: string, i: nat, m: Machine): (r: Result<(Machine, nat)>)
    requires i < |p| && '!' !in p && '!' !in m.ops
    ensures r.Ok? ==> i < r.value.1 && '!' !in r.value.0.ops
  {
    var c := p[i];
    if c == '/' then
      if i + 1 < |p| then Ok((PushSymbol(m, p[i + 1]), i + 2)) else Err(IndexOutOfBounds)
    else
      var m1 := Leaves(rev, A, c, m);
      if c in O then
        match Reduced(m1, c)
        case Err(e) => Err(e)
        case Ok(m2) => Ok((m2.(ops := m2.ops + [c]), i + 1))
      else Ok((m1, i + 1))
  }

  /** The for loop of generateNFA from index i on. */
  function Scanned(rev: Revision, A: set<char>, O: set<char>, p: string, i: nat, m: Machine): (r: Result<Machine>)
    requires '!' !in p && '!' !in m.ops
    ensures r.Ok? ==> '!' !in r.value.ops
    decreases |p| - i
  {
    if i >= |p| then Ok(m)
    else
      match Read(rev, A, O, p, i, m)
      case Err(e) => Err(e)
      case Ok((next, j)) => Scanned(rev, A, O, p, j, next)
  }

  /**
   * generateNFA after normalising, for a pattern without `!`: the scan, the
   * remaining operations, then the automaton popped from the top; an empty
   * automaton stack throws.
   */
  function Compiled(rev: Revision, A: set<char>, O: set<char>, p: string): (r: Result<Machine>)
    requires '!' !in p
    ensures r.Ok? ==> r.value.ops == [] && r.value.automata != []
  {
    match Scanned(rev, A, O, p, 0, Initial)
    case Err(e) => Err(e)
    case Ok(m) =>
      match Drained(m)
      case Err(e) => Err(e)
      case Ok(d) => if d.automata == [] then Err(NoSuchElement) else Ok(d)
  }
  // ---------------------------------------------------------------------------
  // Where the ids of one call lie
  // ---------------------------------------------------------------------------

  /**
   * A state id of the current call: one minted so far (0 as well, the id of
   * the lone state of `new NFA()`), or one the dfaGenerator handed out, which
   * lie between its highestAvailable and 0.
   */
  predicate IdFits(s: StateId, low: int, highest: int)
  {
    (0 <= s && (s < low || s == 0)) || (highest < s < 0)
  }

  predicate FragmentFits(f: Fragment, low: int, highest: int)
  {
    IdFits(f.start, low, highest) && forall s :: s in f.accepting ==> IdFits(s, low, highest)
  }

  predicate AllFit(fs: seq<Fragment>, low: int, highest: int)
  {
    forall k :: 0 <= k < |fs| ==> FragmentFits(fs[k], low, highest)
  }

  predicate GraphFits(g: Graph, low: int, highest: int)
  {
    forall s :: s in g ==> IdFits(s, low, highest)
  }

  /** Minting more ids, here or in the dfaGenerator, keeps every id fitting. */
  lemma FitsGrow(fs: seq<Fragment>, g: Graph, low: int, highest: int, low': int, highest': int)
    requires AllFit(fs, low, highest) && GraphFits(g, low, highest) && low <= low' && highest' <= highest
    ensures AllFit(fs, low', highest') && GraphFits(g, low', highest')
  {
  }

  /** The top `n` automata removed from a stack whose automata fit still leave a stack whose automata fit. */
  lemma FitsPrefix(fs: seq<Fragment>, n: nat, low: int, highest: int)
    requires AllFit(fs, low, highest) && n <= |fs|
    ensures AllFit(fs[..n], low, highest)
    ensures forall k :: n <= k < |fs| ==> FragmentFits(fs[k], low, highest)
  {
  }

  lemma FitsPush(fs: seq<Fragment>, f: Fragment, low: int, highest: int)
    requires AllFit(fs, low, highest) && FragmentFits(f, low, highest)
    ensures AllFit(fs + [f], low, highest)
  {
  }

  lemma PrefixTransitive<T>(a: seq<T>, b: seq<T>, c: seq<T>)
    requires a <= b && b <= c
    ensures a <= c
  {
  }

  lemma PrefixKeeps(a: seq<char>, b: seq<char>)
    requires a <= b && '!' !in b
    ensures '!' !in a
  {
    assert forall k :: 0 <= k < |a| ==> a[k] == b[k];
  }

  /** Edges between ids that fit keep the graph's ids fitting. */
  lemma LinkFits(g: Graph, S: set<StateId>, c: char, T: set<StateId>, low: int, highest: int)
    requires GraphFits(g, low, highest)
    requires forall s :: s in S ==> IdFits(s, low, highest)
    requires forall t :: t in T ==> IdFits(t, low, highest)
    ensures GraphFits(LinkAll(g, S, c, T), low, highest)
  {
  }

  /** The edges are well formed, and every id in them and in `automata` fits. */
  predicate FitsAll(g: Graph, automata: seq<Fragment>, low: int, highest: int)
  {
    WellFormed(g) && 0 <= low && GraphFits(g, low, highest) && AllFit(automata, low, highest)
  }

  lemma ConcatGlueFits(g: Graph, first: Fragment, second: Fragment, low: int, highest: int)
    requires FitsAll(g, [], low, highest) && FragmentFits(first, low, highest) && FragmentFits(second, low, highest)
    ensures FitsAll(ConcatGlue(g, first, second), [], low, highest)
    ensures FragmentFits(ConcatFragment(first, second), low, highest)
  {
    LinkFits(g, first.accepting, Epsilon, {second.start}, low, highest);
  }

  /** The leaf's two states are `start` and `end`, lowestAvailableId then `next`. */
  lemma LeafMinted(g: Graph, start: int, end: int, next: int, c: char, highest: int)
    requires FitsAll(g, [], start, highest) && end == start + 1 && next == end + 1
    ensures LinkAll(g, {start}, c, {end}) == SymbolGlue(g, start, c) && LinkAny(g, start, end) == AnyGlue(g, start)
    ensures Plain(start, {end}) == PairFragment(start)
    ensures FitsAll(SymbolGlue(g, start, c), [], next, highest) && FitsAll(AnyGlue(g, start), [], next, highest)
    ensures FragmentFits(PairFragment(start), next, highest)
  {
    assert GraphFits(g, next, highest);
    LinkFits(g, {start}, c, {end}, next, highest);
  }

  lemma UnionSteps(g: Graph, start: StateId, finish: StateId, first: Fragment, second: Fragment)
    ensures LinkAll(LinkAll(LinkAll(LinkAll(g, {start}, Epsilon, {first.start}), {start}, Epsilon, {second.start}),
                            first.accepting, Epsilon, {finish}), second.accepting, Epsilon, {finish})
            == UnionGlue(g, start, finish, first, second)
  {
    LinkBoth(g, start, Epsilon, first.start, second.start);
    var g1 := LinkAll(g, {start}, Epsilon, {first.start, second.start});
    LinkUnion(g1, first.accepting, second.accepting, Epsilon, {finish});
  }

  lemma UnionFits(g: Graph, start: StateId, finish: StateId, first: Fragment, second: Fragment, next: int, highest: int)
    requires FitsAll(g, [], start, highest) && FragmentFits(first, start, highest) && FragmentFits(second, start, highest)
    requires 0 <= start < finish < next
    ensures FitsAll(UnionGlue(g, start, finish, first, second), [], next, highest)
    ensures FragmentFits(Plain(start, {finish}), next, highest)
  {
    assert GraphFits(g, next, highest) && FragmentFits(first, next, highest) && FragmentFits(second, next, highest);
    LinkFits(g, {start}, Epsilon, {first.start, second.start}, next, highest);
    var g1 := LinkAll(g, {start}, Epsilon, {first.start, second.start});
    LinkFits(g1, first.accepting + second.accepting, Epsilon, {finish}, next, highest);
  }

  /** The union's two new states are `start` and `finish`, its edges added in evaluateUnion's order. */
  lemma UnionMinted(g: Graph, h: Graph, start: int, finish: int, next: int, first: Fragment, second: Fragment,
                    highest: int)
    requires FitsAll(g, [], start, highest) && FragmentFits(first, start, highest) && FragmentFits(second, start, highest)
    requires finish == start + 1 && next == finish + 1
    requires h == LinkAll(LinkAll(LinkAll(LinkAll(g, {start}, Epsilon, {first.start}), {start}, Epsilon, {second.start}),
                                  first.accepting, Epsilon, {finish}), second.accepting, Epsilon, {finish})
    ensures h == UnionAt(g, start, first, second) && Plain(start, {finish}) == PairFragment(start)
    ensures FitsAll(h, [], next, highest) && FragmentFits(PairFragment(start), next, highest)
  {
    UnionSteps(g, start, finish, first, second);
    UnionFits(g, start, finish, first, second, next, highest);
  }

  lemma StarSteps(g: Graph, newStart: StateId, newFinish: StateId, f: Fragment)
    ensures LinkAll(LinkAll(LinkAll(g, {newStart}, Epsilon, {f.start}), {newStart}, Epsilon, {newFinish}),
                    f.accepting, Epsilon, {f.start, newFinish})
            == StarGlue(g, newStart, newFinish, f)
  {
    LinkBoth(g, newStart, Epsilon, f.start, newFinish);
    LinkUnion(g, {newStart}, f.accepting, Epsilon, {f.start, newFinish});
  }

  lemma StarFits(g: Graph, newStart: StateId, newFinish: StateId, f: Fragment, next: int, highest: int)
    requires FitsAll(g, [], newStart, highest) && FragmentFits(f, newStart, highest)
    requires 0 <= newStart < newFinish < next
    ensures FitsAll(StarGlue(g, newStart, newFinish, f), [], next, highest)
    ensures FragmentFits(StarFragment(f, newStart, newFinish), next, highest)
  {
    assert GraphFits(g, next, highest) && FragmentFits(f, next, highest);
    LinkFits(g, {newStart} + f.accepting, Epsilon, {f.start, newFinish}, next, highest);
  }

  /** The star's two new states are `newStart` and `newFinish`, its edges added in evaluateKleeneStar's order. */
  lemma StarMinted(g: Graph, h: Graph, newStart: int, newFinish: int, next: int, f: Fragment, highest: int)
    requires FitsAll(g, [], newStart, highest) && FragmentFits(f, newStart, highest)
    requires newFinish == newStart + 1 && next == newFinish + 1
    requires h == LinkAll(LinkAll(LinkAll(g, {newStart}, Epsilon, {f.start}), {newStart}, Epsilon, {newFinish}),
                          f.accepting, Epsilon, {f.start, newFinish})
    ensures h == StarAt(g, newStart, f) && StarFragment(f, newStart, newFinish) == StarredAt(f, newStart)
    ensures FitsAll(h, [], next, highest) && FragmentFits(StarredAt(f, newStart), next, highest)
  {
    StarSteps(g, newStart, newFinish, f);
    StarFits(g, newStart, newFinish, f, next, highest);
  }

  /** The dfaGenerator's states a complement brings along fit, and so does the complement. */
  lemma MergeFits(g: Graph, automata: seq<Fragment>, low: int, highest: int, gen: DFAGenerator, n: NFA)
    requires FitsAll(g, automata, low, highest) && gen.highestAvailable <= highest && gen.firstId < 0
    requires gen.HandedOut(n) && WellFormed(n.graph)
    ensures FitsAll(Merge(g, n.graph), automata, low, gen.highestAvailable)
    ensures FragmentFits(FragmentOf(n), low, gen.highestAvailable)
  {
    MergeWellFormed(g, n.graph);
    FitsGrow(automata, g, low, highest, low, gen.highestAvailable);
    forall s | s in n.accepting ensures IdFits(s, low, gen.highestAvailable) {
      assert s in n.graph;
    }
  }

  /** Ids handed out after the current edges were made are not among them. */
  lemma FreshApart(g: Graph, low: int, highest: int, dg: Graph)
    requires GraphFits(g, low, highest) && highest < 0
    requires forall d :: d in dg ==> d <= highest
    ensures g.Keys !! dg.Keys
  {
    forall s | s in g.Keys ensures s !in dg.Keys {
      assert IdFits(s, low, highest);
    }
  }

  /** A complement's language stays the same once its states join edges they are apart from. */
  lemma ComplementMerged(g: Graph, dg: Graph, start: StateId, accepting: set<StateId>, f: Fragment)
    requires WellFormed(g) && WellFormed(dg) && start in dg && g.Keys !! dg.Keys
    requires forall w :: OverSymbols(w, SymbolSet) ==> AcceptsSpec(dg, start, accepting, false, w) == !Recognises(g, f, w)
    ensures WellFormed(Merge(g, dg))
    ensures forall w :: OverSymbols(w, SymbolSet) ==>
      AcceptsSpec(Merge(g, dg), start, accepting, false, w) == !Recognises(g, f, w)
  {
    MergeWellFormed(g, dg);
    forall w | OverSymbols(w, SymbolSet)
      ensures AcceptsSpec(Merge(g, dg), start, accepting, false, w) == !Recognises(g, f, w)
    {
      MergeAcceptsInside(g, dg, start, accepting, false, w);
    }
  }

  /**
   * The edges after a complement joins them: the operand inverted in place
   * leaves them as they were; a cached or fresh complement brings states
   * apart from them, and a fresh one keeps its language.
   */
  lemma ComplementJoined(g: Graph, rest: seq<Fragment>, low: int, highest: int, highest': int, firstId: int,
                         dg: Graph, c: Fragment, f: Fragment, hit: bool)
    requires FitsAll(g, rest, low, highest) && FragmentFits(f, low, highest) && highest' <= highest && firstId < 0
    requires WellFormed(dg)
    requires !hit && f.isDFA ==> c == f.(inverted := !f.inverted) && dg == g
    requires hit || !f.isDFA ==>
      c.start in dg && c.accepting <= dg.Keys && forall d :: d in dg ==> highest' < d <= firstId
    requires !hit && !f.isDFA ==>
      && g.Keys !! dg.Keys
      && forall w :: OverSymbols(w, SymbolSet) ==> AcceptsSpec(dg, c.start, c.accepting, false, w) == !Recognises(g, f, w)
    ensures FitsAll(Merge(g, dg), rest, low, highest') && FragmentFits(c, low, highest')
    ensures !hit && f.isDFA ==> Merge(g, dg) == g
    ensures !hit && !f.isDFA ==> forall w :: OverSymbols(w, SymbolSet) ==>
      AcceptsSpec(Merge(g, dg), c.start, c.accepting, false, w) == !Recognises(g, f, w)
  {
    FitsGrow(rest, g, low, highest, low, highest');
    if !hit && f.isDFA {
      MergeSelf(g);
    } else {
      MergeWellFormed(g, dg);
      forall s | s in c.accepting ensures IdFits(s, low, highest') {
        assert s in dg;
      }
      if !hit {
        ComplementMerged(g, dg, c.start, c.accepting, f);
      }
    }
  }

  /** The flags and the two state sets of an NFA object. */
  function FragmentOf(n: NFA): Fragment
    reads n
  {
    Fragment(n.start, n.accepting, n.inverted, n.isDFA, n.cacheEnabled)
  }

  /** The fields NFA.equals compares, for the automaton f. */
  function KeyOf(f: Fragment): Key
  {
    Key(f.inverted, f.isDFA, f.start, f.accepting)
  }

  /**
   * The dfaGenerator's cache holds an automaton that NFA.equals finds equal
   * to a new NFA object for f: one with f's flags and start, where neither
   * accepts anything. A new object with accepting states equals no cached one.
   */
  ghost predicate CachedAlike(cache: map<NFA, NFA>, f: Fragment)
    reads cache.Keys
  {
    f.accepting == {} && exists k :: k in cache && k.GetKey() == KeyOf(f)
  }

  /** For a new NFA object with f's fields, NFA.equals finds a cached automaton exactly when CachedAlike holds. */
  lemma CachedOperand(cache: map<NFA, NFA>, operand: NFA, f: Fragment)
    requires operand !in cache && operand.GetKey() == KeyOf(f)
    ensures (exists k :: k in cache && k.Equals(operand)) == CachedAlike(cache, f)
  {
    forall k | k in cache ensures k.Equals(operand) == (f.accepting == {} && k.GetKey() == KeyOf(f)) {
      assert k != operand;
    }
  }

  /** A method's outcome agrees with a step of the specification: the same error, or success leaving `now`. */
  predicate Matches<T>(r: Result<T>, spec: Result<Machine>, now: Machine)
  {
    match spec
    case Err(e) => r == Err(e)
    case Ok(m) => r.Ok? && now == m
  }

  /** A pass of the method's loop agrees with the specification's: the same error, or the same machine and index. */
  predicate ReadMatches(r: Result<nat>, spec: Result<(Machine, nat)>, now: Machine)
  {
    match spec
    case Err(e) => r == Err(e)
    case Ok((m, j)) => r == Ok(j) && now == m
  }

  /** generateNFA's result agrees with the specification: the same error, or the top automaton over the final edges. */
  predicate Yields(r: Result<NFA>, spec: Result<Machine>)
    reads if r.Ok? then {r.value} else {}
  {
    match spec
    case Err(e) => r == Err(e)
    case Ok(m) => r.Ok? && m.automata != [] && FragmentOf(r.value) == Last(m.automata) && r.value.graph == m.graph
  }

  /** A pass that agrees with Read leaves the rest of the scan as it was. */
  lemma ScanPass(rev: Revision, A: set<char>, O: set<char>, p: string, i: nat, m: Machine, now: Machine, r: Result<nat>)
    requires i < |p| && '!' !in p && '!' !in m.ops
    requires ReadMatches(r, Read(rev, A, O, p, i, m), now)
    ensures r.Ok? ==> '!' !in now.ops && Scanned(rev, A, O, p, r.value, now) == Scanned(rev, A, O, p, i, m)
    ensures r.Err? ==> Scanned(rev, A, O, p, i, m) == Err(r.error)
  {
  }

  // ---------------------------------------------------------------------------
  // The generator
  // ---------------------------------------------------------------------------

  class NFAGenerator {
    /** Which of the two classes this object is. */
    const revision: Revision
    /** The automata generated so far, by normalised pattern. */
    var cache: map<string, NFA>
    var cacheEnabled: bool
    var alphabet: set<char>
    const operations: set<char>
    /** The lowest id no state of the current call has yet. */
    var lowestAvailableId: int
    const patternProcessor: PatternProcessing.PatternProcessor
    const dfaGenerator: DFAGenerator
    /** The successor sets of the states created during the current call. */
    var graph: Graph

    /** What the operations keep: the dfaGenerator hands out negative ids and its cache is sound. */
    ghost predicate Ready()
      reads dfaGenerator, dfaGenerator.cache.Values
    {
      '&' !in patternProcessor.alphabet && dfaGenerator.Valid() && dfaGenerator.firstId < 0
    }

    /** Every automaton generateNFA has cached is valid. */
    ghost predicate CacheValid()
      reads this`cache, cache.Values
    {
      forall p :: p in cache ==> cache[p].Valid()
    }

    /** The edges are well formed, and every id in them and in `automata` was handed out in this call. */
    ghost predicate IdsFit(automata: seq<Fragment>)
      reads this`graph, this`lowestAvailableId, dfaGenerator`highestAvailable
    {
      FitsAll(graph, automata, lowestAvailableId, dfaGenerator.highestAvailable)
    }

    ghost predicate Valid()
      reads this, dfaGenerator, dfaGenerator.cache.Values, cache.Values
    {
      Ready() && CacheValid() && IdsFit([])
    }

    /** The state of a generateNFA call: the two stacks, the edges and lowestAvailableId. */
    ghost function MachineOf(ops: OwnStack<char>, automata: OwnStack<Fragment>): Machine
      reads this, ops, automata
    {
      Machine(ops.elems, automata.elems, graph, lowestAvailableId)
    }

    /** `new NFAGenerator(cacheEnabled)`: the default sets, and a dfaGenerator that hands out ids from -1 down. */
    constructor (revision: Revision, cacheEnabled: bool)
      ensures Valid() && this.revision == revision && this.cacheEnabled == cacheEnabled && cache == map[]
      ensures alphabet == Utilities.DefaultAlphabet && operations == Utilities.DefaultBasicOperations
      ensures patternProcessor.alphabet == Utilities.DefaultAlphabet
      ensures patternProcessor.shorthandSymbols == Utilities.DefaultShorthands
      ensures fresh(dfaGenerator) && dfaGenerator.highestAvailable == -1 && dfaGenerator.cache == map[]
    {
      this.revision := revision;
      cache := map[];
      this.cacheEnabled := cacheEnabled;
      alphabet := Utilities.DefaultAlphabet;
      operations := Utilities.DefaultBasicOperations;
      patternProcessor := new PatternProcessing.PatternProcessor(Utilities.DefaultAlphabet, Utilities.DefaultShorthands);
      dfaGenerator := new DFAGenerator(-1);
      lowestAvailableId := 0;
      graph := map[];
      Utilities.AlphabetMembership('&');
    }

    /** `new NFAGenerator()`: the same, with caching on. */
    constructor Default(revision: Revision)
      ensures Valid() && this.revision == revision && cacheEnabled && cache == map[]
      ensures alphabet == Utilities.DefaultAlphabet && operations == Utilities.DefaultBasicOperations
      ensures patternProcessor.alphabet == Utilities.DefaultAlphabet
      ensures patternProcessor.shorthandSymbols == Utilities.DefaultShorthands
      ensures fresh(dfaGenerator) && dfaGenerator.highestAvailable == -1 && dfaGenerator.cache == map[]
    {
      this.revision := revision;
      cache := map[];
      cacheEnabled := true;
      alphabet := Utilities.DefaultAlphabet;
      operations := Utilities.DefaultBasicOperations;
      patternProcessor := new PatternProcessing.PatternProcessor(Utilities.DefaultAlphabet, Utilities.DefaultShorthands);
      dfaGenerator := new DFAGenerator(-1);
      lowestAvailableId := 0;
      graph := map[];
      Utilities.AlphabetMembership('&');
    }

    function GetAlphabet(): set<char>
      reads this
    {
      alphabet
    }

    function GetOperations(): set<char>
    {
      operations
    }

    function GetLowestAvailableId(): int
      reads this
    {
      lowestAvailableId
    }

    function IsCacheEnabled(): bool
      reads this
    {
      cacheEnabled
    }

    method SetAlphabet(a: set<char>)
      requires Valid()
      modifies this`alphabet
      ensures Valid() && alphabet == a
    {
      alphabet := a;
    }

    // The leaves: each a fresh pair of states, or one state

    /** generateNFAFromOneSymbol: the second new state is reached from the first by `symbol`. */
    method GenerateNFAFromOneSymbol(symbol: char) returns (f: Fragment)
      requires IdsFit([])
      modifies this`graph, this`lowestAvailableId
      ensures IdsFit([]) && lowestAvailableId == old(lowestAvailableId) + 2
      ensures f == PairFragment(old(lowestAvailableId))
      ensures graph == SymbolGlue(old(graph), old(lowestAvailableId), symbol)
      ensures FragmentFits(f, lowestAvailableId, dfaGenerator.highestAvailable)
    {
      ghost var g0 := graph;
      var start := lowestAvailableId;
      lowestAvailableId := lowestAvailableId + 1;
      var end := lowestAvailableId;
      lowestAvailableId := lowestAvailableId + 1;
      graph := LinkAll(graph, {start}, symbol, {end});
      f := Plain(start, {end});
      LeafMinted(g0, start, end, lowestAvailableId, symbol, dfaGenerator.highestAvailable);
    }

    /** generateNFAFromEmptySymbol: the second new state is reached from the first without reading. */
    method GenerateNFAFromEmptySymbol() returns (f: Fragment)
      requires IdsFit([])
      modifies this`graph, this`lowestAvailableId
      ensures IdsFit([]) && lowestAvailableId == old(lowestAvailableId) + 2
      ensures f == PairFragment(old(lowestAvailableId))
      ensures graph == SymbolGlue(old(graph), old(lowestAvailableId), Epsilon)
      ensures FragmentFits(f, lowestAvailableId, dfaGenerator.highestAvailable)
    {
      ghost var g0 := graph;
      var start := lowestAvailableId;
      lowestAvailableId := lowestAvailableId + 1;
      var end := lowestAvailableId;
      lowestAvailableId := lowestAvailableId + 1;
      graph := LinkAll(graph, {start}, Epsilon, {end});
      f := Plain(start, {end});
      LeafMinted(g0, start, end, lowestAvailableId, Epsilon, dfaGenerator.highestAvailable);
    }

    /** generateNFAFromAnySingleSymbol: the second new state is reached from the first by any symbol. */
    method GenerateNFAFromAnySingleSymbol() returns (f: Fragment)
      requires IdsFit([])
      modifies this`graph, this`lowestAvailableId
      ensures IdsFit([]) && lowestAvailableId == old(lowestAvailableId) + 2
      ensures f == PairFragment(old(lowestAvailableId))
      ensures graph == AnyGlue(old(graph), old(lowestAvailableId))
      ensures FragmentFits(f, lowestAvailableId, dfaGenerator.highestAvailable)
    {
      ghost var g0 := graph;
      var start := lowestAvailableId;
      lowestAvailableId := lowestAvailableId + 1;
      var end := lowestAvailableId;
      lowestAvailableId := lowestAvailableId + 1;
      graph := LinkAny(graph, start, end);
      f := Plain(start, {end});
      LeafMinted(g0, start, end, lowestAvailableId, Epsilon, dfaGenerator.highestAvailable);
    }

    /** generateNFAFromEmptyString: one new state, accepting, with no edges. */
    method GenerateNFAFromEmptyString() returns (f: Fragment)
      requires IdsFit([])
      modifies this`lowestAvailableId
      ensures IdsFit([]) && lowestAvailableId == old(lowestAvailableId) + 1
      ensures f == Plain(old(lowestAvailableId), {old(lowestAvailableId)})
      ensures FragmentFits(f, lowestAvailableId, dfaGenerator.highestAvailable)
    {
      var s := lowestAvailableId;
      lowestAvailableId := lowestAvailableId + 1;
      f := Plain(s, {s});
    }

    /** The for loops that give every state of `sources` edges without reading to `targets`, one state at a time. */
    method LinkEach(sources: set<StateId>, targets: set<StateId>)
      modifies this`graph
      ensures graph == LinkAll(old(graph), sources, Epsilon, targets)
    {
      ghost var g0 := graph;
      var rest := sources;
      LinkNone(g0, Epsilon, targets);
      assert sources - rest == {};
      while rest != {}
        invariant rest <= sources
        invariant graph == LinkAll(g0, sources - rest, Epsilon, targets)
        decreases |rest|
      {
        NonEmptyHasMember(rest);
        var s :| s in rest;
        LinkUnion(g0, sources - rest, {s}, Epsilon, targets);
        TakeOne(sources, rest, s);
        graph := LinkAll(graph, {s}, Epsilon, targets);
        rest := rest - {s};
      }
      assert sources - rest == sources;
    }


    /** evaluateUnion after the pops: two new states, and the edges it adds, in its order. */
    method UniteFragments(first: Fragment, second: Fragment) returns (r: Fragment)
      requires IdsFit([]) && FragmentFits(first, lowestAvailableId, dfaGenerator.highestAvailable)
      requires FragmentFits(second, lowestAvailableId, dfaGenerator.highestAvailable)
      modifies this`graph, this`lowestAvailableId
      ensures IdsFit([]) && lowestAvailableId == old(lowestAvailableId) + 2
      ensures r == PairFragment(old(lowestAvailableId))
      ensures graph == UnionAt(old(graph), old(lowestAvailableId), first, second)
      ensures FragmentFits(r, lowestAvailableId, dfaGenerator.highestAvailable)
    {
      ghost var g0 := graph;
      var start := lowestAvailableId;
      lowestAvailableId := lowestAvailableId + 1;
      var finish := lowestAvailableId;
      lowestAvailableId := lowestAvailableId + 1;
      graph := LinkAll(graph, {start}, Epsilon, {first.start});
      graph := LinkAll(graph, {start}, Epsilon, {second.start});
      LinkEach(first.accepting, {finish});
      LinkEach(second.accepting, {finish});
      r := Plain(start, {finish});
      UnionMinted(g0, graph, start, finish, lowestAvailableId, first, second, dfaGenerator.highestAvailable);
    }

    /** evaluateKleeneStar after the pop: two new states, and the edges it adds, in its order. */
    method StarFragmentOf(f: Fragment) returns (r: Fragment)
      requires IdsFit([]) && FragmentFits(f, lowestAvailableId, dfaGenerator.highestAvailable)
      modifies this`graph, this`lowestAvailableId
      ensures IdsFit([]) && lowestAvailableId == old(lowestAvailableId) + 2
      ensures r == StarredAt(f, old(lowestAvailableId))
      ensures graph == StarAt(old(graph), old(lowestAvailableId), f)
      ensures FragmentFits(r, lowestAvailableId, dfaGenerator.highestAvailable)
    {
      ghost var g0 := graph;
      var newStart := lowestAvailableId;
      lowestAvailableId := lowestAvailableId + 1;
      var newFinish := lowestAvailableId;
      lowestAvailableId := lowestAvailableId + 1;
      graph := LinkAll(graph, {newStart}, Epsilon, {f.start});
      graph := LinkAll(graph, {newStart}, Epsilon, {newFinish});
      LinkEach(f.accepting, {f.start, newFinish});
      // the popped automaton gets the new start and finish; the model also clears its DFA flag (see StarFragment)
      r := StarFragment(f, newStart, newFinish);
      StarMinted(g0, graph, newStart, newFinish, lowestAvailableId, f, dfaGenerator.highestAvailable);
    }

    // The operations, on the automaton stack

    /** evaluateConcatenation: the accepting states of the lower operand move to the top operand's start. */
    method EvaluateConcatenation(automata: OwnStack<Fragment>) returns (r: Result<Fragment>)
      requires IdsFit(automata.elems)
      modifies this`graph, automata
      ensures IdsFit(automata.elems)
      ensures |old(automata.elems)| < 2 ==> r == Err(NoSuchElement)
      ensures |old(automata.elems)| >= 2 ==>
        var n := |old(automata.elems)|;
        var first, second := old(automata.elems)[n - 2], old(automata.elems)[n - 1];
        && r == Ok(ConcatFragment(first, second)) && automata.elems == old(automata.elems)[..n - 2]
        && graph == ConcatGlue(old(graph), first, second)
        && FragmentFits(r.value, lowestAvailableId, dfaGenerator.highestAvailable)
    {
      ghost var before := automata.elems;
      FitsPrefix(before, if |before| < 2 then 0 else |before| - 2, lowestAvailableId, dfaGenerator.highestAvailable);
      var popped2 := automata.Pop();
      if popped2.Err? {
        return Err(popped2.error);
      }
      var popped1 := automata.Pop();
      if popped1.Err? {
        return Err(popped1.error);
      }
      var second, first := popped2.value, popped1.value;
      ghost var g0 := graph;
      LinkEach(first.accepting, {second.start});
      r := Ok(ConcatFragment(first, second));
      ConcatGlueFits(g0, first, second, lowestAvailableId, dfaGenerator.highestAvailable);
    }

    /** evaluateUnion: a new start moving to both operands' starts, a new finish reached from all their accepting states. */
    method EvaluateUnion(automata: OwnStack<Fragment>) returns (r: Result<Fragment>)
      requires IdsFit(automata.elems)
      modifies this`graph, this`lowestAvailableId, automata
      ensures IdsFit(automata.elems)
      ensures |old(automata.elems)| < 2 ==> r == Err(NoSuchElement) && lowestAvailableId == old(lowestAvailableId)
      ensures |old(automata.elems)| >= 2 ==>
        var n := |old(automata.elems)|;
        var first, second := old(automata.elems)[n - 2], old(automata.elems)[n - 1];
        && r == Ok(PairFragment(old(lowestAvailableId))) && automata.elems == old(automata.elems)[..n - 2]
        && graph == UnionAt(old(graph), old(lowestAvailableId), first, second)
        && lowestAvailableId == old(lowestAvailableId) + 2
        && FragmentFits(r.value, lowestAvailableId, dfaGenerator.highestAvailable)
    {
      ghost var before := automata.elems;
      FitsPrefix(before, if |before| < 2 then 0 else |before| - 2, lowestAvailableId, dfaGenerator.highestAvailable);
      var popped2 := automata.Pop();
      if popped2.Err? {
        return Err(popped2.error);
      }
      var popped1 := automata.Pop();
      if popped1.Err? {
        return Err(popped1.error);
      }
      var second, first := popped2.value, popped1.value;
      ghost var g0, low0 := graph, lowestAvailableId;
      var f := UniteFragments(first, second);
      r := Ok(f);
      FitsGrow(automata.elems, g0, low0, dfaGenerator.highestAvailable, lowestAvailableId, dfaGenerator.highestAvailable);
    }

    /** evaluateKleeneStar: a new start and every accepting state move to the old start and to a new finish. */
    method EvaluateKleeneStar(automata: OwnStack<Fragment>) returns (r: Result<Fragment>)
      requires IdsFit(automata.elems)
      modifies this`graph, this`lowestAvailableId, automata
      ensures IdsFit(automata.elems)
      ensures old(automata.elems) == [] ==> r == Err(NoSuchElement) && lowestAvailableId == old(lowestAvailableId)
      ensures old(automata.elems) != [] ==>
        var f := Last(old(automata.elems));
        && r == Ok(StarredAt(f, old(lowestAvailableId))) && automata.elems == AllButLast(old(automata.elems))
        && graph == StarAt(old(graph), old(lowestAvailableId), f) && lowestAvailableId == old(lowestAvailableId) + 2
        && FragmentFits(r.value, lowestAvailableId, dfaGenerator.highestAvailable)
    {
      ghost var before := automata.elems;
      FitsPrefix(before, if before == [] then 0 else |before| - 1, lowestAvailableId, dfaGenerator.highestAvailable);
      var popped := automata.Pop();
      if popped.Err? {
        return Err(popped.error);
      }
      var f := popped.value;
      ghost var g0, low0 := graph, lowestAvailableId;
      var starred := StarFragmentOf(f);
      r := Ok(starred);
      FitsGrow(automata.elems, g0, low0, dfaGenerator.highestAvailable, lowestAvailableId, dfaGenerator.highestAvailable);
    }

    /** A new NFA object for the automaton f over the edges made so far. */
    method OperandOf(f: Fragment) returns (operand: NFA)
      requires WellFormed(graph)
      ensures fresh(operand) && operand.Valid() && FragmentOf(operand) == f && operand.graph == graph
    {
      operand := new NFA.Full(graph, f.start, f.accepting, f.isDFA, f.caching);
      if f.inverted {
        operand.Invert();
      }
    }

    /**
     * generateComplementDFA on the automaton f, as an NFA object over the
     * edges made so far: from the dfaGenerator's cache, by inverting a DFA,
     * or by the subset construction (whose states get new ids).
     */
    method ComplementOf(f: Fragment) returns (dfa: NFA, ghost hit: bool, ghost found: NFA?)
      requires Ready() && IdsFit([])
      modifies dfaGenerator
      ensures Ready() && dfa.Valid() && dfaGenerator.highestAvailable <= old(dfaGenerator.highestAvailable)
      ensures hit == old(dfaGenerator.cacheEnabled && CachedAlike(dfaGenerator.cache, f))
      ensures hit ==>
        && dfaGenerator.HandedOut(dfa) && dfaGenerator.cache == old(dfaGenerator.cache)
        && found != null && found in dfaGenerator.cache && found.GetKey() == KeyOf(f) && dfa == dfaGenerator.cache[found]
      ensures !hit && f.isDFA ==> FragmentOf(dfa) == f.(inverted := !f.inverted) && dfa.graph == graph
      ensures !hit && !f.isDFA ==>
        && dfa.isDFA && !dfa.inverted && !dfa.cacheEnabled && dfaGenerator.HandedOut(dfa)
        && graph.Keys !! dfa.graph.Keys
        && forall w :: OverSymbols(w, SymbolSet) ==>
             AcceptsSpec(dfa.graph, dfa.start, dfa.accepting, false, w) == !Recognises(graph, f, w)
    {
      ghost var h0 := dfaGenerator.highestAvailable;
      hit := dfaGenerator.cacheEnabled && CachedAlike(dfaGenerator.cache, f);
      var operand := OperandOf(f);
      CachedOperand(dfaGenerator.cache, operand, f);
      assert hit == (dfaGenerator.cacheEnabled && dfaGenerator.Cached(operand));
      assert dfaGenerator.cache == old(dfaGenerator.cache);
      ghost var bySubset: map<StateId, set<StateId>>, bySet: map<set<StateId>, StateId>;
      dfa, bySubset, bySet, found := dfaGenerator.GenerateComplementDFA(operand);
      if hit {
        assert found != operand;
      }
      if !hit && !f.isDFA {
        FreshApart(graph, lowestAvailableId, h0, dfa.graph);
        forall w | OverSymbols(w, SymbolSet)
          ensures AcceptsSpec(dfa.graph, dfa.start, dfa.accepting, false, w) == !Recognises(graph, f, w)
        {
          RecognisesIsAccepts(graph, f, w);
        }
      }
    }

    /**
     * The complement of the popped automaton f, with its states joined to
     * the edges made so far; rest is what stays on the automaton stack.
     */
    method MergedComplement(f: Fragment, ghost rest: seq<Fragment>) returns (c: Fragment, ghost hit: bool, ghost found: NFA?)
      requires Ready() && IdsFit(rest) && FragmentFits(f, lowestAvailableId, dfaGenerator.highestAvailable)
      modifies this`graph, dfaGenerator
      ensures Ready() && IdsFit(rest) && FragmentFits(c, lowestAvailableId, dfaGenerator.highestAvailable)
      ensures hit == old(dfaGenerator.cacheEnabled && CachedAlike(dfaGenerator.cache, f))
      ensures hit ==>
        && dfaGenerator.cache == old(dfaGenerator.cache)
        && found != null && found in dfaGenerator.cache && found.GetKey() == KeyOf(f)
        && c == FragmentOf(dfaGenerator.cache[found])
      ensures !hit && f.isDFA ==> c == f.(inverted := !f.inverted) && graph == old(graph)
      ensures !hit && !f.isDFA ==>
        && c.isDFA && !c.inverted && !c.caching
        && forall w :: OverSymbols(w, SymbolSet) ==>
             AcceptsSpec(graph, c.start, c.accepting, false, w) == !Recognises(old(graph), f, w)
    {
      ghost var g0, h0 := graph, dfaGenerator.highestAvailable;
      var dfa;
      dfa, hit, found := ComplementOf(f);
      graph := Merge(graph, dfa.graph);
      c := FragmentOf(dfa);
      ComplementJoined(g0, rest, lowestAvailableId, h0, dfaGenerator.highestAvailable, dfaGenerator.firstId,
                       dfa.graph, c, f, hit);
    }

    /**
     * The `!` case of evaluate: the top automaton is popped and replaced by
     * its complement, whose states join the edges made so far.
     */
    method EvaluateComplement(automata: OwnStack<Fragment>) returns (r: Result<Fragment>)
      requires Ready() && IdsFit(automata.elems)
      modifies this`graph, automata, dfaGenerator
      ensures Ready() && IdsFit(automata.elems)
      ensures old(automata.elems) == [] ==> r == Err(NoSuchElement) && automata.elems == [] && graph == old(graph)
      ensures old(automata.elems) != [] ==>
        && r.Ok? && automata.elems == AllButLast(old(automata.elems))
        && FragmentFits(r.value, lowestAvailableId, dfaGenerator.highestAvailable)
      ensures old(automata.elems) != [] ==>
        var f := Last(old(automata.elems));
        var hit := old(dfaGenerator.cacheEnabled && CachedAlike(dfaGenerator.cache, f));
        && (hit ==> dfaGenerator.cache == old(dfaGenerator.cache)
                    && exists k :: k in dfaGenerator.cache && k.GetKey() == KeyOf(f)
                                   && r.value == FragmentOf(dfaGenerator.cache[k]))
        && (!hit && f.isDFA ==> r.value == f.(inverted := !f.inverted) && graph == old(graph))
        && (!hit && !f.isDFA ==>
              && r.value.isDFA && !r.value.inverted && !r.value.caching
              && forall w :: OverSymbols(w, SymbolSet) ==>
                   AcceptsSpec(graph, r.value.start, r.value.accepting, false, w) == !Recognises(old(graph), f, w))
    {
      ghost var before := automata.elems;
      var popped := automata.Pop();
      if popped.Err? {
        return Err(popped.error);
      }
      var f := popped.value;
      FitsPrefix(before, |automata.elems|, lowestAvailableId, dfaGenerator.highestAvailable);
      var c, hit, found := MergedComplement(f, automata.elems);
      r := Ok(c);
    }

    /**
     * evaluate for a popped operation other than `)` and `!`: `&`, `|` and
     * `*` replace their operands with the result; any other operation
     * pushes `new NFA()`. The operation stack `os` is not touched.
     */
    method Operate(operation: char, automata: OwnStack<Fragment>, ghost os: seq<char>) returns (r: Result<()>)
      requires IdsFit(automata.elems) && operation != ')' && operation != '!'
      modifies this`graph, this`lowestAvailableId, automata
      ensures IdsFit(automata.elems)
      ensures Matches(r, Apply(operation, Machine(os, old(automata.elems), old(graph), old(lowestAvailableId))),
                      Machine(os, automata.elems, graph, lowestAvailableId))
    {
      var result: Result<Fragment>;
      if operation == '&' {
        result := EvaluateConcatenation(automata);
      } else if operation == '|' {
        result := EvaluateUnion(automata);
      } else if operation == '*' {
        result := EvaluateKleeneStar(automata);
      } else {
        // evaluate's `new NFA()`, pushed unchanged
        result := Ok(EmptyAutomaton);
      }
      if result.Err? {
        return Err(result.error);
      }
      FitsPush(automata.elems, result.value, lowestAvailableId, dfaGenerator.highestAvailable);
      automata.Push(result.value);
      r := Ok(());
    }

    /**
     * evaluate: nothing to do (false) on an empty operation stack; otherwise
     * the top operation is popped and carried out (true).
     */
    method Evaluate(ops: OwnStack<char>, automata: OwnStack<Fragment>) returns (r: Result<bool>)
      requires Ready() && IdsFit(automata.elems)
      modifies this`graph, this`lowestAvailableId, ops, automata, dfaGenerator
      ensures Ready() && IdsFit(automata.elems)
      ensures ops.elems <= old(ops.elems) && (old(ops.elems) != [] ==> |ops.elems| < |old(ops.elems)|)
      ensures r.Ok? ==> r.value == (old(ops.elems) != [])
      ensures '!' !in old(ops.elems) ==> Matches(r, Evaluated(old(MachineOf(ops, automata))), MachineOf(ops, automata))
      decreases |ops.elems|, 0
    {
      var top := ops.Peek();
      if top.None? {
        return Ok(false);
      }
      var popped := ops.Pop();
      var operation := popped.value;
      if operation == ')' {
        var done := EvaluateParentheses(ops, automata);
        if done.Err? {
          return Err(done.error);
        }
      } else if operation == '!' {
        var result := EvaluateComplement(automata);
        if result.Err? {
          return Err(result.error);
        }
        FitsPush(automata.elems, result.value, lowestAvailableId, dfaGenerator.highestAvailable);
        automata.Push(result.value);
      } else {
        var done := Operate(operation, automata, ops.elems);
        if done.Err? {
          return Err(done.error);
        }
      }
      return Ok(true);
    }

    /**
     * evaluateParentheses: evaluates until `(` is on top, then pops it; an
     * operation stack that runs out first makes peek's null be unboxed.
     */
    method EvaluateParentheses(ops: OwnStack<char>, automata: OwnStack<Fragment>) returns (r: Result<()>)
      requires Ready() && IdsFit(automata.elems)
      modifies this`graph, this`lowestAvailableId, ops, automata, dfaGenerator
      ensures Ready() && IdsFit(automata.elems)
      ensures ops.elems <= old(ops.elems) && (r.Ok? ==> |ops.elems| < |old(ops.elems)|)
      ensures '!' !in old(ops.elems) ==>
        Matches(r, Parenthesised(old(MachineOf(ops, automata))), MachineOf(ops, automata))
      decreases |ops.elems|, 1
    {
      ghost var m0 := MachineOf(ops, automata);
      ghost var plain := '!' !in ops.elems;
      r := Ok(());
      var top := ops.Peek();
      while r.Ok? && (top.None? || top.value != '(')
        invariant Ready() && IdsFit(automata.elems)
        invariant ops.elems <= old(ops.elems)
        invariant top.None? <==> ops.elems == []
        invariant top.Some? ==> top.value == Last(ops.elems)
        invariant plain ==> '!' !in ops.elems
        invariant plain && r.Ok? ==> Parenthesised(MachineOf(ops, automata)) == Parenthesised(m0)
        invariant plain && r.Err? ==> Parenthesised(m0) == Err(r.error)
        decreases |ops.elems|, if r.Ok? then 1 else 0
      {
        if top.None? {
          r := Err(NullPointer);
        } else {
          ghost var before := ops.elems;
          var step := Evaluate(ops, automata);
          PrefixTransitive(ops.elems, before, old(ops.elems));
          if plain {
            PrefixKeeps(ops.elems, old(ops.elems));
          }
          if step.Err? {
            r := Err(step.error);
          }
          top := ops.Peek();
        }
      }
      if r.Ok? {
        var popped := ops.Pop();
      }
    }

    // One pass of generateNFA's for loop

    /** The automaton for `symbol`, pushed onto the automaton stack. */
    method PushSymbolLeaf(symbol: char, automata: OwnStack<Fragment>, ghost os: seq<char>)
      requires IdsFit(automata.elems)
      modifies this`graph, this`lowestAvailableId, automata
      ensures IdsFit(automata.elems)
      ensures Machine(os, automata.elems, graph, lowestAvailableId)
           == PushSymbol(Machine(os, old(automata.elems), old(graph), old(lowestAvailableId)), symbol)
    {
      ghost var low0 := lowestAvailableId;
      var f := GenerateNFAFromOneSymbol(symbol);
      FitsGrow(automata.elems, map[], low0, dfaGenerator.highestAvailable, lowestAvailableId, dfaGenerator.highestAvailable);
      FitsPush(automata.elems, f, lowestAvailableId, dfaGenerator.highestAvailable);
      automata.Push(f);
    }

    /** The automaton for `#`, pushed onto the automaton stack. */
    method PushEmptyLeaf(automata: OwnStack<Fragment>, ghost os: seq<char>)
      requires IdsFit(automata.elems)
      modifies this`graph, this`lowestAvailableId, automata
      ensures IdsFit(automata.elems)
      ensures Machine(os, automata.elems, graph, lowestAvailableId)
           == PushEmpty(Machine(os, old(automata.elems), old(graph), old(lowestAvailableId)))
    {
      ghost var low0 := lowestAvailableId;
      var f := GenerateNFAFromEmptySymbol();
      FitsGrow(automata.elems, map[], low0, dfaGenerator.highestAvailable, lowestAvailableId, dfaGenerator.highestAvailable);
      FitsPush(automata.elems, f, lowestAvailableId, dfaGenerator.highestAvailable);
      automata.Push(f);
    }

    /** The automaton for `.`, pushed onto the automaton stack. */
    method PushAnyLeaf(automata: OwnStack<Fragment>, ghost os: seq<char>)
      requires IdsFit(automata.elems)
      modifies this`graph, this`lowestAvailableId, automata
      ensures IdsFit(automata.elems)
      ensures Machine(os, automata.elems, graph, lowestAvailableId)
           == PushAny(Machine(os, old(automata.elems), old(graph), old(lowestAvailableId)))
    {
      ghost var low0 := lowestAvailableId;
      var f := GenerateNFAFromAnySingleSymbol();
      FitsGrow(automata.elems, map[], low0, dfaGenerator.highestAvailable, lowestAvailableId, dfaGenerator.highestAvailable);
      FitsPush(automata.elems, f, lowestAvailableId, dfaGenerator.highestAvailable);
      automata.Push(f);
    }

    /** The symbol checks of the loop body: `#` and `.` in the current revision, then the alphabet. */
    method PushLeaves(c: char, automata: OwnStack<Fragment>, ghost os: seq<char>)
      requires IdsFit(automata.elems)
      modifies this`graph, this`lowestAvailableId, automata
      ensures IdsFit(automata.elems)
      ensures Machine(os, automata.elems, graph, lowestAvailableId)
           == Leaves(revision, alphabet, c, Machine(os, old(automata.elems), old(graph), old(lowestAvailableId)))
    {
      match revision
      case Current =>
        if c == '#' {
          PushEmptyLeaf(automata, os);
        }
        if c == '.' {
          PushAnyLeaf(automata, os);
        }
        if c in alphabet {
          PushSymbolLeaf(c, automata, os);
        }
      case Earlier =>
        if c in alphabet || c == '#' {
          PushSymbolLeaf(c, automata, os);
        }
    }

    /** The while loop before an operation c is pushed: evaluate while the top operation takes precedence. */
    method Reduce(c: char, ops: OwnStack<char>, automata: OwnStack<Fragment>) returns (r: Result<()>)
      requires Ready() && IdsFit(automata.elems)
      modifies this`graph, this`lowestAvailableId, ops, automata, dfaGenerator
      ensures Ready() && IdsFit(automata.elems)
      ensures ops.elems <= old(ops.elems)
      ensures '!' !in old(ops.elems) ==> Matches(r, Reduced(old(MachineOf(ops, automata)), c), MachineOf(ops, automata))
    {
      ghost var m0 := MachineOf(ops, automata);
      ghost var plain := '!' !in ops.elems;
      r := Ok(());
      var top := ops.Peek();
      while r.Ok? && top.Some? && HasPrecedence(top.value, c)
        invariant Ready() && IdsFit(automata.elems)
        invariant ops.elems <= old(ops.elems)
        invariant top.None? <==> ops.elems == []
        invariant top.Some? ==> top.value == Last(ops.elems)
        invariant plain ==> '!' !in ops.elems
        invariant plain && r.Ok? ==> Reduced(MachineOf(ops, automata), c) == Reduced(m0, c)
        invariant plain && r.Err? ==> Reduced(m0, c) == Err(r.error)
        decreases |ops.elems|, if r.Ok? then 1 else 0
      {
        ghost var before := ops.elems;
        var step := Evaluate(ops, automata);
        PrefixTransitive(ops.elems, before, old(ops.elems));
        if plain {
          PrefixKeeps(ops.elems, old(ops.elems));
        }
        if step.Err? {
          r := Err(step.error);
        }
        top := ops.Peek();
      }
    }

    /**
     * The body of the for loop at index i; the result is the index of the
     * next pass. `/x` pushes the automaton for x and skips it; a `/` at the
     * end makes charAt throw.
     */
    method ReadSymbol(p: string, i: nat, ops: OwnStack<char>, automata: OwnStack<Fragment>) returns (r: Result<nat>)
      requires Ready() && IdsFit(automata.elems) && i < |p|
      modifies this`graph, this`lowestAvailableId, ops, automata, dfaGenerator
      ensures Ready() && IdsFit(automata.elems)
      ensures r.Ok? ==> i < r.value <= |p|
      ensures '!' !in p && '!' !in old(ops.elems) ==>
        ReadMatches(r, Read(revision, alphabet, operations, p, i, old(MachineOf(ops, automata))), MachineOf(ops, automata))
    {
      var c := p[i];
      if c == '/' {
        if i + 1 >= |p| {
          return Err(IndexOutOfBounds);
        }
        PushSymbolLeaf(p[i + 1], automata, ops.elems);
        return Ok(i + 2);
      }
      PushLeaves(c, automata, ops.elems);
      if c in operations {
        var reduced := Reduce(c, ops, automata);
        if reduced.Err? {
          return Err(reduced.error);
        }
        ops.Push(c);
      }
      return Ok(i + 1);
    }

    // generateNFA

    /** The for loop of generateNFA over the whole normalised pattern. */
    method Scan(p: string, ops: OwnStack<char>, automata: OwnStack<Fragment>) returns (r: Result<()>)
      requires Ready() && IdsFit(automata.elems)
      modifies this`graph, this`lowestAvailableId, ops, automata, dfaGenerator
      ensures Ready() && IdsFit(automata.elems)
      ensures '!' !in p && '!' !in old(ops.elems) ==>
        Matches(r, Scanned(revision, alphabet, operations, p, 0, old(MachineOf(ops, automata))), MachineOf(ops, automata))
    {
      ghost var m0 := MachineOf(ops, automata);
      ghost var plain := '!' !in p && '!' !in ops.elems;
      r := Ok(());
      var i := 0;
      while r.Ok? && i < |p|
        invariant Ready() && IdsFit(automata.elems)
        invariant i <= |p|
        invariant plain && r.Ok? ==> '!' !in ops.elems
        invariant plain && r.Ok? ==>
          Scanned(revision, alphabet, operations, p, i, MachineOf(ops, automata)) == Scanned(revision, alphabet, operations, p, 0, m0)
        invariant plain && r.Err? ==> Scanned(revision, alphabet, operations, p, 0, m0) == Err(r.error)
        decreases |p| - i, if r.Ok? then 1 else 0
      {
        ghost var m := MachineOf(ops, automata);
        var next := ReadSymbol(p, i, ops, automata);
        if plain {
          ScanPass(revision, alphabet, operations, p, i, m, MachineOf(ops, automata), next);
        }
        if next.Err? {
          r := Err(next.error);
        } else {
          i := next.value;
        }
      }
    }

    /** The while loop after the scan: evaluate until no operation is left. */
    method Drain(ops: OwnStack<char>, automata: OwnStack<Fragment>) returns (r: Result<()>)
      requires Ready() && IdsFit(automata.elems)
      modifies this`graph, this`lowestAvailableId, ops, automata, dfaGenerator
      ensures Ready() && IdsFit(automata.elems)
      ensures '!' !in old(ops.elems) ==> Matches(r, Drained(old(MachineOf(ops, automata))), MachineOf(ops, automata))
    {
      ghost var m0 := MachineOf(ops, automata);
      ghost var plain := '!' !in ops.elems;
      r := Ok(());
      while r.Ok? && !ops.IsEmpty()
        invariant Ready() && IdsFit(automata.elems)
        invariant ops.elems <= old(ops.elems)
        invariant plain ==> '!' !in ops.elems
        invariant plain && r.Ok? ==> Drained(MachineOf(ops, automata)) == Drained(m0)
        invariant plain && r.Err? ==> Drained(m0) == Err(r.error)
        decreases |ops.elems|, if r.Ok? then 1 else 0
      {
        ghost var before := ops.elems;
        var step := Evaluate(ops, automata);
        PrefixTransitive(ops.elems, before, old(ops.elems));
        if plain {
          PrefixKeeps(ops.elems, old(ops.elems));
        }
        if step.Err? {
          r := Err(step.error);
        }
      }
    }

    /**
     * generateNFA after the cache test: fresh ids from 0, the scan, the
     * remaining operations, and the automaton popped from the top as a new
     * NFA object over this call's edges.
     */
    method Build(p: string) returns (r: Result<NFA>)
      requires Ready()
      modifies this`graph, this`lowestAvailableId, dfaGenerator
      ensures Ready() && IdsFit([])
      ensures r.Ok? ==> fresh(r.value) && r.value.Valid()
      ensures '!' !in p ==> Yields(r, Compiled(revision, alphabet, operations, p))
    {
      lowestAvailableId := 0;
      graph := map[];
      var ops := new OwnStack<char>();
      var automata := new OwnStack<Fragment>();
      var scanned := Scan(p, ops, automata);
      if scanned.Err? {
        r := Err(scanned.error);
      } else {
        var drained := Drain(ops, automata);
        if drained.Err? {
          r := Err(drained.error);
        } else {
          r := Emit(automata);
        }
      }
    }

    /**
     * The end of generateNFA: the automaton popped from the top becomes a
     * new NFA object over this call's edges; an empty stack fails.
     */
    method Emit(automata: OwnStack<Fragment>) returns (r: Result<NFA>)
      requires IdsFit(automata.elems)
      modifies automata
      ensures old(automata.elems) == [] ==> r == Err(NoSuchElement)
      ensures old(automata.elems) != [] ==>
        r.Ok? && fresh(r.value) && r.value.Valid() && FragmentOf(r.value) == Last(old(automata.elems)) && r.value.graph == graph
    {
      var popped := automata.Pop();
      if popped.Err? {
        return Err(popped.error);
      }
      var f := popped.value;
      var result := new NFA.Full(graph, f.start, f.accepting, f.isDFA, f.caching);
      if f.inverted {
        result.Invert();
      }
      r := Ok(result);
    }

    /**
     * generateNFA: the pattern is normalised first; a cached automaton for
     * it is returned as it is; otherwise the automaton is built and, with
     * caching on, remembered under the normalised pattern.
     */
    method GenerateNFA(pattern: string) returns (r: Result<NFA>)
      requires Valid()
      modifies this`cache, this`graph, this`lowestAvailableId, dfaGenerator
      ensures Valid()
      ensures r.Ok? ==> r.value.Valid()
      ensures r.Err? ==> cache == old(cache)
      ensures match PatternProcessing.Elongated(patternProcessor.alphabet, patternProcessor.shorthandSymbols, pattern)
        case Err(e) => r == Err(e)
        case Ok(p) =>
          if cacheEnabled && p in old(cache) then r == Ok(old(cache)[p]) && cache == old(cache)
          else
            && (r.Ok? ==> fresh(r.value) && cache == if cacheEnabled then old(cache)[p := r.value] else old(cache))
            && ('!' !in p ==> Yields(r, Compiled(revision, alphabet, operations, p)))
    {
      var elongated := patternProcessor.ElongateRegularExpression(pattern);
      if elongated.Err? {
        return Err(elongated.error);
      }
      var p := elongated.value;
      if cacheEnabled && p in cache {
        return Ok(cache[p]);
      }
      r := Build(p);
      if r.Ok? && cacheEnabled {
        cache := cache[p := r.value];
      }
    }
  }
}
