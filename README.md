# regex_parser, modelled in Dafny

This project models the core of regex_parser, a small regular-expression engine written in Java. A pattern goes through four stages:

1. **Normalisation.** `PatternProcessor` rewrites the shorthands `x+`, `x?`, `a-b` and `x[m,n]` into the basic operations. It then writes out the concatenation symbol `&` wherever concatenation is only implied.
2. **Compilation.** `NFAGenerator` reads the normalised pattern with an operation stack and an automaton stack. There are two revisions, `utils/generators` and the earlier `utils`. Each leaf symbol pushes a two-state automaton. `&`, `|` and `*` glue automata together with moves that read nothing (the symbol `#`). `hasPrecedence` decides when an operation on the stack is evaluated.
3. **Complement.** `!` asks `DFAGenerator` for the complement. It is built by the subset construction over a fixed symbol set.
4. **Simulation.** `NFA.accepts` advances a set of states, closed under `#` moves, symbol by symbol. It can cache each step, and an `inverted` flag turns acceptance around.

The engine runs on hand-written containers, and these are modelled too:

- the hash table `HashTable`, with the set `OwnSet`, the map `OwnMap` and `SetIterator` built on it;
- the collision list `OwnLinkedList`;
- the stack `OwnStack`;
- the string builder `OwnStringBuilder`;
- the character sets of `Utilities`;
- `State`.

## Form of the model

| file | module | models |
|---|---|---|
| wrappers.dfy | Wrappers | `Result` and `Option`; every Java exception becomes an `Err` naming its kind |
| utilities.dfy | Utilities | the alphabet, the shorthand symbols and the basic operations, as constants |
| decimal.dfy, java_string.dfy | Decimal, JavaString | `"" + id`, `Integer.parseInt`, `String.trim` and `String.split(",", -1)` |
| state.dfy | StateModel | `State`: a class with only its id |
| string_builder.dfy | StringBuilder | `OwnStringBuilder`: a class whose methods reassign its `str` field |
| stack.dfy | Stack | `OwnStack`: a class over a `seq` whose last element is the top |
| linked_list.dfy | LinkedLists | `OwnLinkedList`: the node pairs as a `seq` from `first` on |
| hash_table.dfy | Hashing | `HashTable`: an `array` of collision lists, the key hash as a function, and a ghost map of the stored pairs |
| own_set.dfy, own_map.dfy, set_iterator.dfy | Sets, Maps, Iteration | the set, map and iterator classes over a hash table |
| pattern_processor.dfy | PatternProcessing | `PatternProcessor`: string-builder edits proved against rewriting functions on strings |
| automaton.dfy | Automaton | an automaton's transitions as a map from state id to edges; epsilon closure, frontiers and acceptance |
| nfa.dfy | NFAModel | `NFA`: the simulation loop, the step cache, the flags and `equals` |
| dfa_generator.dfy | DFAConstruction | `DFAGenerator`: the worklist subset construction, proved to accept exactly the words the input rejects |
| nfa_generator.dfy | NFAGeneration | both `NFAGenerator` revisions: each loop and evaluation method proved against a specification machine, plus the language laws of each operation |
| generator_examples.dfy | GeneratorExamples | the automata compiled for `a*`, `a\|b`, `ab*` and `(ab)*`, and the words they accept and reject |

Each method that changes state is specified against a function of the old state. The properties the source promises are lemmas about those functions:

- rewrite outputs and their inverse;
- the precedence table;
- soundness of concatenation, union and star;
- the complement's language;
- the hash-table invariants.

Where a Java method throws on its input, the model returns `Err`, and callers are not required to avoid such inputs. The exceptions are the index arguments of four `OwnStringBuilder` methods, listed under "Left out": there the model requires the index in range.

Nothing outside the program is modelled. The clock, console, files and network do not enter the core. Hash codes are a parameter, the function `hash` that stands for `hashCode()`.

## Model

| member | source | states |
|---|---|---|
| StateModel.State.constructor | regex_parser/src/main/java/domain/State.java:7-9 | a new state carries the given id |
| StateModel.State.SetId | regex_parser/src/main/java/domain/State.java:15-17 | the id becomes the argument |
| StateModel.State.Equals | regex_parser/src/main/java/domain/State.java:20-27 | equal exactly to another State with the same id; null and objects of other classes are unequal |
| StateModel.State.ToString | regex_parser/src/main/java/domain/State.java:35-38 | the decimal text of the id, which parseInt reads back to the id for every Java int |
| StateModel.EqualStatesHashAlike | regex_parser/src/main/java/domain/State.java:20-33 | equal states have equal hash codes (the equals/hashCode contract) |
| StateModel.EqualsIsEquivalence | regex_parser/src/main/java/domain/State.java:20-27 | equals is reflexive, symmetric and transitive on states |
| StateModel.ToStringIdentifies | regex_parser/src/main/java/domain/State.java:20-38 | two states print alike exactly when they are equal |
| StateModel.SetIdRetargetsEquality | regex_parser/src/main/java/domain/State.java:15-33 | after setId(n), equality, hashCode and toString all follow n |
| Stack.OwnStack.constructor | regex_parser/src/main/java/utils/structures/OwnStack.java:20-22 | a new stack is empty |
| Stack.OwnStack.Push | regex_parser/src/main/java/utils/structures/OwnStack.java:30-34 | the data becomes the new top above the old contents |
| Stack.OwnStack.IsEmpty | regex_parser/src/main/java/utils/structures/OwnStack.java:41-43 | true exactly when no node is left |
| Stack.OwnStack.Pop | regex_parser/src/main/java/utils/structures/OwnStack.java:51-60 | returns and removes the top; an empty stack gives NoSuchElementException and stays as it was |
| Stack.OwnStack.Peek | regex_parser/src/main/java/utils/structures/OwnStack.java:67-72 | the top without change, or null on an empty stack |
| Stack.LastInFirstOut | regex_parser/src/main/java/utils/structures/OwnStack.java:30-72 | two pushes come back in reverse order, then the stack is empty and pop throws |
| StringBuilder.IndexOfFrom | regex_parser/src/main/java/utils/OwnStringBuilder.java:101-103 | String.indexOf(str, i): the least index at or after i (clamped to 0..length) where str occurs, or -1 when there is none |
| StringBuilder.IndexOfIsFirst | regex_parser/src/main/java/utils/OwnStringBuilder.java:101-103 | an occurrence at k with none between i and k is what indexOf answers |
| StringBuilder.IndexOfCharAt | regex_parser/src/main/java/utils/OwnStringBuilder.java:101-103 | a one-character search answers the first position of that character |
| StringBuilder.OwnStringBuilder.constructor | regex_parser/src/main/java/utils/OwnStringBuilder.java:21-23 | the builder stores the given string |
| StringBuilder.OwnStringBuilder.DeleteCharAt | regex_parser/src/main/java/utils/OwnStringBuilder.java:32-35 | for an index inside the string, the character at idx is removed and nothing else changes |
| StringBuilder.OwnStringBuilder.Delete | regex_parser/src/main/java/utils/OwnStringBuilder.java:45-48 | for any two indices within the string, the text before i1 followed by the text from i2 on: with i1 <= i2 the characters i1 .. i2-1 are removed, with i2 < i1 the characters i2 .. i1-1 appear twice |
| StringBuilder.OwnStringBuilder.Insert | regex_parser/src/main/java/utils/OwnStringBuilder.java:60-67 | for an index from 0 to the length, the inserted text starts at idx, with the old text before and after it (both branches) |
| StringBuilder.OwnStringBuilder.IndexOf | regex_parser/src/main/java/utils/OwnStringBuilder.java:101-103 | the scan answers IndexOfFrom of the stored string |
| StringBuilder.OwnStringBuilder.Substring | regex_parser/src/main/java/utils/OwnStringBuilder.java:113-115 | for 0 <= i <= j <= length, j - i characters, the stored ones from i on |
| StringBuilder.IndexOfItchExample | regex_parser/src/test/java/utils/OwnStringBuilderTest.java:88-91 | "itch" is first found at 1 in "witchcraft and wizardry" |
| StringBuilder.IndexOfWiExample | regex_parser/src/test/java/utils/OwnStringBuilderTest.java:93-96 | "wi" searched from 7 is found at 15 |
| StringBuilder.SearchExamples | regex_parser/src/test/java/utils/OwnStringBuilderTest.java:88-96 | the builder's indexOf gives 1 and 15 for the two searches |
| StringBuilder.SubstringExample | regex_parser/src/test/java/utils/OwnStringBuilderTest.java:98-101 | substring(11, 14) is "and" |
| StringBuilder.InsertExample | regex_parser/src/test/java/utils/OwnStringBuilderTest.java:82-86 | insert(11, "s") gives "witchcraft sand wizardry" |
| StringBuilder.DeleteExample | regex_parser/src/test/java/utils/OwnStringBuilderTest.java:64-68 | delete(10, 14) gives "witchcraft wizardry" |
| Decimal.NatDigits | regex_parser/src/main/java/domain/State.java:35-38 | the decimal digits of a natural number: non-empty, digits only, no leading zero |
| Decimal.IntToString | regex_parser/src/main/java/domain/State.java:35-38 | the text of an int, a minus sign before the digits of a negative value |
| Decimal.ParseInt | regex_parser/src/main/java/utils/PatternProcessor.java:175 | Integer.parseInt: optional sign, at least one digit, a value in the int range, otherwise NumberFormatException; the empty text is refused |
| Decimal.DigitsRoundTrip | regex_parser/src/main/java/domain/State.java:35-38 | the digits written for n read back as n |
| Decimal.IntToStringRoundTrip | regex_parser/src/main/java/domain/State.java:35-38 | parseInt reads the text of every int back to the same int |
| Decimal.IntToStringInjective | regex_parser/src/main/java/domain/State.java:35-38 | different ints are written differently |
| Decimal.IntToStringOutOfRange | regex_parser/src/main/java/utils/PatternProcessor.java:175 | the text of a value outside the int range is refused by parseInt |
| Decimal.ParseDigit | regex_parser/src/main/java/utils/PatternProcessor.java:175 | a single digit reads as its value |
| Decimal.ParseIntExamples | regex_parser/src/main/java/utils/PatternProcessor.java:175 | "12", "+3" and "-1" parse; "-" and "1a" are refused |
| JavaString.IsBlank | regex_parser/src/main/java/utils/PatternProcessor.java:175 | trim() treats exactly the characters up to the space as blank |
| JavaString.TrimLeading | regex_parser/src/main/java/utils/PatternProcessor.java:175 | trim() at the front: a suffix of the text, all removed characters blank, the rest starting with a non-blank |
| JavaString.TrimTrailing | regex_parser/src/main/java/utils/PatternProcessor.java:175 | trim() at the back: a prefix of the text, all removed characters blank, the rest ending with a non-blank |
| JavaString.Split | regex_parser/src/main/java/utils/PatternProcessor.java:167 | split(",", -1) always returns at least one part |
| JavaString.SplitJoin | regex_parser/src/main/java/utils/PatternProcessor.java:167 | joining the parts with the separator gives the text back, no part holds the separator, and there is one part more than separators (trailing empty parts kept) |
| JavaString.SplitPair | regex_parser/src/main/java/utils/PatternProcessor.java:167 | "a,b" splits into "a" and "b" |
| JavaString.TrimSingle | regex_parser/src/main/java/utils/PatternProcessor.java:175 | a non-blank character trims to itself |
| JavaString.SplitExamples | regex_parser/src/main/java/utils/PatternProcessor.java:167-175 | "2,3", "," and "5" split as Java splits them with limit -1; " 4 " trims to "4" |
| Utilities.CharsFrom | regex_parser/src/main/java/utils/Utilities.java:17-27 | one loop of defaultAlphabet: the characters from lo to hi, consecutive codes in order |
| Utilities.CharsFromMembership | regex_parser/src/main/java/utils/Utilities.java:17-27 | a character is added by such a loop exactly when it lies between the bounds |
| Utilities.AlphabetMembership | regex_parser/src/main/java/utils/Utilities.java:15-29 | defaultAlphabet holds exactly A-Z, a-z and 0-9 |
| Utilities.DistinctCardinality | regex_parser/src/main/java/utils/Utilities.java:15-29 | a sequence without repeats has as many distinct members as positions |
| Utilities.AlphabetSize | regex_parser/src/main/java/utils/Utilities.java:15-29 | defaultAlphabet has 62 characters |
| Utilities.DefaultSetsSeparate | regex_parser/src/main/java/utils/Utilities.java:15-51 | the alphabet, the shorthands and the basic operations are pairwise disjoint, and none holds '#', '.' or '/' |
| PatternProcessing.BalancedStart | regex_parser/src/main/java/utils/PatternProcessor.java:274-285 | the start the backward scan reaches balances the stretch up to idx, and no later start does; none exists exactly when every stretch still has an unmatched `)` |
| PatternProcessing.AffectedPart | regex_parser/src/main/java/utils/PatternProcessor.java:267-289 | the operand is a non-empty stretch of the pattern ending at idx: the single character when it is not `)`, else the shortest balanced stretch back to its `(`; an error exactly when idx is outside the pattern or the parentheses do not balance |
| PatternProcessing.AffectedPartOpens | regex_parser/src/main/java/utils/PatternProcessor.java:274-285 | a parenthesised operand starts with `(` and has at least two characters |
| PatternProcessing.BalancedStartFinds | regex_parser/src/main/java/utils/PatternProcessor.java:274-285 | where the backward scan stops at the first balanced start k, the specification finds the same k |
| PatternProcessing.PatternProcessor.DetermineAffectedPart | regex_parser/src/main/java/utils/PatternProcessor.java:267-289 | the stack-based backward scan returns exactly AffectedPart |
| PatternProcessing.RangeBars | regex_parser/src/main/java/utils/PatternProcessor.java:108-121 | the bar-separated union has two characters per code from hi down to lo |
| PatternProcessing.RangeBarsAt | regex_parser/src/main/java/utils/PatternProcessor.java:115-117 | bars and characters alternate, the codes falling one by one from hi to lo |
| PatternProcessing.Between | regex_parser/src/main/java/utils/PatternProcessor.java:108-121 | `first-last` at i becomes the union of all characters from last down to first in parentheses, and scanning resumes at i; an index error at either end of the text |
| PatternProcessing.BetweenText | regex_parser/src/main/java/utils/PatternProcessor.java:108-121 | the text left by the edits of replaceBetween is the one Between describes |
| PatternProcessing.PatternProcessor.ReplaceBetween | regex_parser/src/main/java/utils/PatternProcessor.java:108-121 | the builder's new text and the returned index are Between's rewrite; on error the text is untouched |
| PatternProcessing.PatternProcessor.InsertedBarsDeleted | regex_parser/src/main/java/utils/PatternProcessor.java:119 | the final deleteCharAt removes the leading bar, or the closing parenthesis when no bar was inserted |
| PatternProcessing.PatternProcessor.ReplaceQuestionmark | regex_parser/src/main/java/utils/PatternProcessor.java:133-139 | `x?` becomes `(x\|#)` in the builder and the scan resumes after the inserted `(` |
| PatternProcessing.PatternProcessor.ReplacePlus | regex_parser/src/main/java/utils/PatternProcessor.java:233-239 | `x+` becomes `(xx*)` in the builder and the scan resumes inside the second copy of x |
| PatternProcessing.PlusEdits | regex_parser/src/main/java/utils/PatternProcessor.java:233-239 | the three edits of replacePlus compose to the Plus rewrite |
| PatternProcessing.RepeatLength | regex_parser/src/main/java/utils/PatternProcessor.java:188-200 | x repeated n times has n times the length of x |
| PatternProcessing.Alternatives | regex_parser/src/main/java/utils/PatternProcessor.java:202-220 | a non-empty union of alternatives starts with a bar |
| PatternProcessing.Bound | regex_parser/src/main/java/utils/PatternProcessor.java:170-177 | an empty bound reads as 0 for the minimum and -1 for the maximum; any other reads as a Java int |
| PatternProcessing.Bounds | regex_parser/src/main/java/utils/PatternProcessor.java:170-177 | both bounds are read, the minimum first, each by Bound; one part only is an index error |
| PatternProcessing.PatternProcessor.ReadBounds | regex_parser/src/main/java/utils/PatternProcessor.java:170-177 | the loop over the split parts yields exactly Bounds |
| PatternProcessing.RepetitionBounds | regex_parser/src/main/java/utils/PatternProcessor.java:165-177 | the `]` found lies after i, and the bounds are those of the text between the brackets |
| PatternProcessing.PatternProcessor.RewriteRepetition | regex_parser/src/main/java/utils/PatternProcessor.java:184-220 | after the two deletes and the inserts, the text is the prefix, `(`, the repetition body and the text after `]` |
| PatternProcessing.PatternProcessor.InsertStarred | regex_parser/src/main/java/utils/PatternProcessor.java:188-200 | `x[m,]` becomes `(` followed by m+1 copies of x and `*)` |
| PatternProcessing.PatternProcessor.InsertAlternatives | regex_parser/src/main/java/utils/PatternProcessor.java:202-220 | `x[m,n]` becomes the union of x repeated n down to m times, `#` for none |
| PatternProcessing.PatternProcessor.Repetition | regex_parser/src/main/java/utils/PatternProcessor.java:206-209 | the appending loop builds x repeated len times |
| PatternProcessing.AlternativeInserted | regex_parser/src/main/java/utils/PatternProcessor.java:202-220 | inserting the next alternative after the `(` extends the union by one alternative |
| PatternProcessing.CopyInserted | regex_parser/src/main/java/utils/PatternProcessor.java:188-200 | inserting one more copy of x after the `(` adds one repetition |
| PatternProcessing.Repetitions | regex_parser/src/main/java/utils/PatternProcessor.java:165-221 | the rewrite of `x[m,n]` at i, the scan going on after the new `(` |
| PatternProcessing.RepetitionsRewrite | regex_parser/src/main/java/utils/PatternProcessor.java:165-221 | the text of a successful Repetitions rewrite, stated from the bounds |
| PatternProcessing.PatternProcessor.ReadRepetitionBounds | regex_parser/src/main/java/utils/PatternProcessor.java:166-181 | the loop over the two bound strings reads the index of `]` and both bounds as RepetitionBounds does, an empty bound meaning 0 below and -1 above, with the same error when a bound is no number |
| PatternProcessing.PatternProcessor.ReplaceRepetitions | regex_parser/src/main/java/utils/PatternProcessor.java:165-221 | the builder's new text and the returned index are Repetitions' rewrite; on error the text is untouched |
| PatternProcessing.ScanStep | regex_parser/src/main/java/utils/PatternProcessor.java:74-93 | a pass either leaves the text alone and moves one on, or spends one rewrite |
| PatternProcessing.ScanStepExpands | regex_parser/src/main/java/utils/PatternProcessor.java:76-91 | at an expanding shorthand with fuel left, a pass is exactly the rewrite for that symbol |
| PatternProcessing.ScanPlain | regex_parser/src/main/java/utils/PatternProcessor.java:71-97 | a text without shorthand symbols comes through replaceShorthands unchanged |
| PatternProcessing.ScanSkips | regex_parser/src/main/java/utils/PatternProcessor.java:74-76 | the scan passes over characters that are not shorthand symbols |
| PatternProcessing.PatternProcessor.RewriteAt | regex_parser/src/main/java/utils/PatternProcessor.java:79-90 | the rewrite picked for the symbol is Expand's |
| PatternProcessing.PatternProcessor.VisitSymbol | regex_parser/src/main/java/utils/PatternProcessor.java:75-91 | one loop pass on the builder is ScanStep |
| PatternProcessing.PatternProcessor.ReplaceShorthands | regex_parser/src/main/java/utils/PatternProcessor.java:71-97 | the result is the complete scan of the pattern |
| PatternProcessing.NeedsConcatenation | regex_parser/src/main/java/utils/PatternProcessor.java:312-320 | concatenation is implied exactly when a letter, `*` or `)` is followed by a letter, `(` or `!` |
| PatternProcessing.WithConcatenation | regex_parser/src/main/java/utils/PatternProcessor.java:303-329 | the result is at least as long as the pattern and starts with the same character |
| PatternProcessing.ConcatenationOnlyInserts | regex_parser/src/main/java/utils/PatternProcessor.java:303-329 | deleting all `&` from the result gives what deleting them from the pattern gives: only `&` is inserted |
| PatternProcessing.ConcatenationRestores | regex_parser/src/main/java/utils/PatternProcessor.java:303-329 | on a pattern without `&`, deleting the inserted symbols restores the pattern |
| PatternProcessing.ConcatenationComplete | regex_parser/src/main/java/utils/PatternProcessor.java:303-329 | no neighbouring pair of the result is left that needs a concatenation symbol |
| PatternProcessing.ConcatenationPlacement | regex_parser/src/main/java/utils/PatternProcessor.java:312-322 | every `&` of the result stands between two characters that need it |
| PatternProcessing.NoConcatenationAfterOpeners | regex_parser/src/main/java/utils/PatternProcessor.java:312-320 | no `&` follows `(`, `\|` or `!` |
| PatternProcessing.FullyConcatenatedFixed | regex_parser/src/main/java/utils/PatternProcessor.java:303-329 | a pattern that needs no concatenation symbol is left as it is |
| PatternProcessing.ConcatenationIdempotent | regex_parser/src/main/java/utils/PatternProcessor.java:303-329 | inserting concatenation symbols twice equals doing it once |
| PatternProcessing.AmpersandNeedsNothing | regex_parser/src/main/java/utils/PatternProcessor.java:312-320 | an inserted `&` never itself needs a following `&` |
| PatternProcessing.PatternProcessor.AddConcatenationSymbols | regex_parser/src/main/java/utils/PatternProcessor.java:303-329 | the in-place insertion loop yields WithConcatenation |
| PatternProcessing.Collapse | regex_parser/src/main/java/utils/PatternProcessor.java:339-360 | the result is no longer than the pattern and keeps a first character that is not `!` |
| PatternProcessing.CollapseDeletesNegationsOnly | regex_parser/src/main/java/utils/PatternProcessor.java:339-360 | only negation symbols are deleted; every other character keeps its order |
| PatternProcessing.CollapseRun | regex_parser/src/main/java/utils/PatternProcessor.java:339-360 | a run of k negations followed by something else becomes k mod 2 negations |
| PatternProcessing.CollapseAppend | regex_parser/src/main/java/utils/PatternProcessor.java:339-360 | the pairing never crosses a character other than `!` |
| PatternProcessing.MaximalRun | regex_parser/src/main/java/utils/PatternProcessor.java:339-360 | each maximal run of k negations inside a pattern becomes k mod 2 of them |
| PatternProcessing.NoDoubleNegation | regex_parser/src/main/java/utils/PatternProcessor.java:339-360 | no two negation symbols are left next to each other |
| PatternProcessing.CollapseKeepsSingles | regex_parser/src/main/java/utils/PatternProcessor.java:339-360 | a pattern without adjacent negations is unchanged |
| PatternProcessing.CollapseIdempotent | regex_parser/src/main/java/utils/PatternProcessor.java:339-360 | collapsing twice equals collapsing once |
| PatternProcessing.PatternProcessor.RemoveUnnecessaryNegations | regex_parser/src/main/java/utils/PatternProcessor.java:339-360 | the loop yields Collapse |
| PatternProcessing.Elongated | regex_parser/src/main/java/utils/PatternProcessor.java:51-60 | the empty pattern becomes `#` |
| PatternProcessing.ElongatedComplete | regex_parser/src/main/java/utils/PatternProcessor.java:51-60 | an elongated pattern needs no further concatenation symbol |
| PatternProcessing.ElongatedPlain | regex_parser/src/main/java/utils/PatternProcessor.java:51-60 | a non-empty pattern without shorthands only gains concatenation symbols |
| PatternProcessing.PatternProcessor.ElongateRegularExpression | regex_parser/src/main/java/utils/PatternProcessor.java:51-60 | the result is Elongated: `#` for the empty pattern, else shorthands expanded then `&` inserted |
| PatternProcessing.PatternProcessor.constructor | regex_parser/src/main/java/utils/PatternProcessor.java:29-32 | the processor holds the given alphabet and shorthand symbols |
| PatternProcessing.ConcatenationBetweenLetters | regex_parser/src/test/java/utils/PatternProcessorTest.java:53-55 | `ab` becomes `a&b` |
| PatternProcessing.ConcatenationNotAroundUnion | regex_parser/src/test/java/utils/PatternProcessorTest.java:38-40 | `a\|b` is unchanged |
| PatternProcessing.ConcatenationAfterStar | regex_parser/src/test/java/utils/PatternProcessorTest.java:63-65 | `a*b` becomes `a*&b` |
| PatternProcessing.ConcatenationBeforeNegation | regex_parser/src/test/java/utils/PatternProcessorTest.java:78-80 | `a!c` becomes `a&!c` |
| PatternProcessing.ConcatenationNotAfterNegation | regex_parser/src/test/java/utils/PatternProcessorTest.java:93-95 | `!c` is unchanged |
| PatternProcessing.PlusExample | regex_parser/src/test/java/utils/PatternProcessorTest.java:149-151 | `a+` becomes `(aa*)` |
| PatternProcessing.OptionalExample | regex_parser/src/test/java/utils/PatternProcessorTest.java:139-141 | `a?` becomes `(a\|#)` |
| PatternProcessing.RangeExample | regex_parser/src/test/java/utils/PatternProcessorTest.java:189-191 | `4-7` becomes `(7\|6\|5\|4)` |
| PatternProcessing.RepetitionExample | regex_parser/src/test/java/utils/PatternProcessorTest.java:159-161 | `a[2,4]` becomes `(aaaa\|aaa\|aa)` |
| PatternProcessing.CollapseExamples | regex_parser/src/test/java/utils/PatternProcessorTest.java:215-232 | `!!` and sixteen negations vanish, `!!!` leaves one, negations separated by parentheses stay |
| LinkedLists.Find | regex_parser/src/main/java/utils/structures/OwnLinkedList.java:114-120 | the position found holds the key and no earlier node does; none exactly when no node has the key |
| LinkedLists.Unlinked | regex_parser/src/main/java/utils/structures/OwnLinkedList.java:144-156 | one node fewer; the nodes before keep their places and those after move up by one |
| LinkedLists.FindFront | regex_parser/src/main/java/utils/structures/OwnLinkedList.java:95-101 | a pair inserted at the front is what search finds for its key; other keys find as before |
| LinkedLists.FindOverwritten | regex_parser/src/main/java/utils/structures/OwnLinkedList.java:87-93 | overwriting the found node's value changes what that key finds and nothing else |
| LinkedLists.UnlinkedFound | regex_parser/src/main/java/utils/structures/OwnLinkedList.java:129-136 | with distinct keys, deleting the found node leaves no pair with that key and keeps the others |
| LinkedLists.DeletedShadowUncovered | regex_parser/src/main/java/utils/structures/OwnLinkedList.java:104-136 | without the single-key guard, deleting the newest pair of a key uncovers the older one |
| LinkedLists.OwnLinkedList.constructor | regex_parser/src/main/java/utils/structures/OwnLinkedList.java:32-36 | an empty list that allows repeated keys |
| LinkedLists.OwnLinkedList.Guarded | regex_parser/src/main/java/utils/structures/OwnLinkedList.java:44-48 | an empty list with the given guard flag |
| LinkedLists.OwnLinkedList.Search | regex_parser/src/main/java/utils/structures/OwnLinkedList.java:114-120 | the walk from first returns exactly Find |
| LinkedLists.OwnLinkedList.Insert | regex_parser/src/main/java/utils/structures/OwnLinkedList.java:59-102 | with the guard and an existing key, that node gets the value and is returned, the size kept; otherwise the pair goes first and the size grows by one |
| LinkedLists.OwnLinkedList.DeleteAt | regex_parser/src/main/java/utils/structures/OwnLinkedList.java:144-156 | the node is unlinked and the size drops by one |
| LinkedLists.OwnLinkedList.DeleteKey | regex_parser/src/main/java/utils/structures/OwnLinkedList.java:129-136 | true and one node fewer exactly when the key is present; otherwise the list is unchanged |
| LinkedLists.OwnLinkedList.IsEmpty | regex_parser/src/main/java/utils/structures/OwnLinkedList.java:162-164 | empty exactly when no node is left |
| LinkedLists.OwnLinkedList.SetPreventMultipleKeys | regex_parser/src/main/java/utils/structures/OwnLinkedList.java:170-172 | only the guard flag changes |
| LinkedLists.OwnLinkedList.Equals | regex_parser/src/main/java/utils/structures/OwnLinkedList.java:187-213 | equal exactly when the flags agree and the pairs agree in order and number |
| LinkedLists.SingleKeyOverwrites | regex_parser/src/test/java/domain/OwnLinkedListTest.java:68-76 | with the guard, inserting a key twice leaves one node holding the later value |
| LinkedLists.RecentFirst | regex_parser/src/test/java/domain/OwnLinkedListTest.java:47-52 | without the guard, search finds the most recent insert, and deleting it uncovers the older one |
| Hashing.JavaRem | regex_parser/src/main/java/domain/HashTable.java:179-185 | Java's remainder lies strictly between -b and b and has the sign of the dividend |
| Hashing.JavaDivRem | regex_parser/src/main/java/domain/HashTable.java:179-185 | Java's quotient and remainder recompose the dividend |
| Hashing.Scaled | regex_parser/src/main/java/domain/HashTable.java:179-185 | the cell index lies in [0, capacity) for every hash code |
| Hashing.ScaledIsModulus | regex_parser/src/main/java/domain/HashTable.java:179-185 | the two remainders of scaledHashCode compute the floor modulus |
| Hashing.PairsMapLookup | regex_parser/src/main/java/domain/HashTable.java:93-113 | with distinct keys, the map of a cell gives what search gives |
| Hashing.StoredHolds | regex_parser/src/main/java/domain/HashTable.java:93-113 | writing the put cell into the key's home cell stores the pair and changes nothing else |
| Hashing.UnlinkedHolds | regex_parser/src/main/java/domain/HashTable.java:124-132 | deleting the key's node from its home cell removes that key alone |
| Hashing.GatheredBelow | regex_parser/src/main/java/domain/HashTable.java:246-267 | walking the cells of a table in order collects the pairs of the cells walked |
| Hashing.HashTable.constructor | regex_parser/src/main/java/domain/HashTable.java:58-62 | an empty table of the given capacity |
| Hashing.HashTable.Default | regex_parser/src/main/java/domain/HashTable.java:46-48 | an empty table of capacity 100 |
| Hashing.HashTable.ScaledHashCode | regex_parser/src/main/java/domain/HashTable.java:179-185 | the key's cell lies in [0, capacity) and is its hash code modulo the capacity |
| Hashing.HashTable.IsEmpty | regex_parser/src/main/java/domain/HashTable.java:273-275 | empty exactly when no pair is stored |
| Hashing.HashTable.Size | regex_parser/src/main/java/domain/HashTable.java:281-283 | the number of stored pairs |
| Hashing.HashTable.Store | regex_parser/src/main/java/domain/HashTable.java:98-112 | the key ends up with the value; the count grows only for a new key |
| Hashing.HashTable.NeedsRehashing | regex_parser/src/main/java/domain/HashTable.java:197-200 | true exactly when the number of elements exceeds 0.7 times the capacity, over exact reals; the integer test 10·n > 7·capacity stands for it |
| Hashing.LoadFactorTest | regex_parser/src/main/java/domain/HashTable.java:197-200 | for a positive capacity, the integer test holds exactly when the load factor numOfElements / capacity exceeds 0.7 |
| Hashing.HashTable.Put | regex_parser/src/main/java/domain/HashTable.java:93-113 | the key maps to the value and every other key is unchanged; the count grows only for a new key; the capacity doubles exactly when the load exceeded 0.7 |
| Hashing.HashTable.Remove | regex_parser/src/main/java/domain/HashTable.java:124-132 | the key is gone and the count drops only if it was there; otherwise the cells are unchanged |
| Hashing.HashTable.Rehash | regex_parser/src/main/java/domain/HashTable.java:139-164 | the capacity doubles, and the pairs and the count stay the same |
| Hashing.HashTable.Reset | regex_parser/src/main/java/domain/HashTable.java:141-147 | a fresh, empty table of the new capacity |
| Hashing.HashTable.RehashCells | regex_parser/src/main/java/domain/HashTable.java:149-163 | every pair of the old cells is put into the new table |
| Hashing.HashTable.RehashCell | regex_parser/src/main/java/domain/HashTable.java:157-162 | the pairs of one old cell are added to the new table |
| Hashing.HashTable.PutList | regex_parser/src/main/java/domain/HashTable.java:255-261 | the pairs of one collision list are added |
| Hashing.HashTable.PutAll | regex_parser/src/main/java/domain/HashTable.java:246-267 | this table gains every pair of the argument, the argument's value winning on a shared key |
| Hashing.HashTable.CopyCells | regex_parser/src/main/java/utils/structures/OwnMap.java:115-125 | a fresh array holding the same cells |
| Hashing.HashTable.Clear | regex_parser/src/main/java/domain/HashTable.java:289-293 | an empty table of capacity 100 |
| Iteration.KeysSeq | regex_parser/src/main/java/utils/SetIterator.java:13-31 | the keys of a collision list, node by node |
| Iteration.ReversedMultiset | regex_parser/src/main/java/utils/SetIterator.java:24 | inserting each key at the front reorders the keys but keeps each one |
| Iteration.ScannedOnce | regex_parser/src/main/java/utils/SetIterator.java:13-31 | the cells read so far yield each key stored there exactly once |
| Iteration.ScannedAll | regex_parser/src/main/java/utils/SetIterator.java:13-31 | the iterator yields every key of the table exactly once and no other |
| Iteration.EmptyScan | regex_parser/src/main/java/utils/SetIterator.java:13-31 | the cells of an empty table yield no key |
| Iteration.SetIterator.constructor | regex_parser/src/main/java/utils/SetIterator.java:13-31 | the snapshot is the reverse of the keys read cell by cell and node by node |
| Iteration.SetIterator.HasNext | regex_parser/src/main/java/utils/SetIterator.java:34-36 | true exactly when a key is left |
| Iteration.SetIterator.Next | regex_parser/src/main/java/utils/SetIterator.java:39-46 | the current key, moving on; an exhausted iterator reports NoSuchElement and stays where it is |
| Sets.OwnSet.constructor | regex_parser/src/main/java/domain/OwnSet.java:13-15 | an empty set of capacity 100 |
| Sets.OwnSet.WithCapacity | regex_parser/src/main/java/domain/OwnSet.java:17-19 | an empty set of the given capacity |
| Sets.OwnSet.Add | regex_parser/src/main/java/domain/OwnSet.java:21-23 | the element is in the set; the size grows only for a new element |
| Sets.OwnSet.AddAll | regex_parser/src/main/java/domain/OwnSet.java:25-27 | the set becomes the union of itself and the argument |
| Sets.OwnSet.Contains | regex_parser/src/main/java/domain/OwnSet.java:31-38 | true exactly when the element is in the set |
| Sets.OwnSet.Remove | regex_parser/src/main/java/domain/HashTable.java:124-132 | the element is gone; the size drops only if it was there |
| Sets.OwnSet.Iterator | regex_parser/src/main/java/domain/OwnSet.java:64-68 | an iterator over every element exactly once |
| Sets.OwnSet.Copy | regex_parser/src/main/java/utils/structures/OwnMap.java:115-125 | a fresh set with the same elements, count and capacity |
| Sets.AddThenContains | regex_parser/src/main/java/domain/OwnSet.java:21-38 | after add the element is contained, and adding it again keeps the size 1 |
| Maps.OwnMap.constructor | regex_parser/src/main/java/utils/structures/OwnMap.java:20-23 | an empty map of capacity 100 with an empty key set |
| Maps.OwnMap.WithCapacity | regex_parser/src/main/java/utils/structures/OwnMap.java:30-33 | an empty map of the given capacity with an empty key set |
| Maps.OwnMap.Get | regex_parser/src/main/java/utils/structures/OwnMap.java:47-58 | the value stored with the key, or none |
| Maps.OwnMap.Put | regex_parser/src/main/java/utils/structures/OwnMap.java:65-69 | the key maps to the value and the key set keeps naming exactly the stored keys |
| Maps.OwnMap.Remove | regex_parser/src/main/java/utils/structures/OwnMap.java:77-81 | the key leaves both the table and the key set |
| Maps.OwnMap.ContainsKey | regex_parser/src/main/java/utils/structures/OwnMap.java:88-90 | true exactly when the key is stored |
| Maps.OwnMap.Copy | regex_parser/src/main/java/utils/structures/OwnMap.java:115-125 | a fresh map with the same pairs, count and capacity, and its own copy of the key set |
| Maps.LastPutWins | regex_parser/src/main/java/utils/structures/OwnMap.java:47-69 | get returns the value of the last put of a key, and containsKey holds |
| Maps.RemovedGone | regex_parser/src/main/java/utils/structures/OwnMap.java:47-90 | after remove, get finds nothing, containsKey is false and the size is 0 |
| Automaton.NextInGraph | regex_parser/src/main/java/domain/NFA.java:216-218 | in a well-formed graph every successor of a state on any symbol is a state of the graph |
| Automaton.StepInGraph | regex_parser/src/main/java/domain/NFA.java:216-218 | the successors of a whole set of states stay among the graph's states |
| Automaton.StepUnion | regex_parser/src/main/java/domain/NFA.java:216-218 | the successors of A + B are those of A together with those of B |
| Automaton.StepContainsNext | regex_parser/src/main/java/domain/NFA.java:216-218 | every state of the set contributes all of its successors to the step |
| Automaton.StepSingleton | regex_parser/src/main/java/domain/NFA.java:216-218 | the step of a single state is exactly that state's successors |
| Automaton.StepAddOne | regex_parser/src/main/java/domain/NFA.java:216-218 | visiting one more state adds exactly its own successors |
| Automaton.StepEmpty | regex_parser/src/main/java/domain/NFA.java:216-218 | no states have no successors |
| Automaton.AddNext | regex_parser/src/main/java/utils/generators/NFAGenerator.java:341 | addNextStateForSymbol: the target joins the successors on the symbol; other symbols and the wildcard successors are unchanged |
| Automaton.AddWildcard | regex_parser/src/main/java/utils/generators/NFAGenerator.java:376 | addStatesReachableWithAnyCharacter: the target joins the wildcard successors; the labelled ones are unchanged |
| Automaton.Closure | regex_parser/src/main/java/domain/NFA.java:280-292 | the closure contains the given states, is closed under moves on '#', and adds only states of the graph |
| Automaton.ClosureLeast | regex_parser/src/main/java/domain/NFA.java:255-292 | every '#'-closed superset of S contains the closure of S, so the closure is the least one |
| Automaton.ClosureUnique | regex_parser/src/main/java/domain/NFA.java:255-292 | a '#'-closed set between S and its closure is the closure |
| Automaton.ClosureMonotone | regex_parser/src/main/java/domain/NFA.java:255-292 | more states to start from give a larger closure |
| Automaton.ClosureUnion | regex_parser/src/main/java/domain/NFA.java:255-292 | the closure of a union is the union of the closures |
| Automaton.ClosureIdempotent | regex_parser/src/main/java/domain/NFA.java:255-292 | closing a closed set again changes nothing |
| Automaton.ClosureEmpty | regex_parser/src/main/java/domain/NFA.java:255-292 | the closure of no states is empty |
| Automaton.RunFromEmpty | regex_parser/src/main/java/domain/NFA.java:233-235 | once the current states are empty, accepts answers false whatever follows and whatever the inversion |
| Automaton.FrontierFromEmpty | regex_parser/src/main/java/domain/NFA.java:233-235 | from no states, reading anything reaches no states |
| Automaton.RunIsFinalFrontier | regex_parser/src/main/java/domain/NFA.java:196-239 | for an automaton that is not inverted, the early exit changes nothing: accepts answers whether the states reached after the whole word contain an accepting one |
| Automaton.RunStep | regex_parser/src/main/java/domain/NFA.java:205-236 | one pass of the loop: the answer on w is the answer on the rest of w from the closed successors on w's first symbol |
| Automaton.LinkAll | regex_parser/src/main/java/utils/generators/NFAGenerator.java:334-344 | every source gains every target on the symbol, the graph gains the new states, and well-formedness is kept |
| Automaton.LinkAllNext | regex_parser/src/main/java/utils/generators/NFAGenerator.java:334-344 | after linking, a state's successors are its old ones plus the targets exactly when it is a source and the symbol matches |
| Automaton.LinkNone | regex_parser/src/main/java/utils/generators/NFAGenerator.java:259-265 | linking from no states leaves the graph as it was (a loop over no accepting states adds nothing) |
| Automaton.AddAllTwice | regex_parser/src/main/java/utils/generators/NFAGenerator.java:256-257 | adding the same targets twice is adding them once |
| Automaton.LinkUnion | regex_parser/src/main/java/utils/generators/NFAGenerator.java:259-265 | linking the sources A and then B to the same target is linking A + B at once |
| Automaton.LinkBoth | regex_parser/src/main/java/utils/generators/NFAGenerator.java:256-257 | two '#' edges from one state added one at a time are one link to both targets |
| Automaton.LinkBothKeys | regex_parser/src/main/java/utils/generators/NFAGenerator.java:256-257 | the two ways of adding both edges give the same states |
| Automaton.LinkBothAt | regex_parser/src/main/java/utils/generators/NFAGenerator.java:256-257 | the two ways of adding both edges give the source the same edges |
| Automaton.LinkAny | regex_parser/src/main/java/utils/generators/NFAGenerator.java:369-379 | the source reaches the target on every symbol but '#', no other state changes, and well-formedness is kept |
| Automaton.UnionEdges | regex_parser/src/main/java/utils/generators/NFAGenerator.java:190-192 | the union of two states' edges has exactly the labelled and wildcard successors of both |
| Automaton.Merge | regex_parser/src/main/java/utils/generators/NFAGenerator.java:190-192 | after a complement is pushed, the generator's states and the complement's states form one graph holding the states of both |
| Automaton.MergeNextAt | regex_parser/src/main/java/utils/generators/NFAGenerator.java:190-192 | in the merged graph a state moves where it moves in either graph, and nowhere else |
| Automaton.MergeNext | regex_parser/src/main/java/utils/generators/NFAGenerator.java:190-192 | the same for every state and symbol |
| Automaton.MergeSelf | regex_parser/src/main/java/utils/generators/NFAGenerator.java:190-192 | merging a graph with itself changes nothing |
| Automaton.UnionSelf | regex_parser/src/main/java/utils/generators/NFAGenerator.java:190-192 | uniting a state's edges with themselves changes nothing |
| Automaton.MergeWellFormed | regex_parser/src/main/java/utils/generators/NFAGenerator.java:190-192 | merging well-formed graphs gives a well-formed graph |
| Automaton.GrowsTransitive | regex_parser/src/main/java/utils/generators/NFAGenerator.java:334-344 | adding edges in two rounds keeps every edge of the first graph |
| Automaton.ClosureGrows | regex_parser/src/main/java/domain/NFA.java:255-292 | more edges and more start states close to at least as large a set |
| Automaton.StepGrows | regex_parser/src/main/java/domain/NFA.java:216-218 | more edges and more states have at least as many successors |
| Automaton.FrontierGrows | regex_parser/src/main/java/domain/NFA.java:196-239 | simulation is monotone: more edges and more start states reach at least as many states on every word |
| Automaton.FrontierAppend | regex_parser/src/main/java/domain/NFA.java:205-236 | reading u then v from F reaches what reading u + v reaches |
| Automaton.FrontierClosed | regex_parser/src/main/java/domain/NFA.java:220 | every frontier of the simulation stays closed under '#' moves |
| Automaton.AbsentSymbolRejected | regex_parser/src/main/java/domain/NFA.java:233-235 | a word holding a symbol that no state has an edge for, wildcards included, empties the states for good |
| Automaton.MergeStepInside | regex_parser/src/main/java/domain/NFA.java:216-218 | from states of one graph, the merge with a graph on other states takes the same steps |
| Automaton.MergeClosureInside | regex_parser/src/main/java/domain/NFA.java:255-292 | the merge with a graph on other states closes states of one graph to the same set |
| Automaton.MergeRunInside | regex_parser/src/main/java/domain/NFA.java:196-239 | from states of one graph, the merge with a graph on other states answers as that graph does |
| Automaton.MergeAcceptsInside | regex_parser/src/main/java/domain/NFA.java:196-239 | an automaton starting in its own states accepts the same words after other states are merged in |
| NFAModel.SweepCombines | regex_parser/src/main/java/domain/NFA.java:280-292 | the recursive call's result, added to the states, is the caller's result |
| NFAModel.SweepOne | regex_parser/src/main/java/domain/NFA.java:282-287 | one pass of the inner loop: an unvisited state adds its '#' successors and becomes visited |
| NFAModel.NFA.constructor | regex_parser/src/main/java/domain/NFA.java:71-73 | new NFA(): state 0 starts, nothing accepts, not inverted, not a DFA, caching on, empty cache |
| NFAModel.NFA.Of | regex_parser/src/main/java/domain/NFA.java:82-84 | the given start and accepting states, not a DFA, caching on |
| NFAModel.NFA.OfKind | regex_parser/src/main/java/domain/NFA.java:94-96 | the given start, accepting states and DFA flag, caching on |
| NFAModel.NFA.Full | regex_parser/src/main/java/domain/NFA.java:98-105 | the given start, accepting states and both flags, never inverted, empty cache |
| NFAModel.NFA.SetStartingState | regex_parser/src/main/java/domain/NFA.java:113-115 | only the start changes |
| NFAModel.NFA.SetAcceptingStates | regex_parser/src/main/java/domain/NFA.java:145-147 | only the accepting states change |
| NFAModel.NFA.SetTransitions | regex_parser/src/main/java/utils/generators/DFAGenerator.java:165 | the edges the subset states receive; nothing else of the automaton changes |
| NFAModel.NFA.EnableCaching | regex_parser/src/main/java/domain/NFA.java:126-128 | caching is on and nothing else changes |
| NFAModel.NFA.DisableCaching | regex_parser/src/main/java/domain/NFA.java:130-133 | caching is off and nothing else changes |
| NFAModel.NFA.SetIsDFA | regex_parser/src/main/java/domain/NFA.java:298-305 | the DFA flag is set; a DFA does not cache, a non-DFA does; nothing else changes |
| NFAModel.NFA.Invert | regex_parser/src/main/java/domain/NFA.java:324-326 | the inversion flag flips and nothing else changes |
| NFAModel.NFA.ContainsAcceptingState | regex_parser/src/main/java/domain/NFA.java:342-349 | true iff some given state is accepting, read through the inversion flag |
| NFAModel.NFA.Successors | regex_parser/src/main/java/domain/NFA.java:216-218 | the union of the successors of all current states on the symbol |
| NFAModel.NFA.UnvisitedEpsilonSuccessors | regex_parser/src/main/java/domain/NFA.java:281-288 | the '#' successors of the states not yet visited, with all given states visited afterwards |
| NFAModel.NFA.AddEpsilonTransitionsFrom | regex_parser/src/main/java/domain/NFA.java:280-292 | the recursive sweep: the given states plus everything reachable from them without reading |
| NFAModel.NFA.AddEpsilonTransitionsOfStates | regex_parser/src/main/java/domain/NFA.java:255-257 | exactly the epsilon-closure of the given states |
| NFAModel.NFA.Remember | regex_parser/src/main/java/domain/NFA.java:222-227 | the cache gains the step from the current states on the symbol, keeping the other entries of that row |
| NFAModel.NFA.Accepts | regex_parser/src/main/java/domain/NFA.java:196-239 | the answer is the simulation of the automaton from the closure of its start, with the early exit on empty states and the inversion flag, whatever the cache holds; the automaton is otherwise untouched and the cache only grows |
| NFAModel.NFA.Equals | regex_parser/src/main/java/domain/NFA.java:352-375 | equal exactly to itself, or to another NFA with the same inversion and DFA flags and start when neither accepts anything, as OwnSet.equals compares collision lists by reference; null is unequal; transitions, the caching flag and the cache are ignored |
| NFAModel.InvertTwice | regex_parser/src/main/java/domain/NFA.java:324-326 | inverting twice restores the flag, the key, the edges and the cache |
| NFAModel.EqualsIsEquivalence | regex_parser/src/main/java/domain/NFA.java:352-375 | equals is reflexive, symmetric and transitive |
| NFAModel.AcceptingEqualsOnlyItself | regex_parser/src/main/java/domain/OwnSet.java:40-62 | an NFA with accepting states equals no other NFA object, in either direction |
| NFAModel.EmptyAcceptingEqual | regex_parser/src/main/java/domain/NFA.java:352-375 | two NFAs without accepting states are equal exactly when their flags and start agree |
| NFAModel.OneStateAutomaton | regex_parser/src/test/java/domain/NFATest.java:33-47 | a lone accepting start state accepts the empty word and no word of one symbol |
| NFAModel.OneEdgeAutomaton | regex_parser/src/test/java/domain/NFATest.java:49-67 | an edge on '0' to an accepting state accepts "0"; an edge on '1' does not |
| NFAGeneration.HasPrecedence | regex_parser/src/main/java/utils/generators/NFAGenerator.java:303-325 | on the six basic operations, hasPrecedence holds exactly for the sixteen pairs of PrecedencePairs; `(` and `\|` on top never take precedence |
| NFAGeneration.PrecedenceTable | regex_parser/src/main/java/utils/generators/NFAGenerator.java:303-325 | among the six basic operations, hasPrecedence holds for exactly sixteen listed pairs; for every other pair it is false |
| NFAGeneration.OpenParenthesisWaits | regex_parser/src/main/java/utils/generators/NFAGenerator.java:303-325 | `(` never takes precedence, so only evaluateParentheses removes it from the operation stack |
| NFAGeneration.UnionWaits | regex_parser/src/main/java/utils/generators/NFAGenerator.java:303-325 | `\|` never takes precedence, so a union waits for a closing parenthesis or the end of the pattern |
| NFAGeneration.StarGlue | regex_parser/src/main/java/utils/generators/NFAGenerator.java:220-238 | the edges evaluateKleeneStar adds keep a well-formed graph well formed |
| NFAGeneration.StarFragmentAsWritten | regex_parser/src/main/java/utils/generators/NFAGenerator.java:220-238 | the star the source returns keeps the operand's inversion and DFA flags |
| NFAGeneration.StarFragment | regex_parser/src/main/java/utils/generators/NFAGenerator.java:220-238 | the corrected star starts at the new start, accepts only at the new finish, and is not flagged as a DFA; otherwise it equals the star as written |
| NFAGeneration.PairFragment | regex_parser/src/main/java/utils/generators/NFAGenerator.java:334-344 | a leaf's or a union's automaton starts at its first new state and accepts only at the next one; it is neither inverted nor a DFA |
| NFAGeneration.RecognisesIsAccepts | regex_parser/src/main/java/domain/NFA.java:196-239 | for an automaton that is not inverted, recognising a word is exactly what accepts answers |
| NFAGeneration.RecognisesGrows | regex_parser/src/main/java/utils/generators/NFAGenerator.java:280-292 | edges that later operations add to shared states never take a word away from an automaton |
| NFAGeneration.ClosureOfClosed | regex_parser/src/main/java/domain/NFA.java:255-292 | the closure of a subset of an epsilon-closed set stays inside that set |
| NFAGeneration.EpsilonMoveStays | regex_parser/src/main/java/domain/NFA.java:255-292 | a set closed under epsilon moves keeps every epsilon successor of its members |
| NFAGeneration.ReadOne | regex_parser/src/main/java/domain/NFA.java:196-239 | reading one symbol from a set reaches every successor of its members on that symbol |
| NFAGeneration.SymbolLeafRecognises | regex_parser/src/main/java/utils/generators/NFAGenerator.java:334-344 | the automaton of one symbol other than `#` recognises that symbol |
| NFAGeneration.SymbolLeafExactly | regex_parser/src/main/java/utils/generators/NFAGenerator.java:334-344 | built on two fresh states, the automaton of one symbol recognises that one-symbol word and no other word |
| NFAGeneration.EmptyLeafRecognises | regex_parser/src/main/java/utils/generators/NFAGenerator.java:352-362 | the automaton of `#` recognises the empty word |
| NFAGeneration.AnyLeafRecognises | regex_parser/src/main/java/utils/generators/NFAGenerator.java:369-379 | the automaton of `.` recognises every single symbol other than `#` |
| NFAGeneration.ConcatSound | regex_parser/src/main/java/utils/generators/NFAGenerator.java:280-292 | a word of the first operand followed by a word of the second is a word of the concatenation |
| NFAGeneration.UnionGrows | regex_parser/src/main/java/utils/generators/NFAGenerator.java:247-271 | the union's edges keep the graph well formed, only add edges, lead from the new start to both starts, and lead from every accepting state of either operand to the new finish |
| NFAGeneration.UnionSound | regex_parser/src/main/java/utils/generators/NFAGenerator.java:247-271 | a word of either operand is a word of the union |
| NFAGeneration.StarEdges | regex_parser/src/main/java/utils/generators/NFAGenerator.java:220-238 | the star's edges only add edges, and lead from the new start and from every accepting state to both the old start and the new finish |
| NFAGeneration.StarRounds | regex_parser/src/main/java/utils/generators/NFAGenerator.java:220-238 | after any number of words of the operand, the star again reaches both the operand's start and the new finish |
| NFAGeneration.StarSound | regex_parser/src/main/java/utils/generators/NFAGenerator.java:220-238 | any sequence of words of the operand, written one after another, is a word of the star |
| NFAGeneration.StarAcceptsEmpty | regex_parser/src/main/java/utils/generators/NFAGenerator.java:220-238 | the star recognises the empty word |
| NFAGeneration.NegatedStarAsWritten | regex_parser/src/main/java/utils/generators/NFAGenerator.java:220-238 | when the operand is flagged as a DFA, the star as written is flagged as a DFA too, but it accepts the empty word both as itself and as its inversion; complementing a DFA by flipping flags then gives the wrong answer |
| NFAGeneration.NegatedStarCorrected | regex_parser/src/main/java/utils/generators/NFAGenerator.java:220-238 | the corrected star is not flagged as a DFA, so `!` goes through the subset construction, and the complement rejects the empty word that the star accepts |
| NFAGeneration.Concatenate | regex_parser/src/main/java/utils/generators/NFAGenerator.java:280-292 | concatenation succeeds exactly when there are two operands to pop; it replaces them with one and mints no ids |
| NFAGeneration.Unite | regex_parser/src/main/java/utils/generators/NFAGenerator.java:247-271 | union succeeds exactly when there are two operands to pop; it replaces them with one and mints two ids |
| NFAGeneration.Starred | regex_parser/src/main/java/utils/generators/NFAGenerator.java:220-238 | the star succeeds exactly when there is an operand; it replaces it with the corrected star, not flagged as a DFA, and mints two ids |
| NFAGeneration.Apply | regex_parser/src/main/java/utils/generators/NFAGenerator.java:175-194 | an already popped operation other than `)` and `!` leaves the operation stack as it is |
| NFAGeneration.Evaluated | regex_parser/src/main/java/utils/generators/NFAGenerator.java:171-196 | evaluate with a non-empty operation stack pops at least one operation and pushes none; with an empty stack it changes nothing |
| NFAGeneration.Parenthesised | regex_parser/src/main/java/utils/generators/NFAGenerator.java:206-211 | when evaluateParentheses succeeds, it has removed at least one operation, its `(`, and left a prefix of the operation stack |
| NFAGeneration.Reduced | regex_parser/src/main/java/utils/generators/NFAGenerator.java:135-137 | after the while loop, the operation stack is a prefix of what it was, and its top, if any, does not take precedence over the incoming operation |
| NFAGeneration.Drained | regex_parser/src/main/java/utils/generators/NFAGenerator.java:145-147 | after the final while loop, no operation is left |
| NFAGeneration.Leaves | regex_parser/src/main/java/utils/generators/NFAGenerator.java:115-131 | the symbol checks push automata only; the operation stack is untouched |
| NFAGeneration.Read | regex_parser/src/main/java/utils/generators/NFAGenerator.java:112-143 | one pass of the for loop moves the index forward, past the escaped symbol after `/`, and never pushes `!` when the pattern has none |
| NFAGeneration.Scanned | regex_parser/src/main/java/utils/generators/NFAGenerator.java:112-143 | the scan of a pattern without `!` leaves no `!` on the operation stack |
| NFAGeneration.Compiled | regex_parser/src/main/java/utils/generators/NFAGenerator.java:102-154 | when compilation succeeds, the operation stack is empty and there is an automaton to return |
| NFAGeneration.FitsGrow | regex_parser/src/main/java/utils/generators/NFAGenerator.java:102-154 | ids minted later, here upward and by the DFA generator downward, never clash with ids already in use |
| NFAGeneration.FitsPrefix | regex_parser/src/main/java/utils/generators/NFAGenerator.java:248-249 | popping automata off a stack whose ids are all in use keeps both what is left and what was popped in use |
| NFAGeneration.FitsPush | regex_parser/src/main/java/utils/generators/NFAGenerator.java:194 | pushing an automaton whose ids are in use keeps the whole stack in use |
| NFAGeneration.LinkFits | regex_parser/src/main/java/utils/generators/NFAGenerator.java:255-264 | edges between ids in use keep the graph's ids in use |
| NFAGeneration.ConcatGlueFits | regex_parser/src/main/java/utils/generators/NFAGenerator.java:280-292 | the concatenation uses only ids its operands use |
| NFAGeneration.LeafMinted | regex_parser/src/main/java/utils/generators/NFAGenerator.java:334-344 | a leaf's two states are the next two ids, and the leaf only uses ids handed out |
| NFAGeneration.UnionSteps | regex_parser/src/main/java/utils/generators/NFAGenerator.java:255-264 | the four loops of evaluateUnion, in their order, add exactly the union's edges |
| NFAGeneration.UnionFits | regex_parser/src/main/java/utils/generators/NFAGenerator.java:247-271 | the union uses only ids its operands use and its two new ones |
| NFAGeneration.UnionMinted | regex_parser/src/main/java/utils/generators/NFAGenerator.java:247-271 | the union's new states are the next two ids, its edges are the union's edges, and all its ids are handed out |
| NFAGeneration.StarSteps | regex_parser/src/main/java/utils/generators/NFAGenerator.java:228-234 | the star's three edge additions, in their order, add exactly the star's edges |
| NFAGeneration.StarFits | regex_parser/src/main/java/utils/generators/NFAGenerator.java:220-238 | the star uses only ids its operand uses and its two new ones |
| NFAGeneration.StarMinted | regex_parser/src/main/java/utils/generators/NFAGenerator.java:220-238 | the star's new states are the next two ids, its edges are the star's edges, and all its ids are handed out |
| NFAGeneration.MergeFits | regex_parser/src/main/java/utils/generators/NFAGenerator.java:190-192 | the states a complement brings from the DFA generator have ids that fit beside the current ids |
| NFAGeneration.FreshApart | regex_parser/src/main/java/utils/generators/NFAGenerator.java:80 | the DFA generator's ids, which count down from -1, never meet the generator's ids, which count up from 0 |
| NFAGeneration.ComplementMerged | regex_parser/src/main/java/utils/generators/NFAGenerator.java:190-192 | a complement keeps its language, the words its operand does not recognise, once its states join the shared graph |
| NFAGeneration.ScanPass | regex_parser/src/main/java/utils/generators/NFAGenerator.java:112-143 | a loop pass that agrees with one pass of the specification leaves the rest of the scan, or its error, unchanged |
| NFAGeneration.NFAGenerator.constructor | regex_parser/src/main/java/utils/generators/NFAGenerator.java:71-81 | the default alphabet and operations, an empty cache with caching as requested, and a DFA generator that hands out ids from -1 downward |
| NFAGeneration.NFAGenerator.Default | regex_parser/src/main/java/utils/generators/NFAGenerator.java:61-63 | the same as the constructor, with caching on |
| NFAGeneration.NFAGenerator.SetAlphabet | regex_parser/src/main/java/utils/generators/NFAGenerator.java:409-411 | the alphabet is replaced and every invariant is kept |
| NFAGeneration.NFAGenerator.GenerateNFAFromOneSymbol | regex_parser/src/main/java/utils/generators/NFAGenerator.java:334-344 | two new states, linked by the symbol, become the automaton; the id counter moves on by two |
| NFAGeneration.NFAGenerator.GenerateNFAFromEmptySymbol | regex_parser/src/main/java/utils/generators/NFAGenerator.java:352-362 | two new states, linked without reading, become the automaton |
| NFAGeneration.NFAGenerator.GenerateNFAFromAnySingleSymbol | regex_parser/src/main/java/utils/generators/NFAGenerator.java:369-379 | two new states, linked by every symbol, become the automaton |
| NFAGeneration.NFAGenerator.GenerateNFAFromEmptyString | regex_parser/src/main/java/utils/generators/NFAGenerator.java:387-394 | one new state that is both start and accepting, with no edges |
| NFAGeneration.NFAGenerator.LinkEach | regex_parser/src/main/java/utils/generators/NFAGenerator.java:259-265 | the loops add an edge without reading from every source to every target, and nothing else |
| NFAGeneration.NFAGenerator.UniteFragments | regex_parser/src/main/java/utils/generators/NFAGenerator.java:250-270 | two new states and exactly the union's edges; the id counter moves on by two |
| NFAGeneration.NFAGenerator.StarFragmentOf | regex_parser/src/main/java/utils/generators/NFAGenerator.java:221-237 | two new states and exactly the star's edges, the id counter moved on by two; the result is the corrected star, whose DFA flag is cleared where the program keeps it |
| NFAGeneration.NFAGenerator.EvaluateConcatenation | regex_parser/src/main/java/utils/generators/NFAGenerator.java:280-292 | with fewer than two automata, popping throws; otherwise the two top automata are popped and their concatenation, over the glued edges, is returned |
| NFAGeneration.NFAGenerator.EvaluateUnion | regex_parser/src/main/java/utils/generators/NFAGenerator.java:247-271 | with fewer than two automata, popping throws; otherwise the two top automata are popped and the union over exactly its edges is returned |
| NFAGeneration.NFAGenerator.EvaluateKleeneStar | regex_parser/src/main/java/utils/generators/NFAGenerator.java:220-238 | with no automaton, popping throws; otherwise the top automaton is popped and its corrected star, not flagged as a DFA, over exactly its edges is returned |
| NFAGeneration.NFAGenerator.ComplementOf | regex_parser/src/main/java/utils/generators/DFAGenerator.java:93-189 | the cache is hit exactly when caching is on, the operand accepts nothing and some cached automaton has its flags and start, and then that automaton's complement is returned; otherwise an automaton flagged as a DFA comes back with its inversion flipped, and any other one gives a fresh DFA over states apart from the generator's that accepts exactly the words over the symbol set that the operand does not recognise |
| NFAGeneration.NFAGenerator.OperandOf | regex_parser/src/main/java/utils/generators/NFAGenerator.java:190-192 | the popped automaton as a new NFA object over the shared edges, with its own states and flags |
| NFAGeneration.NFAGenerator.MergedComplement | regex_parser/src/main/java/utils/generators/NFAGenerator.java:190-192 | the complement as ComplementOf gives it, with its states joined to the shared edges: a hit gives the cached complement, the DFA case changes no edge, and a fresh complement keeps its language in the joined edges |
| NFAGeneration.CachedOperand | regex_parser/src/main/java/utils/generators/DFAGenerator.java:96 | containsKey for a new NFA object finds a cached key exactly when the operand accepts nothing and a cached key has its flags and start |
| NFAGeneration.NFAGenerator.EvaluateComplement | regex_parser/src/main/java/utils/generators/NFAGenerator.java:190-192 | with no automaton, popping throws; otherwise the top automaton is replaced by its complement: from the cache only when it accepts nothing and a cached automaton has its flags and start, flipped when flagged as a DFA, and otherwise a fresh one whose language within the shared graph is every word over the symbol set that the operand does not recognise |
| NFAGeneration.NFAGenerator.Operate | regex_parser/src/main/java/utils/generators/NFAGenerator.java:175-194 | `&`, `\|`, `*` or the empty automaton for any other popped operation does what the specification's step does, with the same error |
| NFAGeneration.NFAGenerator.Evaluate | regex_parser/src/main/java/utils/generators/NFAGenerator.java:171-196 | false on an empty operation stack; otherwise one evaluation step, and the machine ends as the specification says, with the same error |
| NFAGeneration.NFAGenerator.EvaluateParentheses | regex_parser/src/main/java/utils/generators/NFAGenerator.java:206-211 | it evaluates down to the matching `(`, removes it, and ends as the specification says; a missing `(` is an error |
| NFAGeneration.NFAGenerator.PushSymbolLeaf | regex_parser/src/main/java/utils/generators/NFAGenerator.java:129-131 | the symbol's automaton is pushed, as the specification's step does |
| NFAGeneration.NFAGenerator.PushEmptyLeaf | regex_parser/src/main/java/utils/generators/NFAGenerator.java:121-123 | the automaton of `#` is pushed, as the specification's step does |
| NFAGeneration.NFAGenerator.PushAnyLeaf | regex_parser/src/main/java/utils/generators/NFAGenerator.java:125-127 | the automaton of `.` is pushed, as the specification's step does |
| NFAGeneration.NFAGenerator.PushLeaves | regex_parser/src/main/java/utils/generators/NFAGenerator.java:121-131 | the symbol checks of either revision push what the specification says for that revision |
| NFAGeneration.NFAGenerator.Reduce | regex_parser/src/main/java/utils/generators/NFAGenerator.java:135-137 | the while loop ends where the specification does, with the same error |
| NFAGeneration.NFAGenerator.ReadSymbol | regex_parser/src/main/java/utils/generators/NFAGenerator.java:113-142 | one loop pass moves the index forward within the pattern and agrees with the specification's pass |
| NFAGeneration.NFAGenerator.Scan | regex_parser/src/main/java/utils/generators/NFAGenerator.java:112-143 | the for loop ends where the specification's scan does, with the same error |
| NFAGeneration.NFAGenerator.Drain | regex_parser/src/main/java/utils/generators/NFAGenerator.java:145-147 | the final while loop ends where the specification does, with the same error |
| NFAGeneration.NFAGenerator.Emit | regex_parser/src/main/java/utils/generators/NFAGenerator.java:148 | with no automaton, popping throws; otherwise a fresh NFA object over the final edges with the top automaton's states and flags |
| NFAGeneration.NFAGenerator.Build | regex_parser/src/main/java/utils/generators/NFAGenerator.java:107-148 | the result is a fresh, valid NFA, and for a pattern without `!` it is the one the specification compiles, or the same error; stars are the corrected ones |
| NFAGeneration.NFAGenerator.GenerateNFA | regex_parser/src/main/java/utils/generators/NFAGenerator.java:102-154 | a pattern that fails to elongate gives that error; a cached pattern gives the cached NFA; otherwise a fresh NFA, added to the cache when caching is on, which for a pattern without `!` is the compiled one, with corrected stars |
| DFAConstruction.SymbolSetMembership | regex_parser/src/main/java/utils/generators/DFAGenerator.java:54-57 | the symbols the generator builds transitions for are exactly the letters and digits, the shorthand symbols, the basic operations and `/` |
| DFAConstruction.EpsilonNotSymbol | regex_parser/src/main/java/utils/generators/DFAGenerator.java:54-57 | neither `#` nor `.` is among those symbols |
| DFAConstruction.SingleStateClosed | regex_parser/src/main/java/utils/generators/DFAGenerator.java:143-165 | a subset state has only labelled transitions, so its closure is itself |
| DFAConstruction.SubsetFrontier | regex_parser/src/main/java/utils/generators/DFAGenerator.java:136-181 | reading a word over the symbols from a subset state reaches exactly the one subset state of the set of NFA states the word reaches |
| DFAConstruction.AcceptingMeets | regex_parser/src/main/java/domain/NFA.java:196-239 | without inversion, a set of states accepts exactly when it meets the accepting states |
| DFAConstruction.ComplementLanguage | regex_parser/src/main/java/utils/generators/DFAGenerator.java:93-189 | the subset automaton accepts a word over the symbols exactly when the NFA does not accept it |
| DFAConstruction.ComplementEverywhere | regex_parser/src/main/java/utils/generators/DFAGenerator.java:93-189 | every word over the symbols is accepted by exactly one of the NFA and its complement |
| DFAConstruction.ForeignSymbolRejected | regex_parser/src/main/java/utils/generators/DFAGenerator.java:143-165 | a word holding a symbol outside the symbol set has no transition to follow, so the complement rejects it |
| DFAConstruction.PowersetContains | regex_parser/src/main/java/utils/generators/DFAGenerator.java:157-164 | every set of NFA states the construction can meet is among the finitely many subsets of the NFA's states |
| DFAConstruction.FewerToMeet | regex_parser/src/main/java/utils/generators/DFAGenerator.java:159-164 | meeting a new set leaves fewer sets still to meet |
| DFAConstruction.WorklistShrinks | regex_parser/src/main/java/utils/generators/DFAGenerator.java:136-181 | each pass of the while loop either meets a new set or shrinks the worklist, so the loop ends |
| DFAConstruction.NoneDone | regex_parser/src/main/java/utils/generators/DFAGenerator.java:143 | proof helper for the symbol loop's invariant, no source line of its own: before the loop, no symbol is done |
| DFAConstruction.AllDone | regex_parser/src/main/java/utils/generators/DFAGenerator.java:143 | proof helper for the symbol loop's invariant, no source line of its own: after the loop, every symbol is done |
| DFAConstruction.SymbolTaken | regex_parser/src/main/java/utils/generators/DFAGenerator.java:143 | proof helper for the symbol loop's invariant, no source line of its own: taking a symbol out of those still to do adds it to those done, and it was not done before |
| DFAConstruction.InitialInv | regex_parser/src/main/java/utils/generators/DFAGenerator.java:105-133 | the start subset state, the closure of the NFA's start, its accepting test and the worklist holding it satisfy the loop invariant |
| DFAConstruction.StartInvestigating | regex_parser/src/main/java/utils/generators/DFAGenerator.java:138-141 | moving a subset state from the worklist to the investigated states keeps the invariant, with none of its symbols done |
| DFAConstruction.DoneInvestigating | regex_parser/src/main/java/utils/generators/DFAGenerator.java:143-180 | once every symbol is done for the current state, the invariant holds without naming it |
| DFAConstruction.MintInverse | regex_parser/src/main/java/utils/generators/DFAGenerator.java:162-163 | the two maps between sets and subset states stay inverse to each other when a new pair is added |
| DFAConstruction.ExploredAfterMint | regex_parser/src/main/java/utils/generators/DFAGenerator.java:160-163 | transitions already explored stay explored when a new set gets a subset state |
| DFAConstruction.MintKeepsInv | regex_parser/src/main/java/utils/generators/DFAGenerator.java:160-163 | minting a subset state for a new set keeps the invariant, with the next id one lower |
| DFAConstruction.ExploredAfterMinted | regex_parser/src/main/java/utils/generators/DFAGenerator.java:160-163 | minting leaves every investigated subset state as explored as it was |
| DFAConstruction.ExploredAfterLink | regex_parser/src/main/java/utils/generators/DFAGenerator.java:165 | adding the transition on a symbol to the subset state of the set that symbol reaches extends the explored symbols by it |
| DFAConstruction.ExploredAfterLinked | regex_parser/src/main/java/utils/generators/DFAGenerator.java:165 | adding a transition to the current state leaves every other investigated state as explored as it was |
| DFAConstruction.LinkKeepsInv | regex_parser/src/main/java/utils/generators/DFAGenerator.java:165-179 | the transition, the accepting test and the enqueueing keep the invariant with one more symbol done |
| DFAConstruction.TransitionKeepsInv | regex_parser/src/main/java/utils/generators/DFAGenerator.java:155-179 | finding or minting the subset state and then linking it keeps the invariant, and the construction only grows |
| DFAConstruction.KnownSetsBounded | regex_parser/src/main/java/utils/generators/DFAGenerator.java:157-164 | every set the construction has met is a subset of the NFA's states |
| DFAConstruction.ExploredInside | regex_parser/src/main/java/utils/generators/DFAGenerator.java:165 | the transitions of an explored state lead only to subset states |
| DFAConstruction.ExploredGraphWellFormed | regex_parser/src/main/java/utils/generators/DFAGenerator.java:165 | when every subset state is explored, the subset automaton's graph is well formed |
| DFAConstruction.AllExplored | regex_parser/src/main/java/utils/generators/DFAGenerator.java:136-181 | with the worklist empty, every subset state has its transition on every symbol |
| DFAConstruction.Finished | regex_parser/src/main/java/utils/generators/DFAGenerator.java:136-181 | with the worklist empty, the construction is a complete subset automaton of the NFA |
| DFAConstruction.ExtendsTransitive | regex_parser/src/main/java/utils/generators/DFAGenerator.java:136-181 | growth of the construction composes across loop passes |
| DFAConstruction.AnyAccepting | regex_parser/src/main/java/utils/generators/DFAGenerator.java:167-173 | the early-exit loop finds an accepting state exactly when the set meets the accepting states |
| DFAConstruction.ReachableStep | regex_parser/src/main/java/utils/generators/DFAGenerator.java:148-152 | adding one more state's closed successors to those gathered so far gives the closed successors of the larger set |
| DFAConstruction.ReachableFromAny | regex_parser/src/main/java/utils/generators/DFAGenerator.java:145-152 | the loop gathers the closure of every successor on the symbol of every state of the set |
| DFAConstruction.SubsetAcceptingInside | regex_parser/src/main/java/utils/generators/DFAGenerator.java:174-176 | the accepting subset states are subset states, and the subset automaton's graph is well formed |
| DFAConstruction.DFAGenerator.constructor | regex_parser/src/main/java/utils/generators/DFAGenerator.java:44-46 | ids from the given one downward, caching on, an empty cache |
| DFAConstruction.DFAGenerator.WithCaching | regex_parser/src/main/java/utils/generators/DFAGenerator.java:48-58 | ids from the given one downward, caching as given, no cached complements |
| DFAConstruction.DFAGenerator.EnableCaching | regex_parser/src/main/java/utils/generators/DFAGenerator.java:191-197 | caching is on and the cache, if there was one, is kept |
| DFAConstruction.DFAGenerator.DisableCaching | regex_parser/src/main/java/utils/generators/DFAGenerator.java:199-201 | caching is off and nothing else changes |
| DFAConstruction.DFAGenerator.GenerateComplementDFA | regex_parser/src/main/java/utils/generators/DFAGenerator.java:93-189 | a cache hit, when some cached key is NFA.equals to the NFA, returns that key's complement and changes nothing; an NFA flagged as a DFA is inverted in place and returned; otherwise a fresh DFA whose states are newly handed out ids accepts exactly the words over the symbol set that the NFA rejects, and it is cached under the NFA object when caching is on |
| DFAConstruction.DFAGenerator.FreshComplement | regex_parser/src/main/java/utils/generators/DFAGenerator.java:105-188 | the subset construction gives a fresh DFA accepting exactly the complement over the symbol set, flagged as a DFA and cached when caching is on |
| DFAConstruction.DFAGenerator.SubsetConstruction | regex_parser/src/main/java/utils/generators/DFAGenerator.java:105-181 | the result is a complete subset automaton of the NFA whose start stands for the closure of the NFA's start, with ids counting down from the next available one |
| DFAConstruction.DFAGenerator.Worklist | regex_parser/src/main/java/utils/generators/DFAGenerator.java:136-181 | the while loop ends with nothing left to investigate and the invariant kept |
| DFAConstruction.DFAGenerator.InvestigateSymbols | regex_parser/src/main/java/utils/generators/DFAGenerator.java:143-180 | the for loop gives the current subset state its transition on every symbol and keeps the invariant |
| DFAConstruction.DFAGenerator.InvestigateSymbol | regex_parser/src/main/java/utils/generators/DFAGenerator.java:144-179 | one symbol's pass adds its transition and keeps the invariant with that symbol done |
| DFAConstruction.DFAGenerator.AddTransition | regex_parser/src/main/java/utils/generators/DFAGenerator.java:155-179 | the subset state of the set reached is found or minted, with the id counter lowered only when minted, then linked, tested for acceptance and enqueued |
| GeneratorExamples.ReadLetter | regex_parser/src/main/java/utils/generators/NFAGenerator.java:129-131 | a letter of the alphabet that is not an operation pushes the automaton of that letter, and the scan goes on at the next character with that machine |
| GeneratorExamples.ReadOperation | regex_parser/src/main/java/utils/generators/NFAGenerator.java:133-141 | an operation that is not a letter first reduces the operation stack and is then pushed onto it, and the scan goes on at the next character with that machine |
| GeneratorExamples.ReadPushed | regex_parser/src/main/java/utils/generators/NFAGenerator.java:133-141 | an operation read while the stack is empty, or while the operation on top does not take precedence over it, is pushed without evaluating anything |
| GeneratorExamples.ReadLastOperation | regex_parser/src/main/java/utils/generators/NFAGenerator.java:133-143 | an operation read as the last character ends the scan with the reduced machine and that operation pushed |
| GeneratorExamples.ScanEnd | regex_parser/src/main/java/utils/generators/NFAGenerator.java:112 | the scan loop stops at the end of the pattern and leaves both stacks as they are |
| GeneratorExamples.ScanLeadingA | regex_parser/src/main/java/utils/generators/NFAGenerator.java:129-131 | a pattern starting with `a` first pushes the automaton of `a` on states 0 and 1 |
| GeneratorExamples.ScanOperationAfterA | regex_parser/src/main/java/utils/generators/NFAGenerator.java:133-141 | an operation after the leading `a` is pushed onto the still empty operation stack |
| GeneratorExamples.ScanBAfter | regex_parser/src/main/java/utils/generators/NFAGenerator.java:129-131 | a `b` after that operation pushes the automaton of `b` on states 2 and 3 |
| GeneratorExamples.CompiledOf | regex_parser/src/main/java/utils/generators/NFAGenerator.java:145-152 | once the scan and the evaluations left after it succeed, generateNFA returns the automaton on top of the automaton stack |
| GeneratorExamples.EvaluatedTop | regex_parser/src/main/java/utils/generators/NFAGenerator.java:171-196 | evaluate pops the operation on top and applies it to the automaton stack, for every operation but `)` |
| GeneratorExamples.DrainedStep | regex_parser/src/main/java/utils/generators/NFAGenerator.java:145-147 | the loop after the scan evaluates once and goes on with the machine that leaves |
| GeneratorExamples.DrainedLastStar | regex_parser/src/main/java/utils/generators/NFAGenerator.java:220-238 | draining a lone star over one automaton leaves the star of that automaton on two fresh states |
| GeneratorExamples.DrainedLastUnion | regex_parser/src/main/java/utils/generators/NFAGenerator.java:247-271 | draining a lone union over two automata leaves their union on two fresh states |
| GeneratorExamples.DrainedLastConcatenation | regex_parser/src/main/java/utils/generators/NFAGenerator.java:280-292 | draining a lone concatenation over two automata leaves their concatenation and mints no state |
| GeneratorExamples.EvaluatedStarAbove | regex_parser/src/main/java/utils/generators/NFAGenerator.java:184-186 | a star above another operation is evaluated first and stars only the automaton on top |
| GeneratorExamples.StarredTop | regex_parser/src/main/java/utils/generators/NFAGenerator.java:220-238 | evaluateKleeneStar replaces the automaton on top by its star and mints two states |
| GeneratorExamples.UnitedTop | regex_parser/src/main/java/utils/generators/NFAGenerator.java:247-271 | evaluateUnion replaces the two automata on top by their union and mints two states |
| GeneratorExamples.ConcatenatedTop | regex_parser/src/main/java/utils/generators/NFAGenerator.java:280-292 | evaluateConcatenation replaces the two automata on top by their concatenation and mints no state |
| GeneratorExamples.ConcatenateCopies | regex_parser/src/main/java/utils/generators/NFAGenerator.java:220-238 | n one-symbol words written one after another are n copies of the symbol |
| GeneratorExamples.NowhereRejected | regex_parser/src/main/java/domain/NFA.java:196-239 | a word holding a symbol that no state reads is rejected, whatever the start and the accepting states |
| GeneratorExamples.AdvanceWithin | regex_parser/src/main/java/domain/NFA.java:196-239 | reading a symbol from inside a set whose successors on it stay inside an epsilon-closed set lands inside that set |
| GeneratorExamples.ScanStar | regex_parser/src/main/java/utils/generators/NFAGenerator.java:112-143 | scanning `a*` pushes the leaf of `a` and leaves the star on the operation stack |
| GeneratorExamples.DrainedStar | regex_parser/src/main/java/utils/generators/NFAGenerator.java:145-147 | draining `a*` stars the leaf with states 2 and 3 |
| GeneratorExamples.CompiledStar | regex_parser/src/main/java/utils/generators/NFAGenerator.java:102-154 | generateNFA on `a*` builds the leaf on states 0 and 1 and stars it with states 2 and 3 |
| GeneratorExamples.StarNext | regex_parser/src/main/java/utils/generators/NFAGenerator.java:220-238 | the edges of `a*` are exactly `a` from 0 to 1 and the moves without reading from 2 and from 1 to 0 and to 3 |
| GeneratorExamples.StarAcceptsRepetitions | regex_parser/src/test/java/utils/NFAGeneratorTest.java:129-144 | `a*` accepts any number of `a`, none included |
| GeneratorExamples.StarRejectsOthers | regex_parser/src/test/java/utils/NFAGeneratorTest.java:146-150 | `a*` rejects every word holding a symbol other than `a` |
| GeneratorExamples.StarExamples | regex_parser/src/test/java/utils/NFAGeneratorTest.java:129-150 | `a*` accepts `""` and `"aaaaaa"` and rejects `"bb"` |
| GeneratorExamples.NormalisedStar | regex_parser/src/main/java/utils/PatternProcessor.java:51-60 | `a*` needs no concatenation symbol |
| GeneratorExamples.LeavesNext | regex_parser/src/main/java/utils/generators/NFAGenerator.java:334-344 | the leaves of `a` and `b` have exactly their two labelled edges, and the second leaf keeps the first one's edge |
| GeneratorExamples.LeavesRecognise | regex_parser/src/main/java/utils/generators/NFAGenerator.java:334-344 | each leaf recognises its symbol among the edges of both |
| GeneratorExamples.ScanUnion | regex_parser/src/main/java/utils/generators/NFAGenerator.java:112-143 | scanning `a\|b` pushes both leaves and leaves the union on the operation stack |
| GeneratorExamples.DrainedUnion | regex_parser/src/main/java/utils/generators/NFAGenerator.java:145-147 | draining `a\|b` unites the two leaves with states 4 and 5 |
| GeneratorExamples.CompiledUnion | regex_parser/src/main/java/utils/generators/NFAGenerator.java:102-154 | generateNFA on `a\|b` unites the two leaves with states 4 and 5 |
| GeneratorExamples.NormalisedUnion | regex_parser/src/main/java/utils/PatternProcessor.java:303-328 | `a\|b` needs no concatenation symbol |
| GeneratorExamples.UnionNext | regex_parser/src/main/java/utils/generators/NFAGenerator.java:247-271 | the edges of `a\|b` are exactly the two leaves, 4 to both starts and both finishes to 5 without reading |
| GeneratorExamples.UnionAcceptsEither | regex_parser/src/test/java/utils/NFAGeneratorTest.java:111-114 | `a\|b` accepts `"a"` and `"b"` |
| GeneratorExamples.UnionEdgesHold | regex_parser/src/main/java/utils/generators/NFAGenerator.java:247-271 | the automaton of `a\|b` is well formed and has exactly the edges UnionNext lists |
| GeneratorExamples.UnionEpsilonMet | regex_parser/src/main/java/utils/generators/NFAGenerator.java:255-264 | in any automaton with the edges of `a\|b`, the moves without reading from the states the rejected words meet |
| GeneratorExamples.UnionSymbolsMet | regex_parser/src/main/java/utils/generators/NFAGenerator.java:334-344 | in any automaton with the edges of `a\|b`, the moves on `a` and `b` from the states the rejected words meet |
| GeneratorExamples.ShapeStart | regex_parser/src/main/java/domain/NFA.java:255-292 | from a start whose only moves without reading go to two states with none, the closure stays among those three |
| GeneratorExamples.ShapeAfterA | regex_parser/src/main/java/domain/NFA.java:196-239 | of the union's start states only the first leaf reads `a`, and its finish moves on only to the union's finish |
| GeneratorExamples.ShapeAfterB | regex_parser/src/main/java/domain/NFA.java:196-239 | after `a`, no state reached reads `b` |
| GeneratorExamples.UnionShapeRejects | regex_parser/src/main/java/domain/NFA.java:196-239 | any automaton with the union's moves rejects `""` and `"ab"` |
| GeneratorExamples.UnionRejects | regex_parser/src/test/java/utils/NFAGeneratorTest.java:116-126 | `a\|b` rejects `""` and `"ab"` |
| GeneratorExamples.NormalisedConcatStar | regex_parser/src/main/java/utils/PatternProcessor.java:303-328 | `ab*` gets a concatenation symbol between the letters and none before the star |
| GeneratorExamples.NormalisedStarOfPair | regex_parser/src/main/java/utils/PatternProcessor.java:303-328 | `(ab)*` gets a concatenation symbol only between the letters |
| GeneratorExamples.ScanConcatStarLast | regex_parser/src/main/java/utils/generators/NFAGenerator.java:133-141 | the star read after `a&b` is pushed above the concatenation, which does not take precedence over it |
| GeneratorExamples.ScanConcatStar | regex_parser/src/main/java/utils/generators/NFAGenerator.java:112-143 | scanning `a&b*` leaves both operations on the operation stack, since the star does not evaluate the concatenation |
| GeneratorExamples.EvaluateStarOfConcatStar | regex_parser/src/main/java/utils/generators/NFAGenerator.java:171-196 | draining `a&b*` first evaluates the star, over the second leaf |
| GeneratorExamples.DrainedConcatStar | regex_parser/src/main/java/utils/generators/NFAGenerator.java:145-147 | draining `a&b*` stars the leaf of `b` with states 4 and 5 and then concatenates the leaf of `a` with it |
| GeneratorExamples.CompiledConcatStar | regex_parser/src/main/java/utils/generators/NFAGenerator.java:102-154 | generateNFA on `a&b*` stars the leaf of `b` and then concatenates the leaf of `a` with it |
| GeneratorExamples.ConcatStarNext | regex_parser/src/main/java/utils/generators/NFAGenerator.java:220-292 | the edges of `a&b*` are exactly the leaves, 4 and 3 to 2 and 5 without reading, and 1 to 4 without reading |
| GeneratorExamples.ConcatStarEdgesHold | regex_parser/src/main/java/utils/generators/NFAGenerator.java:220-292 | the automaton of `a&b*` is well formed and has exactly the edges ConcatStarNext lists |
| GeneratorExamples.ConcatStarEpsilonMet | regex_parser/src/main/java/utils/generators/NFAGenerator.java:228-234 | in any automaton with the edges of `a&b*`, the moves without reading are 1 to 4, 4 and 3 to both 2 and 5, and none from 0, 2 or 5 |
| GeneratorExamples.ConcatStarSymbolsMet | regex_parser/src/main/java/utils/generators/NFAGenerator.java:334-344 | in any automaton with the edges of `a&b*`, the moves on `a` and `b` that `"abab"` meets |
| GeneratorExamples.ConcatStarShapeStart | regex_parser/src/main/java/domain/NFA.java:255-292 | a start with no move without reading is its own closure |
| GeneratorExamples.ConcatStarShapeFirstA | regex_parser/src/main/java/domain/NFA.java:196-239 | after `a`, the states reached are the first leaf's finish, the star's start and what it moves to |
| GeneratorExamples.ConcatStarShapeFirstB | regex_parser/src/main/java/domain/NFA.java:196-239 | after `ab`, the states reached are the second leaf's finish, its start and the star's finish |
| GeneratorExamples.ConcatStarShapeSecondA | regex_parser/src/main/java/domain/NFA.java:196-239 | after `aba` no state is left, since none of those states reads `a` |
| GeneratorExamples.ConcatStarShapeRejects | regex_parser/src/main/java/domain/NFA.java:196-239 | any automaton with the moves of `a&b*` rejects `"abab"` |
| GeneratorExamples.ConcatStarRejects | regex_parser/src/test/java/utils/NFAGeneratorTest.java:165-168 | `ab*` rejects `"abab"` |
| GeneratorExamples.ReduceParenthesised | regex_parser/src/main/java/utils/generators/NFAGenerator.java:135-137 | reading `*` after `(a&b)` evaluates the parentheses, which leaves only the concatenation of the leaves |
| GeneratorExamples.ReducedPairInParentheses | regex_parser/src/main/java/utils/generators/NFAGenerator.java:206-211 | a star read after `(`, `&` and `)` evaluates the concatenation inside and pops the open parenthesis |
| GeneratorExamples.ScanOpen | regex_parser/src/main/java/utils/generators/NFAGenerator.java:133-141 | the open parenthesis of `(a&b)*` is pushed onto the empty operation stack |
| GeneratorExamples.ScanLetterOpened | regex_parser/src/main/java/utils/generators/NFAGenerator.java:129-131 | the `a` of `(a&b)*` pushes its leaf on states 0 and 1 |
| GeneratorExamples.ScanAmpersandInside | regex_parser/src/main/java/utils/generators/NFAGenerator.java:133-141 | the concatenation after `(a` is pushed over the open parenthesis, which takes precedence over nothing |
| GeneratorExamples.ScanLetterInside | regex_parser/src/main/java/utils/generators/NFAGenerator.java:129-131 | the `b` of `(a&b)*` pushes its leaf on states 2 and 3 |
| GeneratorExamples.ScanClose | regex_parser/src/main/java/utils/generators/NFAGenerator.java:133-141 | the closing parenthesis after `(a&b` is only pushed, since the concatenation does not take precedence over it |
| GeneratorExamples.ScanStarAfterPair | regex_parser/src/main/java/utils/generators/NFAGenerator.java:135-139 | the star after `(a&b)` evaluates the parentheses and is then pushed |
| GeneratorExamples.ScanStarAfterParentheses | regex_parser/src/main/java/utils/generators/NFAGenerator.java:133-143 | a star read last, after `(`, `&` and `)` over two automata, is pushed onto the stack the parentheses leave |
| GeneratorExamples.ScanStarOfPair | regex_parser/src/main/java/utils/generators/NFAGenerator.java:112-143 | scanning `(a&b)*` evaluates the parentheses before the star is pushed |
| GeneratorExamples.DrainedStarOfPair | regex_parser/src/main/java/utils/generators/NFAGenerator.java:145-147 | draining `(a&b)*` stars the concatenation with states 4 and 5 |
| GeneratorExamples.CompiledStarOfPair | regex_parser/src/main/java/utils/generators/NFAGenerator.java:102-154 | generateNFA on `(a&b)*` concatenates the leaves and then stars the concatenation |
| GeneratorExamples.PairRecognises | regex_parser/src/test/java/utils/NFAGeneratorTest.java:153-156 | the concatenation of the leaves of `a` and `b` recognises `"ab"` |
| GeneratorExamples.TwoSymbols | regex_parser/src/main/java/utils/generators/NFAGenerator.java:280-292 | concatenating two fragments that recognise one symbol each recognises the two-symbol word |
| GeneratorExamples.TwiceStarred | regex_parser/src/main/java/utils/generators/NFAGenerator.java:220-238 | a word of an automaton that is not inverted, read twice, is accepted by its star |
| GeneratorExamples.StarOfPairAccepts | regex_parser/src/test/java/utils/NFAGeneratorTest.java:165-168 | `(ab)*` accepts `"abab"` |
| GeneratorExamples.ParenthesesChangeOrder | regex_parser/src/test/java/utils/NFAGeneratorTest.java:165-168 | parentheses change the order of operations: `ab*` rejects `"abab"` and `(ab)*` accepts it |

## Left out

- Exceptions: an index out of range in the string utilities and containers, except for the four `OwnStringBuilder` methods below, an unbalanced parenthesis, a failed `parseInt`, a missing `]` or a pop from an empty stack is returned as `Err` with the exception's kind. Nothing is thrown, and the stack trace and message are not modelled.
- StringBuilder.OwnStringBuilder.DeleteCharAt: requires `0 <= idx < length`. Java throws `StringIndexOutOfBoundsException` from `substring` outside that range. Every call in `PatternProcessor` is proved to be in range.
- StringBuilder.OwnStringBuilder.Insert: requires `0 <= idx <= length`. Java throws `StringIndexOutOfBoundsException` for other indices, except that `insert(0, …)` never throws. Every call in `PatternProcessor` is proved to be in range.
- StringBuilder.OwnStringBuilder.CharAt: requires `0 <= i < length`. Java throws `StringIndexOutOfBoundsException` outside that range. Every call in `PatternProcessor` is proved to be in range.
- StringBuilder.OwnStringBuilder.Substring: requires `0 <= i <= j <= length`. Java throws `StringIndexOutOfBoundsException` outside that range. Every call in `PatternProcessor` is proved to be in range.
- StringBuilder.OwnStringBuilder.Delete: requires both indices within `0 .. length`. Java throws outside that range. With `i2 < i1` Java does not throw, and the model returns the same duplicated text.
- Strings: the model's characters are Unicode scalar values; Java's are UTF-16 code units. For text with characters above U+FFFF, three things differ. Lengths differ, and so do the indices of `length`, `charAt`, `indexOf`, `substring`, `insert` and `deleteCharAt`. The operand of `x+` and `x?` differs, because Java takes only the low surrogate. The number of symbols `accepts` reads differs, because `.` needs two reads in Java. The default alphabet and the operators are ASCII, so ordinary patterns and words are unaffected.
- Unbalanced parentheses: in `evaluateParentheses` they unbox a null `peek()` and throw. The model returns `Err(NullPointer)` for that case.
- PatternProcessing.PatternProcessor.ReplaceShorthands: the number of expansions is bounded by the pattern's length, and past that bound the result is `Err(OutOfFuel)`. The source has no bound. Its rescanning loop is not proved to end in general, because range expansion can insert shorthand characters and `x[m,]` and `x+` copy text that is scanned again.
- PatternProcessing.Between: a range `a-b` whose characters span the UTF-16 surrogate block gives `Err(UnrepresentableChar)`, because a Dafny `char` cannot hold a surrogate. Java would insert the surrogates.
- Decimal.ParseInt: reads an optional sign and ASCII digits within the 32-bit range. `parseInt`'s other digit scripts and radixes are not modelled.
- Hashing.HashTable.constructor: requires a capacity above 0. With capacity 0, Java creates the table and then throws on the first `put`, through `% 0`.
- Capacity: capacities and counts are unbounded integers, so the 32-bit overflow of doubling a huge table is not modelled. The load-factor test `numOfElements / capacity > 0.7` on doubles is the integer test `10 * numOfElements > 7 * capacity`. Hashing.LoadFactorTest proves the two agree over exact reals; the rounding of the double quotient is not modelled.
- Hash codes: `hashCode()` of keys is the parameter `hash`. `Integer.hashCode`, the 31-multiply combinations and `HashTable.hashCode`/`equals`, which hash only the first 150 cells, are not modelled.
- Hashing.HashTable.PutAll: the argument must be another table. `putAll` of a table into itself is not modelled. Relinking the argument's nodes into this table, which corrupts the argument in the source, is modelled as copying the pairs.
- Maps.OwnMap.Copy: in the source the copy shares its collision-list objects with the original, and later edits of one show in the other. In the model each table owns its cells as values.
- `setNumOfElements`, `setTable` and `OwnSet.copy`: `OwnMap.copy` calls them, but no file of the program defines them (neither `domain/HashTable.java` nor `utils/structures/OwnMap.java`). The model gives them the evident meaning: set the count, set the array, copy the set.
- Collision lists: `HashTable`, `OwnSet` and `SetIterator` use `domain.OwnLinkedList` and `domain.PairNode`. These behave as `utils.structures.OwnLinkedList` does, apart from its `size` field and `equals`, and one model covers both.
- Base class of `OwnMap`: `utils/structures/OwnMap.java:10` extends `HashTable` without an import, so its base class is `utils.structures.HashTable`, which is not part of this model. The model puts `domain.HashTable` (Hashing.HashTable) in its place.
- Inheritance: `OwnSet` and `OwnMap` extend `HashTable` in Java. The model holds the table in a field.
- Getters: getters that only return a field or read it directly have no contract of their own, for example `getAlphabet`, `getLowestAvailableId`, and `OwnStringBuilder`'s `length`, `charAt` and `toString` (StringBuilder.OwnStringBuilder.Length, .CharAt and .ToString, OwnStringBuilder.java:74-124).
- `State.java`: `domain/State.java` holds only an id and defines no `getNextStatesForSymbol`, which `domain/NFA.java:217` and `:284` call. The successor sets that NFA.java reads live in the automaton's edge map. Wildcard edges are a separate set that every symbol other than `#` follows. This is an assumption, because no file of the program defines how a state follows its edges.
- Shared states: in the source, automata on the stack share `State` objects whose successor sets later operations extend in place. Cached NFAs and cached complements are also shared objects. The model keeps one edge map per `generateNFA` call and merges a complement's states into it.
- DFAConstruction.DFAGenerator.GenerateComplementDFA: promises that the input NFA is unchanged when the subset construction runs. DFAGenerator.java:150 closes a state's own successor set in place under moves that read nothing. That adds edges to the input but does not change its language.
- Set equality: both generators import `utils.structures.OwnSet`, which is not part of this model; only `domain.OwnSet` is. `domain.OwnSet.equals` compares collision lists by reference, through `domain.OwnLinkedList`, which has no `equals`. `utils.structures.OwnLinkedList.equals` compares by value. The model assumes one equality per map, as follows.
- Set equality in the subset map `bySet` (DFAGenerator.java:157-164): value equality, so equal subsets give one subset state and the worklist ends.
- Set equality in `NFA.cache` (NFA.java:210, 223): value equality, so a step stored under `currentStates.copy()` is found again.
- Set equality in the complement cache of `DFAGenerator` (DFAGenerator.java:96): reference equality of the accepting sets, through `NFA.equals` and NFA.hashCode. `evaluateComplement` passes a new NFA object each time. So its lookup hits only when the operand accepts nothing and a cached key also accepts nothing, with the same flags and start.
- Complement cache: under value equality it would behave differently. Ids restart at 0 on every `generateNFA` call (NFAGenerator.java:108). Then `!b` compiled in a later call would hit the cached complement of `!a`, because both leaves are states 0 and 1 with accepting set {1}.
- Complement cache: correctness is proved for the fresh construction only; a hit returns the stored entry.
- NFAModel.NFA.Equals: two NFA objects are equal when their accepting sets are one object or both empty. In Java two distinct NFA objects that share one OwnSet, such as a concatenation and its second operand (NFAGenerator.java:285-291), are also equal. Two empty OwnSets are unequal when a removal left an emptied collision list in the same cell of both. Neither case reaches the complement cache, since its operands are new objects over states that do not carry removals.
- NFAModel.NFA.Equals: an identity-hash collision between non-empty cells, where `OwnSet.equals` would throw a NullPointerException on a null cell, and tables of different capacities, where it would index out of range, are not modelled.
- NFAGeneration.EmptyAutomaton: `new NFA()` in Java starts at a State(0) object of its own without transitions. The model reuses id 0 of the shared edge map, where the first leaf's edges may start. Without accepting states the language is empty either way. A complement of it may hand out more subset-state ids than Java's.
- Order: the symbols the worklist iterates and the subset state taken off the worklist are chosen arbitrarily, where Java uses hash order. Only the ids of the subset states depend on that order.
- NFAGeneration.Starred: builds the corrected star, which is not flagged as a DFA. Java's `evaluateKleeneStar` keeps the operand's DFA flag (see Findings).
- NFAGeneration.NFAGenerator.StarFragmentOf: returns the corrected star, with its DFA flag cleared. Java keeps the popped automaton's flag.
- NFAGeneration.NFAGenerator.EvaluateKleeneStar: pushes the corrected star, so the star of a complement is not flagged as a DFA as it is in Java. A later `!` then runs the subset construction where Java only flips `inverted`.
- NFAGeneration.NFAGenerator.Build: uses the corrected star, so for a pattern such as `!((!a)*)` its result differs from Java's: the model's complement rejects the empty word and Java's accepts it.
- NFAGeneration.NFAGenerator.GenerateNFA: uses the corrected star, as Build does, so patterns that complement a starred complement differ from Java's as the Findings table shows.
- NFAGeneration.NFAGenerator.GenerateNFA: is tied to the specification function `Compiled` only for normalised patterns without `!`. With `!`, it and `Build` promise a valid NFA and agree step by step through `EvaluateComplement`, whose contract states the complement's language.
- Test cases: the examples prove the `NFAGeneratorTest` cases for `a*`, `a|b`, `ab*` and `(ab)*`. The cases for the empty pattern, single characters, `ac` and `aa`, `(ab)` and `(((abc)))`, the cache, the complex expressions and the escapes are not proved for the compiled pattern; SymbolLeafExactly states the single-character case for one leaf. There is no language theorem for whole patterns, because the operations' soundness lemmas give one direction only.
- NFAGeneration.NFAGenerator.constructor: the earlier revision `utils/NFAGenerator.java` is given the current `DFAConstruction.DFAGenerator` and the `utils.structures` containers. The classes it names are missing or empty in the source: `new DFAGenerator(-1)` (line 83) and `generateComplementDFA` (line 178) resolve to `utils.DFAGenerator`, which has only a constructor without arguments and no methods, and `domain.OwnMap` and `domain.OwnStack` do not exist. So `!` in that revision has no behaviour of its own in the source.
- Test API: `NFAGeneratorTest` and `DFAGeneratorTest` call constructors and overloads that neither generator (`utils/generators/NFAGenerator.java`, `utils/NFAGenerator.java`) has, such as `NFAGenerator(alphabet)` and `generateComplementDFA(nfa, alphabet)`. For patterns of letters, both revisions build the same automata.
- `removeUnnecessaryNegations`: it is modelled and proved, but `elongateRegularExpression` does not call it, as in the source.
- Entry points: the console UI, file loading and `RegexParser.main` are not modelled. Neither are `AutomatonTools`, the empty `utils.DFAGenerator`, `Constants`, `TransitionTable` or `domain.OwnHashMap`.

## Findings

| source | as written | input that shows it | evidently intended | confidence | as-written member | corrected member |
|---|---|---|---|---|---|---|
| regex_parser/src/main/java/utils/generators/NFAGenerator.java:220-238 | `evaluateKleeneStar` reuses the popped NFA object and keeps its DFA flag. The star of a complement is then still flagged as a DFA, although its new start and finish moves read nothing and it no longer is one. | `!((!a)*)`: the outer `!` takes the DFA fast path and only flips `inverted`, so the automaton still accepts the empty word, which `(!a)*` also accepts. | A starred automaton is no DFA, so `!` runs the subset construction. The complement then rejects the empty word. | not executed | NFAGeneration.NegatedStarAsWritten | NFAGeneration.NegatedStarCorrected |
