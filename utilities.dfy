/**
 * The fixed character sets of Utilities.java: the alphabet, the shorthand
 * symbols and the basic operations.
 */
module Utilities {

  /** The characters with codes lo, lo + 1, ..., hi, in that order (one for-loop of defaultAlphabet). */
  function CharsFrom(lo: char, hi: char): (r: seq<char>)
    requires hi as int < 0xD800
    ensures |r| == if lo <= hi then hi as int - lo as int + 1 else 0
    ensures forall k :: 0 <= k < |r| ==> r[k] as int == lo as int + k
    decreases hi as int - lo as int
  {
    if lo > hi then [] else if lo == hi then [lo] else [lo] + CharsFrom((lo as int + 1) as char, hi)
  }

  /** The order in which defaultAlphabet adds its characters. */
  const AlphabetOrder: seq<char> := CharsFrom('A', 'Z') + CharsFrom('a', 'z') + CharsFrom('0', '9')

  /** defaultAlphabet: letters and digits (AlphabetMembership: exactly what the three loops add). */
  const DefaultAlphabet: set<char> := set c: char | IsAlphanumeric(c)

  /** defaultShorthands: the symbols PatternProcessor rewrites away. */
  const DefaultShorthands: set<char> := {'?', '+', '[', ']', '-', ','}

  /** defaultBasicOperations. */
  const DefaultBasicOperations: set<char> := {'*', '|', '&', '(', ')', '!'}

  predicate IsAlphanumeric(c: char)
  {
    'A' <= c <= 'Z' || 'a' <= c <= 'z' || '0' <= c <= '9'
  }

  lemma CharsFromMembership(lo: char, hi: char, c: char)
    requires hi as int < 0xD800
    ensures c in CharsFrom(lo, hi) <==> lo <= c <= hi
  {
    var r := CharsFrom(lo, hi);
    if lo <= c <= hi {
      assert r[c as int - lo as int] == c;
    }
  }

  /** defaultAlphabet holds exactly the characters its three loops add: A-Z, a-z and 0-9. */
  lemma AlphabetMembership(c: char)
    ensures c in DefaultAlphabet <==> c in AlphabetOrder
    ensures c in DefaultAlphabet <==> IsAlphanumeric(c)
  {
    CharsFromMembership('A', 'Z', c);
    CharsFromMembership('a', 'z', c);
    CharsFromMembership('0', '9', c);
  }

  predicate Distinct(s: seq<char>)
  {
    forall i, j :: 0 <= i < j < |s| ==> s[i] != s[j]
  }

  lemma {:induction false} DistinctCardinality(s: seq<char>)
    requires Distinct(s)
    ensures |set c | c in s| == |s|
  {
    if s != [] {
      var rest := s[1..];
      DistinctCardinality(rest);
      assert (set c | c in s) == {s[0]} + (set c | c in rest);
      assert s[0] !in (set c | c in rest);
    }
  }

  /** defaultAlphabet has 62 characters. */
  lemma AlphabetSize()
    ensures |DefaultAlphabet| == 62
  {
    var s := AlphabetOrder;
    assert |s| == 62;
    forall i, j | 0 <= i < j < |s| ensures s[i] != s[j] {
      if i < 26 && j >= 26 {
        assert s[i] <= 'Z' < 'a' <= s[j] || s[j] <= '9';
      }
    }
    DistinctCardinality(s);
    forall c ensures c in DefaultAlphabet <==> c in s {
      AlphabetMembership(c);
    }
    assert DefaultAlphabet == set c | c in s;
  }

  /** The three default sets are pairwise disjoint and none holds '#', '.' or '/'. */
  lemma DefaultSetsSeparate()
    ensures DefaultAlphabet !! DefaultShorthands
    ensures DefaultAlphabet !! DefaultBasicOperations
    ensures DefaultShorthands !! DefaultBasicOperations
    ensures forall c :: c in {'#', '.', '/'} ==>
      c !in DefaultAlphabet && c !in DefaultShorthands && c !in DefaultBasicOperations
  {
    forall c | c in DefaultAlphabet ensures c !in DefaultShorthands && c !in DefaultBasicOperations {
      AlphabetMembership(c);
    }
  }
}
