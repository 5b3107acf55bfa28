/**
 * The java.lang.String operations PatternProcessor.replaceRepetitions relies
 * on: `trim()` and `split(",", -1)`.
 */
module JavaString {

  /** `trim()` removes every character whose code is at most that of the space. */
  predicate IsBlank(c: char) { c <= ' ' }

  function TrimLeading(s: string): (r: string)
    ensures |r| <= |s| && r == s[|s| - |r|..]
    ensures r == [] || !IsBlank(r[0])
    ensures forall k :: 0 <= k < |s| - |r| ==> IsBlank(s[k])
  {
    if s != [] && IsBlank(s[0]) then TrimLeading(s[1..]) else s
  }

  function TrimTrailing(s: string): (r: string)
    ensures |r| <= |s| && r == s[..|r|]
    ensures r == [] || !IsBlank(r[|r| - 1])
    ensures forall k :: |r| <= k < |s| ==> IsBlank(s[k])
  {
    if s != [] && IsBlank(s[|s| - 1]) then TrimTrailing(s[..|s| - 1]) else s
  }

  /** String.trim: the text between the blanks at both ends. */
  function Trim(s: string): string
  {
    TrimTrailing(TrimLeading(s))
  }

  /** The parts joined back with the separator between them. */
  function Join(parts: seq<string>, sep: char): string
  {
    if parts == [] then ""
    else if |parts| == 1 then parts[0]
    else parts[0] + [sep] + Join(parts[1..], sep)
  }

  /**
   * `split(sep, -1)` with a one-character separator that is not special in
   * a regular expression: every part, trailing empty parts included.
   */
  function Split(s: string, sep: char): (parts: seq<string>)
    ensures |parts| >= 1
  {
    if s == [] then [""]
    else
      var rest := Split(s[1..], sep);
      if s[0] == sep then [""] + rest else [[s[0]] + rest[0]] + rest[1..]
  }

  function Count(s: string, c: char): nat
  {
    if s == [] then 0 else (if s[0] == c then 1 else 0) + Count(s[1..], c)
  }

  /** Joining the parts gives back the string, and no part holds the separator. */
  lemma {:induction false} SplitJoin(s: string, sep: char)
    ensures Join(Split(s, sep), sep) == s
    ensures forall k :: 0 <= k < |Split(s, sep)| ==> sep !in Split(s, sep)[k]
    ensures |Split(s, sep)| == Count(s, sep) + 1
  {
    if s != [] {
      var rest := Split(s[1..], sep);
      SplitJoin(s[1..], sep);
      var parts := Split(s, sep);
      if s[0] == sep {
        assert parts[1..] == rest;
        assert s == [sep] + s[1..];
      } else {
        assert parts[1..] == rest[1..];
        if |rest| > 1 {
          assert rest == [rest[0]] + rest[1..];
          assert Join(rest, sep) == rest[0] + [sep] + Join(rest[1..], sep);
          assert s == [s[0]] + s[1..];
        } else {
          assert s == [s[0]] + rest[0];
        }
        forall k | 0 <= k < |parts| ensures sep !in parts[k] {
          if k > 0 {
            assert parts[k] == rest[k];
          } else {
            assert sep !in rest[0];
          }
        }
      }
    }
  }

  /** Two one-character parts around the separator. */
  lemma SplitPair(a: char, b: char, sep: char)
    requires a != sep && b != sep
    ensures Split([a, sep, b], sep) == [[a], [b]]
  {
    assert [b][1..] == [] && [b] + [] == [b];
    assert Split([b], sep) == [[b] + Split([], sep)[0]] + Split([], sep)[1..];
    assert [sep, b][1..] == [b];
    assert Split([sep, b], sep) == [[], [b]];
    assert [a, sep, b][1..] == [sep, b] && [a] + [] == [a];
  }

  /** A character that is not blank is its own trimmed text. */
  lemma TrimSingle(c: char)
    requires !IsBlank(c)
    ensures Trim([c]) == [c]
  {
  }

  lemma SplitExamples()
    ensures Split("2,3", ',') == ["2", "3"]
    ensures Split(",", ',') == ["", ""]
    ensures Split("5", ',') == ["5"]
    ensures Trim(" 4 ") == "4"
  {
    assert "3"[1..] == "";
    assert ['3'] + "" == "3" && ['2'] + "" == "2" && ['5'] + "" == "5";
    assert Split("3", ',') == ["3"];
    assert ",3"[1..] == "3";
    assert Split(",3", ',') == ["", "3"];
    assert "2,3"[1..] == ",3";
    assert Split("2,3", ',') == ["2"] + ["3"];
    assert ","[1..] == "";
    assert "5"[1..] == "";

    assert " 4 "[1..] == "4 " && "4 "[..1] == "4";
  }
}
