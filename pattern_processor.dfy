/**
 * PatternProcessor.java: rewrites a human-written pattern into the form the
 * NFA generators read. Shorthands (`+`, `?`, `a-b`, `x[m,n]`) become basic
 * operators, then `&` is written out wherever concatenation is implied.
 *
 * The editing methods work on a string builder in place, as the source does;
 * each is specified by a function on strings (the `Rewrite` it produces), and
 * the properties of the rewriting are lemmas about those functions.
 */
module PatternProcessing {
  import opened Wrappers
  import opened StringBuilder
  import opened Stack
  import Decimal
  import JavaString
  import Utilities

  // ---------------------------------------------------------------------------
  // determineAffectedPart: the operand a shorthand applies to
  // ---------------------------------------------------------------------------

  /** What one character adds to the count of unmatched closing parentheses. */
  function Delta(c: char): int
  {
    if c == ')' then 1 else if c == '(' then -1 else 0
  }

  /** Closing minus opening parentheses: the size the backward scan's stack would have. */
  function Depth(s: string): int
  {
    if s == [] then 0 else Delta(s[0]) + Depth(s[1..])
  }

  /** The depth of the stretch of p from j up to and including idx. */
  function SuffixDepth(p: string, j: int, idx: int): int
    requires 0 <= j <= idx + 1 <= |p|
  {
    Depth(p[j..idx + 1])
  }

  /**
   * Scanning down from k, the first start j of a balanced suffix p[j..idx+1];
   * every suffix passed over so far has more closing than opening parentheses.
   */
  function BalancedStart(p: string, idx: int, k: int): (r: Option<int>)
    requires 0 <= idx < |p| && p[idx] == ')' && -1 <= k <= idx
    requires forall j :: k < j <= idx ==> SuffixDepth(p, j, idx) > 0
    ensures r.Some? ==> 0 <= r.value <= k && Depth(p[r.value..idx + 1]) == 0
    ensures r.Some? ==> forall j :: r.value < j <= idx ==> SuffixDepth(p, j, idx) > 0
    ensures r.None? ==> forall j :: 0 <= j <= idx ==> SuffixDepth(p, j, idx) > 0
    decreases k + 1
  {
    if k < 0 then None
    else if Depth(p[k..idx + 1]) == 0 then Some(k)
    else
      assert Depth(p[k..idx + 1]) > 0 by {
        assert p[k..idx + 1][1..] == p[k + 1..idx + 1];
        if k < idx {
          assert SuffixDepth(p, k + 1, idx) > 0;
        }
      }
      BalancedStart(p, idx, k - 1)
  }

  /**
   * The operand ending at idx: the character itself, or, for `)`, the
   * shortest balanced stretch ending there. Reading before the start of the
   * pattern is the StringIndexOutOfBoundsException of `charAt`.
   */
  function AffectedPart(p: string, idx: int): (r: Result<string>)
    ensures r.Ok? ==> 0 <= idx < |p| && 1 <= |r.value| <= idx + 1 && r.value == p[idx + 1 - |r.value|..idx + 1]
    ensures 0 <= idx < |p| && p[idx] != ')' ==> r == Ok([p[idx]])
    ensures r.Ok? && 0 <= idx < |p| && p[idx] == ')' ==>
      Depth(r.value) == 0 && forall j :: idx + 1 - |r.value| < j <= idx ==> SuffixDepth(p, j, idx) > 0
    ensures r.Err? <==> !(0 <= idx < |p|) || (p[idx] == ')' && forall j :: 0 <= j <= idx ==> SuffixDepth(p, j, idx) > 0)
  {
    if idx < 0 || idx >= |p| then Err(IndexOutOfBounds)
    else if p[idx] != ')' then Ok([p[idx]])
    else
      match BalancedStart(p, idx, idx)
      case None => Err(IndexOutOfBounds)
      case Some(k) =>
        assert SuffixDepth(p, k, idx) == 0;
        Ok(p[k..idx + 1])
  }

  /** A parenthesised operand opens with the parenthesis that balances the one it ends with. */
  lemma AffectedPartOpens(p: string, idx: int)
    requires 0 <= idx < |p| && p[idx] == ')' && AffectedPart(p, idx).Ok?
    ensures AffectedPart(p, idx).value[0] == '('
    ensures |AffectedPart(p, idx).value| >= 2
  {
    var x := AffectedPart(p, idx).value;
    var k := idx + 1 - |x|;
    assert p[idx..idx + 1] == [')'];
    assert Depth(p[idx..idx + 1]) == 1;
    assert k < idx;
    assert x[1..] == p[k + 1..idx + 1];
    assert SuffixDepth(p, k + 1, idx) > 0;
  }

  // ---------------------------------------------------------------------------
  // The shorthand rewrites, as functions on the pattern text
  // ---------------------------------------------------------------------------

  /** The text after one rewrite, and the index the rewriting method returns. */
  datatype Rewrite = Rewrite(text: string, next: nat)

  /** `|hi|hi-1|...|lo`: a bar before each character code from hi down to lo. */
  function RangeBars(lo: int, hi: int): (r: string)
    requires 0 <= lo && hi < 0x11_0000 && (hi < 0xD800 || 0xDFFF < lo)
    ensures |r| == if lo <= hi then 2 * (hi - lo + 1) else 0
    decreases hi - lo
  {
    if hi < lo then "" else "|" + [hi as char] + RangeBars(lo, hi - 1)
  }

  /**
   * replaceBetween at index i of `first-last`: the union of every character
   * from last down to first, in parentheses. When first > last the loop adds
   * nothing and the `deleteCharAt` takes the closing parenthesis instead.
   */
  function Between(s: string, i: int): (r: Result<Rewrite>)
    requires 0 <= i < |s|
    ensures r.Ok? ==> r.value.next == i
  {
    if i < 1 || i + 1 >= |s| then Err(IndexOutOfBounds)
    else
      var first, last := s[i - 1], s[i + 1];
      if first as int < 0xD800 && 0xDFFF < last as int then Err(UnrepresentableChar)
      else
        var body := if first <= last then RangeBars(first as int, last as int)[1..] + ")" else "";
        Ok(Rewrite(s[..i - 1] + "(" + body + s[i + 2..], i))
  }

  /** x repeated n times (no times when n is not positive). */
  function Repeat(x: string, n: int): string
    decreases n
  {
    if n <= 0 then "" else Repeat(x, n - 1) + x
  }

  /** One alternative of `[m,n]`: x repeated len times, the empty word written `#`. */
  function Alternative(x: string, len: int): string
  {
    if len == 0 then "#" else Repeat(x, len)
  }

  /** A bar before each alternative, from hi repetitions down to lo. */
  function Alternatives(x: string, lo: int, hi: int): (r: string)
    ensures lo <= hi ==> |r| > 0 && r[0] == '|'
    decreases hi - lo
  {
    if hi < lo then "" else "|" + Alternative(x, hi) + Alternatives(x, lo, hi - 1)
  }

  /** x repeated once more, the new copy written in front. */
  lemma {:induction false} RepeatFront(x: string, n: int)
    requires n >= 0
    ensures x + Repeat(x, n) == Repeat(x, n + 1)
    decreases n
  {
    if n > 0 {
      RepeatFront(x, n - 1);
      assert x + Repeat(x, n) == (x + Repeat(x, n - 1)) + x;
    }
  }

  lemma {:induction false} RepeatLength(x: string, n: int)
    requires n >= 0
    ensures |Repeat(x, n)| == n * |x|
    decreases n
  {
    if n > 0 {
      RepeatLength(x, n - 1);
    }
  }

  /** The bars and the characters alternate, the codes falling from hi to lo. */
  lemma {:induction false} RangeBarsAt(lo: int, hi: int)
    requires 0 <= lo && hi < 0x11_0000 && (hi < 0xD800 || 0xDFFF < lo)
    ensures forall k :: 0 <= k <= hi - lo ==>
      RangeBars(lo, hi)[2 * k] == '|' && RangeBars(lo, hi)[2 * k + 1] as int == hi - k
    decreases hi - lo
  {
    if lo <= hi {
      RangeBarsAt(lo, hi - 1);
      var r, rest := RangeBars(lo, hi), RangeBars(lo, hi - 1);
      assert r == "|" + [hi as char] + rest;
      forall k | 0 <= k <= hi - lo
        ensures r[2 * k] == '|' && r[2 * k + 1] as int == hi - k
      {
        if k > 0 {
          assert r[2 * k] == rest[2 * (k - 1)];
          assert r[2 * k + 1] == rest[2 * (k - 1) + 1];
        }
      }
    }
  }

  /** One bound of `[m,n]`: empty means 0 for the minimum and -1 for the maximum. */
  function Bound(part: string, j: int): (r: Result<int>)
    ensures part == [] ==> r == Ok(-j)
    ensures r.Ok? ==> part == [] || Decimal.IsJavaInt(r.value)
  {
    if part == [] then Ok(-j) else Decimal.ParseInt(JavaString.Trim(part))
  }

  /**
   * The two bounds of `[m,n]`, read in the order of the source's for-loop:
   * a bad minimum is reported before a missing second part.
   */
  function Bounds(parts: seq<string>): (r: Result<(int, int)>)
    requires |parts| >= 1
    ensures r.Ok? ==> |parts| >= 2 && Bound(parts[0], 0) == Ok(r.value.0) && Bound(parts[1], 1) == Ok(r.value.1)
  {
    var min := Bound(parts[0], 0);
    if min.Err? then Err(min.error)
    else if |parts| < 2 then Err(IndexOutOfBounds)
    else
      var max := Bound(parts[1], 1);
      if max.Err? then Err(max.error) else Ok((min.value, max.value))
  }

  /**
   * The index of the `]` that closes `[m,n]` at i, and the two bounds. A
   * missing `]` is the exception of `substring`, a bad bound that of
   * `parseInt`, and a single part that of the array access.
   */
  function RepetitionBounds(s: string, i: int): (r: Result<(int, int, int)>)
    requires 0 <= i < |s|
    ensures r.Ok? ==> i < r.value.0 < |s| && s[r.value.0] == ']'
  {
    var closing := IndexOfFrom(s, "]", i);
    if closing < i + 1 then Err(IndexOutOfBounds)
    else
      assert s[closing..closing + 1][0] == s[closing];
      match Bounds(JavaString.Split(s[i + 1..closing], ','))
      case Err(e) => Err(e)
      case Ok((min, max)) => Ok((closing, min, max))
  }

  /** What replaces `x[m,n]` after the opening parenthesis; a maximum of -1 means no upper bound. */
  function RepetitionBody(x: string, min: int, max: int): string
  {
    if max == -1 then Repeat(x, min) + x + "*)"
    else if min <= max then Alternatives(x, min, max)[1..] + ")"
    else ""
  }

  /** replaceRepetitions at index i of `x[m,n]`, where x ends just before i. */
  function Repetitions(s: string, i: int, x: string): (r: Result<Rewrite>)
    requires |x| <= i < |s|
    ensures r.Ok? ==> r.value.next == i - |x| + 1
  {
    match RepetitionBounds(s, i)
    case Err(e) => Err(e)
    case Ok((closing, min, max)) =>
      Ok(Rewrite(s[..i - |x|] + "(" + RepetitionBody(x, min, max) + s[closing + 1..], i - |x| + 1))
  }

  /** replacePlus: `x+` becomes `(xx*)`, and the scan goes on inside the second copy of x. */
  function Plus(s: string, i: int, x: string): Rewrite
    requires |x| <= i < |s|
  {
    Rewrite(s[..i - |x|] + "(" + x + x + "*)" + s[i + 1..], i + 1)
  }

  /** replaceQuestionmark: `x?` becomes `(x|#)`. */
  function Optional(s: string, i: int, x: string): Rewrite
    requires |x| <= i < |s|
  {
    Rewrite(s[..i - |x|] + "(" + x + "|#)" + s[i + 1..], i + 1)
  }

  /** The shorthands that rewrite the text; the other shorthand symbols are passed over. */
  predicate Expands(c: char)
  {
    c == '+' || c == '?' || c == '-' || c == '['
  }

  /** The rewrite of one expanding shorthand at index i, with operand x. */
  function Expand(s: string, i: int, x: string): Result<Rewrite>
    requires |x| <= i < |s| && Expands(s[i])
  {
    if s[i] == '+' then Ok(Plus(s, i, x))
    else if s[i] == '?' then Ok(Optional(s, i, x))
    else if s[i] == '-' then Between(s, i)
    else Repetitions(s, i, x)
  }

  /**
   * One pass of the loop of replaceShorthands at index i: the text, the
   * index and the remaining number of rewrites to go on with, or the
   * exception that ends the scan. Each shorthand symbol looks up its operand
   * (failing as `charAt(-1)` does at the start); the expanding ones rewrite
   * the text, and the scan goes on after the index they return.
   */
  function ScanStep(sh: set<char>, s: string, i: nat, fuel: nat): (r: Result<(string, nat, nat)>)
    requires i < |s|
    ensures r.Ok? ==> r.value.2 < fuel || (r.value == (s, i + 1, fuel))
  {
    if s[i] !in sh then Ok((s, i + 1, fuel))
    else
      match AffectedPart(s, i - 1)
      case Err(e) => Err(e)
      case Ok(x) =>
        if !Expands(s[i]) then Ok((s, i + 1, fuel))
        else if fuel == 0 then Err(OutOfFuel)
        else
          match Expand(s, i, x)
          case Err(e) => Err(e)
          case Ok(rw) => Ok((rw.text, rw.next + 1, fuel - 1))
  }

  /** replaceShorthands from index i, with at most `fuel` rewrites. */
  function Scan(sh: set<char>, s: string, i: nat, fuel: nat): Result<string>
    decreases fuel, |s| - i
  {
    if i >= |s| then Ok(s)
    else
      match ScanStep(sh, s, i, fuel)
      case Err(e) => Err(e)
      case Ok((t, j, f)) => Scan(sh, t, j, f)
  }

  /** Text from i on without shorthand symbols comes through unchanged. */
  lemma {:induction false} ScanPlain(sh: set<char>, s: string, i: nat, fuel: nat)
    requires forall k :: i <= k < |s| ==> s[k] !in sh
    ensures Scan(sh, s, i, fuel) == Ok(s)
    decreases |s| - i
  {
    if i < |s| {
      ScanPlain(sh, s, i + 1, fuel);
    }
  }

  // ---------------------------------------------------------------------------
  // addConcatenationSymbols
  // ---------------------------------------------------------------------------

  /** The nine pairs between which concatenation is implied, as the source lists them. */
  function NeedsConcatenation(A: set<char>, c1: char, c2: char): (r: bool)
    ensures r <==> (c1 in A || c1 == '*' || c1 == ')') && (c2 in A || c2 == '(' || c2 == '!')
  {
    || (c1 in A && c2 in A)
    || (c1 in A && c2 == '(')
    || (c1 == '*' && c2 in A)
    || (c1 == '*' && c2 == '(')
    || (c1 == ')' && c2 == '(')
    || (c1 == ')' && c2 in A)
    || (c1 == ')' && c2 == '!')
    || (c1 == '*' && c2 == '!')
    || (c1 in A && c2 == '!')
  }

  /** The pattern with `&` inserted between every pair that needs it. */
  function WithConcatenation(A: set<char>, s: string): (r: string)
    ensures |r| >= |s|
    ensures s != [] ==> r != [] && r[0] == s[0]
    decreases |s|
  {
    if |s| < 2 then s
    else if NeedsConcatenation(A, s[0], s[1]) then [s[0], '&'] + WithConcatenation(A, s[1..])
    else [s[0]] + WithConcatenation(A, s[1..])
  }

  /** s with every c deleted. */
  function Without(s: string, c: char): (r: string)
    ensures c !in r && |r| <= |s|
  {
    if s == [] then [] else (if s[0] == c then [] else [s[0]]) + Without(s[1..], c)
  }

  lemma {:induction false} WithoutAppend(a: string, b: string, c: char)
    ensures Without(a + b, c) == Without(a, c) + Without(b, c)
    decreases |a|
  {
    if a == [] {
      assert a + b == b;
    } else {
      var h := if a[0] == c then [] else [a[0]];
      assert (a + b)[0] == a[0] && (a + b)[1..] == a[1..] + b;
      WithoutAppend(a[1..], b, c);
      assert Without(a + b, c) == h + Without(a[1..] + b, c);
    }
  }

  lemma {:induction false} WithoutAbsent(s: string, c: char)
    requires c !in s
    ensures Without(s, c) == s
    decreases |s|
  {
    if s != [] {
      WithoutAbsent(s[1..], c);
    }
  }

  /** Deleting the `&`s of the result leaves what deleting them from the input leaves. */
  lemma {:induction false} ConcatenationOnlyInserts(A: set<char>, s: string)
    ensures Without(WithConcatenation(A, s), '&') == Without(s, '&')
    decreases |s|
  {
    if |s| >= 2 {
      var rest := WithConcatenation(A, s[1..]);
      ConcatenationOnlyInserts(A, s[1..]);
      assert s == [s[0]] + s[1..];
      WithoutAppend([s[0]], s[1..], '&');
      if NeedsConcatenation(A, s[0], s[1]) {
        WithoutAppend([s[0], '&'], rest, '&');
        assert [s[0], '&'][1..] == ['&'];
        assert Without([s[0], '&'], '&') == Without([s[0]], '&');
      } else {
        WithoutAppend([s[0]], rest, '&');
      }
    }
  }

  /** On a pattern without `&`, deleting the inserted symbols restores it. */
  lemma ConcatenationRestores(A: set<char>, s: string)
    requires '&' !in s
    ensures Without(WithConcatenation(A, s), '&') == s
  {
    ConcatenationOnlyInserts(A, s);
    WithoutAbsent(s, '&');
  }

  /** No adjacent pair is left that needs a concatenation symbol. */
  predicate FullyConcatenated(A: set<char>, s: string)
  {
    forall k :: 0 <= k < |s| - 1 ==> !NeedsConcatenation(A, s[k], s[k + 1])
  }

  lemma {:induction false} ConcatenationComplete(A: set<char>, s: string)
    requires '&' !in A
    ensures FullyConcatenated(A, WithConcatenation(A, s))
    decreases |s|
  {
    if |s| >= 2 {
      var r, rest := WithConcatenation(A, s), WithConcatenation(A, s[1..]);
      ConcatenationComplete(A, s[1..]);
      var d := if NeedsConcatenation(A, s[0], s[1]) then 2 else 1;
      assert r[d..] == rest;
      forall k | 0 <= k < |r| - 1 ensures !NeedsConcatenation(A, r[k], r[k + 1]) {
        if k >= d {
          assert r[k] == rest[k - d] && r[k + 1] == rest[k - d + 1];
        }
      }
    }
  }

  /** Every `&` of r sits strictly inside r, between two characters that need it. */
  predicate AmpersandsPlaced(A: set<char>, r: string)
  {
    forall k :: 0 <= k < |r| && r[k] == '&' ==> 0 < k < |r| - 1 && NeedsConcatenation(A, r[k - 1], r[k + 1])
  }

  /**
   * Every `&` of the result sits between two characters of the input that
   * need it, so none follows `(`, `|` or `!` unless the alphabet holds them.
   */
  lemma {:induction false} ConcatenationPlacement(A: set<char>, s: string)
    requires '&' !in s
    ensures AmpersandsPlaced(A, WithConcatenation(A, s))
    decreases |s|
  {
    var r := WithConcatenation(A, s);
    if |s| < 2 {
      assert r == s;
    } else {
      var rest := WithConcatenation(A, s[1..]);
      assert '&' !in s[1..];
      ConcatenationPlacement(A, s[1..]);
      assert AmpersandsPlaced(A, rest);
      var d := if NeedsConcatenation(A, s[0], s[1]) then 2 else 1;
      assert r[d..] == rest && r[0] == s[0];
      assert rest[0] == s[1] && s[1] in s && s[0] in s;
      forall k | 0 <= k < |r| && r[k] == '&'
        ensures 0 < k < |r| - 1 && NeedsConcatenation(A, r[k - 1], r[k + 1])
      {
        if k > d {
          assert rest[k - d] == r[k];
          assert 0 < k - d < |rest| - 1;
          assert r[k - 1] == rest[k - d - 1] && r[k + 1] == rest[k - d + 1];
        } else if d == 2 && k == 1 {
          assert r[2] == rest[0];
        }
      }
    }
  }

  lemma NoConcatenationAfterOpeners(A: set<char>, s: string)
    requires '&' !in s && '(' !in A && '|' !in A && '!' !in A
    ensures var r := WithConcatenation(A, s);
      forall k :: 0 < k < |r| && r[k] == '&' ==> r[k - 1] != '(' && r[k - 1] != '|' && r[k - 1] != '!'
  {
    ConcatenationPlacement(A, s);
  }

  /** A pattern that needs no concatenation symbol is left as it is. */
  lemma {:induction false} FullyConcatenatedFixed(A: set<char>, s: string)
    requires FullyConcatenated(A, s)
    ensures WithConcatenation(A, s) == s
    decreases |s|
  {
    if |s| >= 2 {
      assert FullyConcatenated(A, s[1..]) by {
        forall k | 0 <= k < |s[1..]| - 1 ensures !NeedsConcatenation(A, s[1..][k], s[1..][k + 1]) {
          assert s[1..][k] == s[k + 1] && s[1..][k + 1] == s[k + 2];
        }
      }
      FullyConcatenatedFixed(A, s[1..]);
      assert !NeedsConcatenation(A, s[0], s[1]);
    }
  }

  /** Inserting concatenation symbols a second time changes nothing. */
  lemma ConcatenationIdempotent(A: set<char>, s: string)
    requires '&' !in A
    ensures WithConcatenation(A, WithConcatenation(A, s)) == WithConcatenation(A, s)
  {
    ConcatenationComplete(A, s);
    FullyConcatenatedFixed(A, WithConcatenation(A, s));
  }

  // ---------------------------------------------------------------------------
  // removeUnnecessaryNegations
  // ---------------------------------------------------------------------------

  /** The pattern with each `!!`, taken from the left, deleted. */
  function Collapse(s: string): (r: string)
    ensures |r| <= |s|
    ensures s != [] && s[0] != '!' ==> r != [] && r[0] == s[0]
  {
    if |s| < 2 then s
    else if s[0] == '!' && s[1] == '!' then Collapse(s[2..])
    else [s[0]] + Collapse(s[1..])
  }

  /** k negation symbols. */
  function Negations(k: nat): (r: string)
    ensures |r| == k && forall j :: 0 <= j < k ==> r[j] == '!'
  {
    if k == 0 then "" else "!" + Negations(k - 1)
  }

  /** Only negation symbols are deleted; every other character keeps its place in the order. */
  lemma {:induction false} CollapseDeletesNegationsOnly(s: string)
    ensures Without(Collapse(s), '!') == Without(s, '!')
    decreases |s|
  {
    if |s| >= 2 {
      if s[0] == '!' && s[1] == '!' {
        CollapseDeletesNegationsOnly(s[2..]);
        assert s == ['!', '!'] + s[2..];
        WithoutAppend(['!', '!'], s[2..], '!');
        assert ['!', '!'][1..] == ['!'];
      } else {
        CollapseDeletesNegationsOnly(s[1..]);
        assert s == [s[0]] + s[1..];
        WithoutAppend([s[0]], s[1..], '!');
        WithoutAppend([s[0]], Collapse(s[1..]), '!');
      }
    }
  }

  /** A leading `!!` is deleted. */
  lemma CollapsePair(w: string)
    requires |w| >= 2 && w[0] == '!' && w[1] == '!'
    ensures Collapse(w) == Collapse(w[2..])
  {
  }

  /** A leading character that does not start `!!` is kept. */
  lemma CollapseKeep(w: string)
    requires |w| >= 1 && !(|w| >= 2 && w[0] == '!' && w[1] == '!')
    ensures Collapse(w) == [w[0]] + Collapse(w[1..])
  {
    if |w| == 1 {
      assert w[1..] == [] && w == [w[0]];
    }
  }

  /** A run of k negations not followed by another becomes k mod 2 of them. */
  lemma {:induction false} CollapseRun(k: nat, t: string)
    requires t == [] || t[0] != '!'
    ensures Collapse(Negations(k) + t) == Negations(k % 2) + Collapse(t)
    decreases k
  {
    var w := Negations(k) + t;
    if k >= 2 {
      RunFront(k, t);
      CollapsePair(w);
      CollapseRun(k - 2, t);
      assert (k - 2) % 2 == k % 2;
    } else if k == 1 {
      assert Negations(1) == "!";
      assert w == "!" + t && w[1..] == t;
      CollapseKeep(w);
    } else {
      assert Negations(0) == "";
      assert w == t;
    }
  }

  /** A run of at least two negations starts with a pair, and the rest is the shorter run. */
  lemma RunFront(k: nat, t: string)
    requires k >= 2
    ensures var w := Negations(k) + t; |w| >= 2 && w[0] == '!' && w[1] == '!' && w[2..] == Negations(k - 2) + t
  {
    var w := Negations(k) + t;
    assert Negations(k) == "!" + ("!" + Negations(k - 2));
    assert w == "!!" + (Negations(k - 2) + t);
  }

  /** The pairing never crosses a character other than `!`. */
  lemma {:induction false} CollapseAppend(u: string, v: string)
    requires u == [] || u[|u| - 1] != '!'
    ensures Collapse(u + v) == Collapse(u) + Collapse(v)
    decreases |u|
  {
    if u == [] {
      assert u + v == v;
    } else if |u| >= 2 && u[0] == '!' && u[1] == '!' {
      assert u[2..][|u[2..]| - 1] == u[|u| - 1];
      CollapseAppend(u[2..], v);
      AppendAfterPair(u, v);
    } else {
      assert u[1..] == [] || u[1..][|u[1..]| - 1] == u[|u| - 1];
      CollapseAppend(u[1..], v);
      AppendAfterKeep(u, v);
    }
  }

  lemma AppendAfterPair(u: string, v: string)
    requires |u| >= 2 && u[0] == '!' && u[1] == '!'
    requires Collapse(u[2..] + v) == Collapse(u[2..]) + Collapse(v)
    ensures Collapse(u + v) == Collapse(u) + Collapse(v)
  {
    var w := u + v;
    assert w[0] == '!' && w[1] == '!' && w[2..] == u[2..] + v;
    CollapsePair(w);
    CollapsePair(u);
  }

  lemma AppendAfterKeep(u: string, v: string)
    requires |u| >= 1 && !(|u| >= 2 && u[0] == '!' && u[1] == '!') && (|u| == 1 ==> u[0] != '!')
    requires Collapse(u[1..] + v) == Collapse(u[1..]) + Collapse(v)
    ensures Collapse(u + v) == Collapse(u) + Collapse(v)
  {
    var w := u + v;
    assert w[0] == u[0] && w[1..] == u[1..] + v;
    if |u| >= 2 {
      assert w[1] == u[1];
    }
    CollapseKeep(w);
    CollapseKeep(u);
    AppendAssociates([u[0]], Collapse(u[1..]), Collapse(v));
  }

  lemma AppendAssociates(a: string, b: string, c: string)
    ensures (a + b) + c == a + (b + c)
  {
  }

  /** Each maximal run of k negations inside a pattern becomes k mod 2 of them. */
  lemma MaximalRun(u: string, k: nat, t: string)
    requires u == [] || u[|u| - 1] != '!'
    requires t == [] || t[0] != '!'
    ensures Collapse(u + Negations(k) + t) == Collapse(u) + Negations(k % 2) + Collapse(t)
  {
    assert u + Negations(k) + t == u + (Negations(k) + t);
    CollapseAppend(u, Negations(k) + t);
    CollapseRun(k, t);
  }

  /** No two negation symbols stand next to each other in r. */
  predicate NoAdjacentNegations(r: string)
  {
    forall k :: 0 <= k < |r| - 1 ==> !(r[k] == '!' && r[k + 1] == '!')
  }

  /** No two negation symbols are left next to each other. */
  lemma {:induction false} NoDoubleNegation(s: string)
    ensures NoAdjacentNegations(Collapse(s))
    decreases |s|
  {
    if |s| >= 2 {
      if s[0] == '!' && s[1] == '!' {
        assert Collapse(s) == Collapse(s[2..]);
        NoDoubleNegation(s[2..]);
      } else {
        var r, rest := Collapse(s), Collapse(s[1..]);
        NoDoubleNegation(s[1..]);
        assert NoAdjacentNegations(rest);
        assert r == [s[0]] + rest;
        assert s[1..][0] == s[1];
        forall k | 0 <= k < |r| - 1 ensures !(r[k] == '!' && r[k + 1] == '!') {
          if k > 0 {
            assert r[k] == rest[k - 1] && r[k + 1] == rest[k];
          } else if s[0] == '!' {
            assert r[1] == rest[0] == s[1];
          }
        }
      }
    }
  }

  /** A pattern without adjacent negations is left as it is. */
  lemma {:induction false} CollapseKeepsSingles(s: string)
    requires NoAdjacentNegations(s)
    ensures Collapse(s) == s
    decreases |s|
  {
    if |s| >= 2 {
      assert !(s[0] == '!' && s[1] == '!');
      assert NoAdjacentNegations(s[1..]) by {
        forall k | 0 <= k < |s[1..]| - 1 ensures !(s[1..][k] == '!' && s[1..][k + 1] == '!') {
          assert s[1..][k] == s[k + 1] && s[1..][k + 1] == s[k + 2];
        }
      }
      CollapseKeepsSingles(s[1..]);
      assert s == [s[0]] + s[1..];
    }
  }

  /** Collapsing twice is collapsing once. */
  lemma CollapseIdempotent(s: string)
    ensures Collapse(Collapse(s)) == Collapse(s)
  {
    NoDoubleNegation(s);
    CollapseKeepsSingles(Collapse(s));
  }

  // ---------------------------------------------------------------------------
  // elongateRegularExpression
  // ---------------------------------------------------------------------------

  /**
   * The empty pattern is the empty symbol; any other is expanded and then
   * concatenated. Collapsing negations is not part of it.
   */
  function Elongated(A: set<char>, sh: set<char>, p: string): (r: Result<string>)
    ensures p == [] ==> r == Ok("#")
  {
    if p == [] then Ok("#")
    else
      match Scan(sh, p, 0, |p|)
      case Err(e) => Err(e)
      case Ok(t) => Ok(WithConcatenation(A, t))
  }

  /** Whatever comes out needs no further concatenation symbol. */
  lemma ElongatedComplete(A: set<char>, sh: set<char>, p: string)
    requires '&' !in A && Elongated(A, sh, p).Ok?
    ensures FullyConcatenated(A, Elongated(A, sh, p).value)
  {
    if p != [] {
      ConcatenationComplete(A, Scan(sh, p, 0, |p|).value);
    }
  }

  /** A pattern without shorthands only gains concatenation symbols. */
  lemma ElongatedPlain(A: set<char>, sh: set<char>, p: string)
    requires p != [] && forall k :: 0 <= k < |p| ==> p[k] !in sh
    ensures Elongated(A, sh, p) == Ok(WithConcatenation(A, p))
  {
    ScanPlain(sh, p, 0, |p|);
  }

  // ---------------------------------------------------------------------------
  // The processor: the same operations on a string builder, in place
  // ---------------------------------------------------------------------------

  /** When the backward scan stops at k, the spec finds the same start from m downwards. */
  lemma {:induction false} BalancedStartFinds(p: string, idx: int, k: int, m: int)
    requires 0 <= idx < |p| && p[idx] == ')' && 0 <= k <= m <= idx
    requires SuffixDepth(p, k, idx) == 0
    requires forall j :: k < j <= idx ==> SuffixDepth(p, j, idx) > 0
    ensures BalancedStart(p, idx, m) == Some(k)
    decreases m
  {
    if m > k {
      assert SuffixDepth(p, m, idx) > 0;
      BalancedStartFinds(p, idx, k, m - 1);
    }
  }

  /** The depth of a stretch is its first character's contribution plus the depth of the rest. */
  lemma SuffixDepthStep(p: string, j: int, idx: int)
    requires 0 <= j <= idx < |p|
    ensures SuffixDepth(p, j, idx) == Delta(p[j]) + SuffixDepth(p, j + 1, idx)
  {
    assert p[j..idx + 1][1..] == p[j + 1..idx + 1];
  }

  /** Inserting the next alternative after the opening parenthesis extends the union by one. */
  lemma AlternativeInserted(before: string, after: string, pre: string, post: string, x: string, min: int, len: int)
    requires min <= len
    requires before == pre + "(" + Alternatives(x, min, len - 1) + ")" + post
    requires after == before[..|pre| + 1] + ("|" + Alternative(x, len)) + before[|pre| + 1..]
    ensures after == pre + "(" + Alternatives(x, min, len) + ")" + post
  {
    var older := Alternatives(x, min, len - 1);
    var tail := older + ")" + post;
    assert before == (pre + "(") + tail;
    assert before[..|pre| + 1] == pre + "(";
    assert before[|pre| + 1..] == tail;
    assert Alternatives(x, min, len) == "|" + Alternative(x, len) + older;
  }

  /** Inserting one more copy of x after the opening parenthesis adds one repetition. */
  lemma CopyInserted(before: string, after: string, pre: string, post: string, x: string, j: int)
    requires -1 <= j
    requires before == pre + "(" + (if j < 0 then "*)" else Repeat(x, j) + x + "*)") + post
    requires after == before[..|pre| + 1] + x + before[|pre| + 1..]
    ensures after == pre + "(" + (Repeat(x, j + 1) + x + "*)") + post
  {
    var tail := (if j < 0 then "*)" else Repeat(x, j) + x + "*)") + post;
    assert before == (pre + "(") + tail;
    assert before[..|pre| + 1] == pre + "(";
    assert before[|pre| + 1..] == tail;
    if j >= 0 {
      RepeatFront(x, j);
    }
  }

  /** One pass of replaceShorthands at an expanding shorthand, with fuel left, is its rewrite. */
  lemma ScanStepExpands(sh: set<char>, s: string, i: nat, fuel: nat, x: string)
    requires i < |s| && s[i] in sh && AffectedPart(s, i - 1) == Ok(x) && Expands(s[i]) && fuel > 0
    ensures |x| <= i
    ensures Expand(s, i, x).Err? ==> ScanStep(sh, s, i, fuel) == Err(Expand(s, i, x).error)
    ensures Expand(s, i, x).Ok? ==>
      ScanStep(sh, s, i, fuel) == Ok((Expand(s, i, x).value.text, Expand(s, i, x).value.next + 1, fuel - 1))
  {
  }

  /** The three edits of replacePlus compose to Plus. */
  lemma PlusEdits(s: string, i: nat, x: string)
    requires |x| <= i < |s| && x == s[i - |x|..i]
    ensures var s1 := s[..i] + s[i + 1..];
      var s2 := s1[..i - |x|] + "(" + s1[i - |x|..];
      Rewrite(s2[..i + 1] + (x + "*)") + s2[i + 1..], i + 1) == Plus(s, i, x)
  {
    var pre, post := s[..i - |x|], s[i + 1..];
    assert s[..i] == pre + x;
    var s1 := s[..i] + s[i + 1..];
    assert s1 == pre + x + post;
    assert s1[..i - |x|] == pre && s1[i - |x|..] == x + post;
    var s2 := s1[..i - |x|] + "(" + s1[i - |x|..];
    assert s2 == pre + "(" + x + post;
    assert s2[..i + 1] == pre + "(" + x && s2[i + 1..] == post;
  }

  /** The first edits of replaceBetween: `first-last` is deleted and `()` put in its place. */
  lemma BetweenOpened(s: string, i: nat)
    requires 1 <= i && i + 1 < |s|
    ensures var s1 := s[..i - 1] + s[i + 2..];
      s1[..i - 1] + "()" + s1[i - 1..] == s[..i - 1] + "(" + RangeBars(s[i - 1] as int, s[i - 1] as int - 1) + ")" + s[i + 2..]
  {
    var s1 := s[..i - 1] + s[i + 2..];
    assert s1[..i - 1] == s[..i - 1] && s1[i - 1..] == s[i + 2..];
  }

  /** Inserting `|c` after the opening parenthesis extends the bars by the character c. */
  lemma BarInserted(before: string, after: string, pre: string, post: string, lo: int, j: int)
    requires 0 <= lo <= j < 0x11_0000 && (j < 0xD800 || 0xDFFF < lo)
    requires before == pre + "(" + RangeBars(lo, j - 1) + ")" + post
    requires after == before[..|pre| + 1] + ("|" + [j as char]) + before[|pre| + 1..]
    ensures after == pre + "(" + RangeBars(lo, j) + ")" + post
  {
    var tail := RangeBars(lo, j - 1) + ")" + post;
    assert before == (pre + "(") + tail;
    assert before[..|pre| + 1] == pre + "(" && before[|pre| + 1..] == tail;
  }

  /** What replaceBetween leaves is the text Between describes. */
  lemma BetweenText(s: string, i: nat, t: string)
    requires 1 <= i && i + 1 < |s| && !(s[i - 1] as int < 0xD800 && 0xDFFF < s[i + 1] as int)
    requires var bars := RangeBars(s[i - 1] as int, s[i + 1] as int);
      t == s[..i - 1] + "(" + (if bars == [] then "" else bars[1..] + ")") + s[i + 2..]
    ensures Between(s, i) == Ok(Rewrite(t, i))
  {
  }

  /** The two deletions of replaceRepetitions remove the operand and the brackets. */
  lemma DeletedAround(s: string, a: nat, i: nat, b: nat)
    requires a <= i <= b <= |s|
    ensures var s1 := s[..i] + s[b..]; s1[..a] + s1[i..] == s[..a] + s[b..]
  {
    var s1 := s[..i] + s[b..];
    assert s1[..a] == s[..a] && s1[i..] == s[b..];
  }

  /** What replaceRepetitions leaves is the text Repetitions describes. */
  lemma RepetitionsRewrite(s: string, i: nat, x: string, closing: int, min: int, max: int)
    requires |x| <= i < |s| && RepetitionBounds(s, i) == Ok((closing, min, max))
    ensures Repetitions(s, i, x) == Ok(Rewrite(s[..i - |x|] + "(" + RepetitionBody(x, min, max) + s[closing + 1..], i - |x| + 1))
  {
  }

  /** addConcatenationSymbols inserts `&` between c1 and c2 and passes over it. */
  lemma ConcatenationInserted(A: set<char>, s: string, i: nat, pattern: string)
    requires '&' !in A && i + 1 < |s| && NeedsConcatenation(A, s[i], s[i + 1])
    requires s[..i] + WithConcatenation(A, s[i..]) == WithConcatenation(A, pattern)
    ensures var t := s[..i + 1] + "&" + s[i + 1..];
      t[..i + 1] + WithConcatenation(A, t[i + 1..]) == WithConcatenation(A, pattern)
  {
    var t := s[..i + 1] + "&" + s[i + 1..];
    assert s[i..][1..] == s[i + 1..] && s[i..][0] == s[i] && s[i..][1] == s[i + 1];
    assert WithConcatenation(A, s[i..]) == [s[i], '&'] + WithConcatenation(A, s[i + 1..]);
    var u := t[i + 1..];
    assert t[..i + 1] == s[..i + 1] == s[..i] + [s[i]];
    assert u == "&" + s[i + 1..] && u[1..] == s[i + 1..] && u[1] == s[i + 1];
    AmpersandNeedsNothing(A, s[i + 1]);
    assert WithConcatenation(A, u) == ['&'] + WithConcatenation(A, s[i + 1..]);
  }

  /** addConcatenationSymbols passes over c1 when nothing goes between c1 and c2. */
  lemma ConcatenationCopied(A: set<char>, s: string, i: nat, pattern: string)
    requires i + 1 < |s| && !NeedsConcatenation(A, s[i], s[i + 1])
    requires s[..i] + WithConcatenation(A, s[i..]) == WithConcatenation(A, pattern)
    ensures s[..i + 1] + WithConcatenation(A, s[i + 1..]) == WithConcatenation(A, pattern)
  {
    assert s[i..][1..] == s[i + 1..] && s[i..][0] == s[i] && s[i..][1] == s[i + 1];
    assert WithConcatenation(A, s[i..]) == [s[i]] + WithConcatenation(A, s[i + 1..]);
    assert s[..i + 1] == s[..i] + [s[i]];
  }

  /** At the last character nothing is inserted any more. */
  lemma ConcatenationFinished(A: set<char>, s: string, i: nat, pattern: string)
    requires i <= |s| && !(i < |s| - 1)
    requires s[..i] + WithConcatenation(A, s[i..]) == WithConcatenation(A, pattern)
    ensures s == WithConcatenation(A, pattern)
  {
    assert WithConcatenation(A, s[i..]) == s[i..];
    assert s == s[..i] + s[i..];
  }

  /** The symbol inserted by addConcatenationSymbols pairs with nothing after it. */
  lemma AmpersandNeedsNothing(A: set<char>, c: char)
    requires '&' !in A
    ensures !NeedsConcatenation(A, '&', c)
  {
  }

  class PatternProcessor {
    /** The characters that are neither operations, shorthands nor `#`. */
    const alphabet: set<char>
    const shorthandSymbols: set<char>

    constructor (alphabet: set<char>, shorthandSymbols: set<char>)
      ensures this.alphabet == alphabet && this.shorthandSymbols == shorthandSymbols
    {
      this.alphabet := alphabet;
      this.shorthandSymbols := shorthandSymbols;
    }

    /** elongateRegularExpression: `#` for the empty pattern, else the shorthands expanded and `&` inserted. */
    method ElongateRegularExpression(pattern: string) returns (r: Result<string>)
      requires '&' !in alphabet
      ensures r == Elongated(alphabet, shorthandSymbols, pattern)
    {
      if pattern == [] {
        return Ok("#");
      }
      var expanded := ReplaceShorthands(pattern);
      if expanded.Err? {
        return Err(expanded.error);
      }
      var concatenated := AddConcatenationSymbols(expanded.value);
      return Ok(concatenated);
    }

    /**
     * replaceShorthands: a left-to-right scan of the builder; every shorthand
     * symbol has its operand determined, and the expanding ones rewrite the
     * text and move the index. At most |pattern| rewrites are made.
     */
    method ReplaceShorthands(pattern: string) returns (r: Result<string>)
      ensures r == Scan(shorthandSymbols, pattern, 0, |pattern|)
    {
      var sb := new OwnStringBuilder(pattern);
      var fuel: nat := |pattern|;
      var i: nat := 0;
      while i < sb.Length()
        invariant Scan(shorthandSymbols, sb.str, i, fuel) == Scan(shorthandSymbols, pattern, 0, |pattern|)
        decreases fuel, |sb.str| - i
      {
        var step := VisitSymbol(sb, i, fuel);
        if step.Err? {
          return Err(step.error);
        }
        i, fuel := step.value.0, step.value.1;
      }
      return Ok(sb.ToString());
    }

    /**
     * One pass of the loop of replaceShorthands at index i, the final `i++`
     * included: the index and the remaining number of rewrites to go on
     * with, or the exception that ends the scan.
     */
    method VisitSymbol(sb: OwnStringBuilder, i: nat, fuel: nat) returns (r: Result<(nat, nat)>)
      requires i < |sb.str|
      modifies sb
      ensures r.Ok? ==> ScanStep(shorthandSymbols, old(sb.str), i, fuel) == Ok((sb.str, r.value.0, r.value.1))
      ensures r.Err? ==> ScanStep(shorthandSymbols, old(sb.str), i, fuel) == Err(r.error)
    {
      ghost var s := sb.str;
      var currentSymbol := sb.CharAt(i);
      if currentSymbol !in shorthandSymbols {
        return Ok((i + 1, fuel));
      }
      var affected := DetermineAffectedPart(sb.ToString(), i - 1);
      if affected.Err? {
        return Err(affected.error);
      }
      var affectedPart := affected.value;
      if !Expands(currentSymbol) {
        return Ok((i + 1, fuel));
      }
      if fuel == 0 {
        return Err(OutOfFuel);
      }
      ScanStepExpands(shorthandSymbols, s, i, fuel, affectedPart);
      var next := RewriteAt(sb, i, affectedPart);
      if next.Err? {
        return Err(next.error);
      }
      return Ok((next.value + 1, fuel - 1));
    }

    /** The four `if`s of replaceShorthands that pick the rewrite for the symbol at i. */
    method RewriteAt(sb: OwnStringBuilder, i: nat, affectedPart: string) returns (next: Result<nat>)
      requires |affectedPart| <= i < |sb.str| && Expands(sb.str[i])
      requires affectedPart == sb.str[i - |affectedPart|..i]
      modifies sb
      ensures next.Ok? ==> Expand(old(sb.str), i, affectedPart) == Ok(Rewrite(sb.str, next.value))
      ensures next.Err? ==> Expand(old(sb.str), i, affectedPart) == Err(next.error)
    {
      var currentSymbol := sb.str[i];
      if currentSymbol == '+' {
        var n := ReplacePlus(sb, i, affectedPart);
        next := Ok(n);
      } else if currentSymbol == '?' {
        var n := ReplaceQuestionmark(sb, i, affectedPart);
        next := Ok(n);
      } else if currentSymbol == '-' {
        next := ReplaceBetween(sb, i);
      } else {
        next := ReplaceRepetitions(sb, i, affectedPart);
      }
    }

    /** replacePlus: the `+` at i is deleted, `(` goes before the operand and the operand and `*)` after it. */
    method ReplacePlus(sb: OwnStringBuilder, i: nat, affectedPart: string) returns (next: nat)
      requires |affectedPart| <= i < |sb.str| && affectedPart == sb.str[i - |affectedPart|..i]
      modifies sb
      ensures Rewrite(sb.str, next) == Plus(old(sb.str), i, affectedPart)
    {
      ghost var s := sb.str;
      sb.DeleteCharAt(i);
      sb.Insert(i - |affectedPart|, "(");
      next := i + 1;
      sb.Insert(next, affectedPart + "*)");
      PlusEdits(s, i, affectedPart);
    }

    /** replaceQuestionmark: the `?` at i becomes `|#)`, and `(` goes before the operand. */
    method ReplaceQuestionmark(sb: OwnStringBuilder, i: nat, affectedPart: string) returns (next: nat)
      requires |affectedPart| <= i < |sb.str| && affectedPart == sb.str[i - |affectedPart|..i]
      modifies sb
      ensures Rewrite(sb.str, next) == Optional(old(sb.str), i, affectedPart)
    {
      ghost var a := |affectedPart|;
      ghost var pre, post := sb.str[..i - a], sb.str[i + 1..];
      assert sb.str[..i] == pre + affectedPart;
      sb.DeleteCharAt(i);
      sb.Insert(i, "|#)");
      assert sb.str == pre + affectedPart + "|#)" + post;
      ghost var t := sb.str;
      assert t[..i - a] == pre && t[i - a..] == affectedPart + "|#)" + post;
      sb.Insert(i - |affectedPart|, "(");
      assert sb.str == pre + "(" + (affectedPart + "|#)" + post);
      next := i + 1;
    }

    /**
     * replaceBetween: `first-last` around i becomes `(last|...|first)`. The
     * characters are inserted one by one at the same index, so the last
     * inserted comes first; the leading bar is then deleted.
     */
    method ReplaceBetween(sb: OwnStringBuilder, i: nat) returns (next: Result<nat>)
      requires i < |sb.str|
      modifies sb
      ensures next.Ok? ==> Between(old(sb.str), i) == Ok(Rewrite(sb.str, next.value))
      ensures next.Err? ==> Between(old(sb.str), i) == Err(next.error) && sb.str == old(sb.str)
    {
      if i < 1 || i + 1 >= sb.Length() {
        return Err(IndexOutOfBounds);
      }
      var first := sb.CharAt(i - 1);
      var last := sb.CharAt(i + 1);
      if first as int < 0xD800 && 0xDFFF < last as int {
        return Err(UnrepresentableChar);
      }
      ghost var s := sb.str;
      ghost var pre, post := s[..i - 1], s[i + 2..];
      sb.Delete(i - 1, i + 2);
      var k := i - 1;
      sb.Insert(k, "()");
      k := k + 1;
      BetweenOpened(s, i);
      var j := first as int;
      while j <= last as int
        invariant first as int <= j && (first <= last ==> j <= last as int + 1)
        invariant first > last ==> j == first as int
        invariant j - 1 < 0x11_0000 && (j - 1 < 0xD800 || 0xDFFF < first as int)
        invariant sb.str == pre + "(" + RangeBars(first as int, j - 1) + ")" + post
        decreases last as int - j
      {
        ghost var before := sb.str;
        sb.Insert(k, "|" + [j as char]);
        BarInserted(before, sb.str, pre, post, first as int, j);
        j := j + 1;
      }
      assert RangeBars(first as int, j - 1) == RangeBars(first as int, last as int);
      InsertedBarsDeleted(sb, k, pre, RangeBars(first as int, last as int), post);
      BetweenText(s, i, sb.str);
      return Ok(k);
    }

    /**
     * The closing `deleteCharAt` of replaceBetween and replaceRepetitions:
     * it takes the leading bar when something was inserted, the closing
     * parenthesis otherwise.
     */
    static method InsertedBarsDeleted(sb: OwnStringBuilder, k: nat, ghost pre: string, ghost bars: string, ghost post: string)
      requires k == |pre| + 1 && sb.str == pre + "(" + bars + ")" + post
      requires bars == [] || bars[0] == '|'
      modifies sb
      ensures sb.str == pre + "(" + (if bars == [] then "" else bars[1..] + ")") + post
    {
      sb.DeleteCharAt(k);
      ghost var s := pre + "(" + bars + ")" + post;
      if bars == [] {
        assert sb.str == s[..|pre| + 1] + s[|pre| + 2..];
        assert s[..|pre| + 1] == pre + "(" && s[|pre| + 2..] == post;
      } else {
        assert s[..|pre| + 1] == pre + "(" && s[|pre| + 2..] == bars[1..] + ")" + post;
      }
    }

    /**
     * replaceRepetitions: the bounds between `[` and the next `]` are read
     * into a two-element array, the operand and the bracket are deleted, and
     * either the operand repeated min times followed by the operand starred,
     * or the alternatives from max repetitions down to min, are inserted.
     */
    method ReplaceRepetitions(sb: OwnStringBuilder, i: nat, affectedPart: string) returns (next: Result<nat>)
      requires |affectedPart| <= i < |sb.str| && affectedPart == sb.str[i - |affectedPart|..i]
      modifies sb
      ensures next.Ok? ==> Repetitions(old(sb.str), i, affectedPart) == Ok(Rewrite(sb.str, next.value))
      ensures next.Err? ==> Repetitions(old(sb.str), i, affectedPart) == Err(next.error) && sb.str == old(sb.str)
    {
      var bounds := ReadRepetitionBounds(sb, i);
      if bounds.Err? {
        next := Err(bounds.error);
      } else {
        var closing, min, max := bounds.value.0, bounds.value.1, bounds.value.2;
        RepetitionsRewrite(sb.str, i, affectedPart, closing, min, max);
        var k := RewriteRepetition(sb, i, affectedPart, closing, min, max);
        next := Ok(k);
      }
    }

    /**
     * The second half of replaceRepetitions, once the bounds are read: the
     * operand and the bracket up to `closing` are deleted and the
     * parenthesised repetition is inserted in their place.
     */
    static method RewriteRepetition(sb: OwnStringBuilder, i: nat, affectedPart: string, closing: nat, min: int, max: int)
      returns (k: nat)
      requires |affectedPart| <= i < closing < |sb.str|
      modifies sb
      ensures k == i - |affectedPart| + 1
      ensures sb.str == old(sb.str)[..i - |affectedPart|] + "(" + RepetitionBody(affectedPart, min, max) + old(sb.str)[closing + 1..]
    {
      ghost var s := sb.str;
      ghost var pre, post := s[..i - |affectedPart|], s[closing + 1..];
      sb.Delete(i, closing + 1);
      sb.Delete(i - |affectedPart|, i);
      DeletedAround(s, i - |affectedPart|, i, closing + 1);
      k := i - |affectedPart|;
      if max == -1 {
        k := InsertStarred(sb, k, affectedPart, min, pre, post);
      } else {
        k := InsertAlternatives(sb, k, affectedPart, min, max, pre, post);
      }
    }

    /** The first half of replaceRepetitions: find the `]`, split the text before it and read the bounds. */
    static method ReadRepetitionBounds(sb: OwnStringBuilder, i: nat) returns (r: Result<(int, int, int)>)
      requires i < |sb.str|
      ensures r == RepetitionBounds(sb.str, i)
    {
      var closing := sb.IndexOf("]", i);
      if closing < i + 1 {
        return Err(IndexOutOfBounds);
      }
      var valueStrings := JavaString.Split(sb.Substring(i + 1, closing), ',');
      assert valueStrings == JavaString.Split(sb.str[i + 1..closing], ',');
      var values := ReadBounds(valueStrings);
      if values.Err? {
        return Err(values.error);
      }
      return Ok((closing, values.value.0, values.value.1));
    }

    /** The unbounded case of replaceRepetitions: `(`, min copies of x, x, `*)`. */
    static method InsertStarred(sb: OwnStringBuilder, k: nat, x: string, min: int, ghost pre: string, ghost post: string)
      returns (next: nat)
      requires k == |pre| && sb.str == pre + post
      modifies sb
      ensures next == k + 1 && sb.str == pre + "(" + RepetitionBody(x, min, -1) + post
    {
      sb.Insert(k, "()");
      next := k + 1;
      assert sb.str == pre + "(" + ")" + post;
      sb.Insert(next, "*");
      assert sb.str == pre + "(" + "*)" + post;
      ghost var before := sb.str;
      sb.Insert(next, x);
      CopyInserted(before, sb.str, pre, post, x, -1);
      var j := 0;
      while j < min
        invariant 0 <= j && (if min < 0 then j == 0 else j <= min)
        invariant sb.str == pre + "(" + (Repeat(x, j) + x + "*)") + post
      {
        before := sb.str;
        sb.Insert(next, x);
        CopyInserted(before, sb.str, pre, post, x, j);
        j := j + 1;
      }
      assert Repeat(x, j) == Repeat(x, min) by {
        if min > 0 {
          assert j == min;
        }
      }
    }

    /** The bounded case of replaceRepetitions: each alternative from min to max is inserted in front of the last. */
    static method InsertAlternatives(sb: OwnStringBuilder, k: nat, x: string, min: int, max: int, ghost pre: string, ghost post: string)
      returns (next: nat)
      requires max != -1 && k == |pre| && sb.str == pre + post
      modifies sb
      ensures next == k + 1 && sb.str == pre + "(" + RepetitionBody(x, min, max) + post
    {
      sb.Insert(k, "()");
      next := k + 1;
      assert sb.str == pre + "(" + Alternatives(x, min, min - 1) + ")" + post;
      var len := min;
      while len <= max
        invariant min <= len && (if min <= max then len <= max + 1 else len == min)
        invariant sb.str == pre + "(" + Alternatives(x, min, len - 1) + ")" + post
        decreases max - len
      {
        ghost var before := sb.str;
        if len == 0 {
          sb.Insert(next, "|#");
        } else {
          var option := Repetition(x, len);
          sb.Insert(next, "|" + option);
        }
        AlternativeInserted(before, sb.str, pre, post, x, min, len);
        len := len + 1;
      }
      assert Alternatives(x, min, len - 1) == Alternatives(x, min, max);
      InsertedBarsDeleted(sb, next, pre, Alternatives(x, min, max), post);
    }

    /** The inner loop of replaceRepetitions that builds one alternative by appending. */
    static method Repetition(x: string, len: int) returns (option: string)
      ensures option == Repeat(x, len)
    {
      option := "";
      var j := 0;
      while j < len
        invariant 0 <= j && (if len < 0 then j == 0 else j <= len)
        invariant option == Repeat(x, j)
      {
        option := option + x;
        j := j + 1;
      }
    }

    /** The for-loop over the two bound strings of replaceRepetitions, filling `values`. */
    static method ReadBounds(valueStrings: seq<string>) returns (r: Result<(int, int)>)
      requires |valueStrings| >= 1
      ensures r == Bounds(valueStrings)
    {
      var values := new int[2];
      for j := 0 to 2
        invariant forall m :: 0 <= m < j ==> m < |valueStrings| && Bound(valueStrings[m], m) == Ok(values[m])
      {
        if j >= |valueStrings| {
          return Err(IndexOutOfBounds);
        }
        if valueStrings[j] == [] {
          values[j] := -1 * j;
        } else {
          var v := Decimal.ParseInt(JavaString.Trim(valueStrings[j]));
          if v.Err? {
            return Err(v.error);
          }
          values[j] := v.value;
        }
      }
      return Ok((values[0], values[1]));
    }

    /**
     * determineAffectedPart: a character other than `)` is its own operand;
     * from `)` the scan runs backwards, pushing on `)` and popping on `(`,
     * until the stack is empty. Running off the front is charAt(-1).
     */
    method DetermineAffectedPart(pattern: string, idx: int) returns (r: Result<string>)
      ensures r == AffectedPart(pattern, idx)
    {
      if idx < 0 || idx >= |pattern| {
        return Err(IndexOutOfBounds);
      }
      if pattern[idx] != ')' {
        return Ok([pattern[idx]]);
      }
      var result := ")";
      var parStack := new OwnStack<char>();
      parStack.Push(')');
      var i := idx - 1;
      assert pattern[idx..idx + 1] == [')'];
      while !parStack.IsEmpty()
        invariant -1 <= i < idx
        invariant result == pattern[i + 1..idx + 1]
        invariant |parStack.elems| == SuffixDepth(pattern, i + 1, idx)
        invariant forall j :: i + 1 < j <= idx ==> SuffixDepth(pattern, j, idx) > 0
        decreases i + 1
      {
        if i < 0 {
          return Err(IndexOutOfBounds);
        }
        SuffixDepthStep(pattern, i, idx);
        if pattern[i] == ')' {
          parStack.Push(')');
        }
        if pattern[i] == '(' {
          var _ := parStack.Pop();
        }
        result := [pattern[i]] + result;
        i := i - 1;
      }
      BalancedStartFinds(pattern, idx, i + 1, idx);
      return Ok(result);
    }

    /**
     * addConcatenationSymbols: every adjacent pair is tested once; after an
     * insertion the index passes over the new `&`, which pairs with nothing
     * because it is not in the alphabet (otherwise the source never stops).
     */
    method AddConcatenationSymbols(pattern: string) returns (r: string)
      requires '&' !in alphabet
      ensures r == WithConcatenation(alphabet, pattern)
    {
      var sb := new OwnStringBuilder(pattern);
      var i := 0;
      while i < sb.Length() - 1
        invariant 0 <= i <= |sb.str|
        invariant sb.str[..i] + WithConcatenation(alphabet, sb.str[i..]) == WithConcatenation(alphabet, pattern)
        decreases |WithConcatenation(alphabet, pattern)| - i
      {
        var c1 := sb.CharAt(i);
        var c2 := sb.CharAt(i + 1);
        ghost var s := sb.str;
        if NeedsConcatenation(alphabet, c1, c2) {
          sb.Insert(i + 1, "&");
          ConcatenationInserted(alphabet, s, i, pattern);
        } else {
          ConcatenationCopied(alphabet, s, i, pattern);
        }
        i := i + 1;
      }
      ConcatenationFinished(alphabet, sb.str, i, pattern);
      return sb.ToString();
    }

    /**
     * removeUnnecessaryNegations: a left-to-right scan that skips every
     * `!!` pair and copies every other character into the result.
     */
    method RemoveUnnecessaryNegations(pattern: string) returns (r: string)
      ensures r == Collapse(pattern)
    {
      var result := "";
      var i := 0;
      while i < |pattern|
        invariant 0 <= i <= |pattern|
        invariant result + Collapse(pattern[i..]) == Collapse(pattern)
      {
        var c1 := pattern[i];
        if i + 1 == |pattern| {
          CollapseKeep(pattern[i..]);
          result := result + [c1];
          break;
        }
        var c2 := pattern[i + 1];
        if c1 == '!' && c2 == '!' {
          CollapsePair(pattern[i..]);
          assert pattern[i..][2..] == pattern[i + 2..];
          i := i + 2;
          continue;
        }
        CollapseKeep(pattern[i..]);
        assert pattern[i..][1..] == pattern[i + 1..];
        result := result + [c1];
        i := i + 1;
      }
      return result;
    }

    function GetAlphabet(): set<char>
    {
      alphabet
    }

    function GetShorthandSymbols(): set<char>
    {
      shorthandSymbols
    }
  }

  // ---------------------------------------------------------------------------
  // The cases of PatternProcessorTest, with the default character sets
  // ---------------------------------------------------------------------------

  /** addConcatenationSymbols on the cases of PatternProcessorTest, one each. */
  lemma ConcatenationBetweenLetters()
    ensures WithConcatenation(Utilities.DefaultAlphabet, "ab") == "a&b"
  {
    assert "ab"[1..] == "b";
  }

  lemma ConcatenationNotAroundUnion()
    ensures WithConcatenation(Utilities.DefaultAlphabet, "a|b") == "a|b"
  {
    assert "a|b"[1..] == "|b" && "|b"[1..] == "b";
  }

  lemma ConcatenationAfterStar()
    ensures WithConcatenation(Utilities.DefaultAlphabet, "a*b") == "a*&b"
  {
    assert "a*b"[1..] == "*b" && "*b"[1..] == "b";
  }

  lemma ConcatenationBeforeNegation()
    ensures WithConcatenation(Utilities.DefaultAlphabet, "a!c") == "a&!c"
  {
    assert "a!c"[1..] == "!c" && "!c"[1..] == "c";
  }

  lemma ConcatenationNotAfterNegation()
    ensures WithConcatenation(Utilities.DefaultAlphabet, "!c") == "!c"
  {
    assert "!c"[1..] == "c";
  }

  /** Scanning passes over characters that are not shorthand symbols. */
  lemma {:induction false} ScanSkips(sh: set<char>, s: string, i: nat, j: nat, fuel: nat)
    requires i <= j <= |s| && forall k :: i <= k < j ==> s[k] !in sh
    ensures Scan(sh, s, i, fuel) == Scan(sh, s, j, fuel)
    decreases j - i
  {
    if i < j {
      assert ScanStep(sh, s, i, fuel) == Ok((s, i + 1, fuel));
      assert Scan(sh, s, i, fuel) == Scan(sh, s, i + 1, fuel);
      ScanSkips(sh, s, i + 1, j, fuel);
    }
  }

  lemma ScanRewriteStep(sh: set<char>, s: string, i: nat, fuel: nat, x: string, rw: Rewrite)
    requires i < |s| && s[i] in sh && Expands(s[i]) && fuel > 0
    requires AffectedPart(s, i - 1) == Ok(x) && Expand(s, i, x) == Ok(rw)
    ensures Scan(sh, s, i, fuel) == Scan(sh, rw.text, rw.next + 1, fuel - 1)
  {
    assert ScanStep(sh, s, i, fuel) == Ok((rw.text, rw.next + 1, fuel - 1));
    ScanUnfold(sh, s, i, fuel, rw.text, rw.next + 1, fuel - 1);
  }

  /** One pass of the loop, then the rest of the scan. */
  lemma ScanUnfold(sh: set<char>, s: string, i: nat, fuel: nat, t: string, j: nat, f: nat)
    requires i < |s| && ScanStep(sh, s, i, fuel) == Ok((t, j, f))
    ensures Scan(sh, s, i, fuel) == Scan(sh, t, j, f)
  {
  }

  /** A shorthand right after a one-character operand at the start: the scan passes the operand and rewrites. */
  lemma ScanSecond(sh: set<char>, s: string, fuel: nat, rw: Rewrite)
    requires |s| >= 2 && s[0] !in sh && s[0] != ')' && s[1] in sh && Expands(s[1]) && fuel > 0
    requires Expand(s, 1, [s[0]]) == Ok(rw)
    ensures Scan(sh, s, 0, fuel) == Scan(sh, rw.text, rw.next + 1, fuel - 1)
  {
    ScanUnfold(sh, s, 0, fuel, s, 1, fuel);
    ScanRewriteStep(sh, s, 1, fuel, [s[0]], rw);
  }

  lemma PlusText()
    ensures Plus("a+", 1, "a") == Rewrite("(aa*)", 2)
  {
    assert "a+"[..0] + "(" + "a" + "a" + "*)" + "a+"[2..] == "(aa*)";
  }

  /** "a+" becomes "(aa*)". */
  lemma PlusExample()
    ensures Scan(Utilities.DefaultShorthands, "a+", 0, 2) == Ok("(aa*)")
  {
    PlusText();
    ScanSecond(Utilities.DefaultShorthands, "a+", 2, Rewrite("(aa*)", 2));
    ScanPlain(Utilities.DefaultShorthands, "(aa*)", 3, 1);
  }

  lemma OptionalText()
    ensures Optional("a?", 1, "a") == Rewrite("(a|#)", 2)
  {
    assert "a?"[..0] + "(" + "a" + "|#)" + "a?"[2..] == "(a|#)";
  }

  /** "a?" becomes "(a|#)". */
  lemma OptionalExample()
    ensures Scan(Utilities.DefaultShorthands, "a?", 0, 2) == Ok("(a|#)")
  {
    OptionalText();
    ScanSecond(Utilities.DefaultShorthands, "a?", 2, Rewrite("(a|#)", 2));
    ScanPlain(Utilities.DefaultShorthands, "(a|#)", 3, 1);
  }

  lemma RangeBarsExample()
    ensures RangeBars('4' as int, '7' as int) == "|7|6|5|4"
  {
    assert RangeBars(52, 51) == "";
    assert RangeBars(52, 52) == "|4";
    assert RangeBars(52, 53) == "|5|4";
    assert RangeBars(52, 54) == "|6|5|4";
  }

  lemma BetweenExample()
    ensures Between("4-7", 1) == Ok(Rewrite("(7|6|5|4)", 1))
  {
    var s := "4-7";
    RangeBarsExample();
    var first, last := s[0], s[2];
    assert first == '4' && last == '7';
    assert RangeBars(first as int, last as int)[1..] + ")" == "7|6|5|4)";
    assert s[..0] == "" && s[3..] == "";
    assert "" + "(" + "7|6|5|4)" + "" == "(7|6|5|4)";
  }

  /** "4-7" becomes "(7|6|5|4)", the characters from the last one down. */
  lemma RangeExample()
    ensures Scan(Utilities.DefaultShorthands, "4-7", 0, 3) == Ok("(7|6|5|4)")
  {
    BetweenExample();
    ScanSecond(Utilities.DefaultShorthands, "4-7", 3, Rewrite("(7|6|5|4)", 1));
    RangeRescan();
  }

  lemma RangeRescan()
    ensures Scan(Utilities.DefaultShorthands, "(7|6|5|4)", 2, 2) == Ok("(7|6|5|4)")
  {
    ScanPlain(Utilities.DefaultShorthands, "(7|6|5|4)", 2, 2);
  }

  lemma ClosingBracketExample()
    ensures IndexOfFrom("a[2,4]", "]", 1) == 5
  {
    IndexOfCharAt("a[2,4]", ']', 1, 5);
  }

  lemma SplitBoundsExample()
    ensures JavaString.Split("2,4", ',') == ["2", "4"]
  {
    JavaString.SplitPair('2', '4', ',');
  }

  /** A one-digit bound is that digit's value. */
  lemma DigitBound(c: char, j: int)
    requires Decimal.IsDigit(c)
    ensures Bound([c], j) == Ok(c as int - '0' as int)
  {
    JavaString.TrimSingle(c);
    Decimal.ParseDigit(c);
  }

  lemma BoundsExample()
    ensures Bounds(["2", "4"]) == Ok((2, 4))
  {
    DigitBound('2', 0);
    DigitBound('4', 1);
  }

  /** The bounds of "[2,4]", and the index of its closing bracket. */
  lemma RepetitionBoundsExample()
    ensures RepetitionBounds("a[2,4]", 1) == Ok((5, 2, 4))
  {
    ClosingBracketExample();
    assert "a[2,4]"[2..5] == "2,4";
    SplitBoundsExample();
    BoundsExample();
  }

  lemma AlternativesExample()
    ensures RepetitionBody("a", 2, 4) == "aaaa|aaa|aa)"
  {
    assert Repeat("a", 2) == "aa" && Repeat("a", 3) == "aaa" && Repeat("a", 4) == "aaaa";
    assert Alternatives("a", 2, 1) == "";
    assert Alternatives("a", 2, 2) == "|aa";
    assert Alternatives("a", 2, 3) == "|aaa|aa";
    assert Alternatives("a", 2, 4) == "|aaaa|aaa|aa";
  }

  lemma RepetitionsExample()
    ensures Repetitions("a[2,4]", 1, "a") == Ok(Rewrite("(aaaa|aaa|aa)", 1))
  {
    RepetitionsPieces();
    RepetitionsText();
  }

  lemma RepetitionsPieces()
    ensures Repetitions("a[2,4]", 1, "a") == Ok(Rewrite("a[2,4]"[..0] + "(" + RepetitionBody("a", 2, 4) + "a[2,4]"[6..], 1))
  {
    RepetitionBoundsExample();
    var s, x := "a[2,4]", "a";
    assert Repetitions(s, 1, x) == Ok(Rewrite(s[..1 - |x|] + "(" + RepetitionBody(x, 2, 4) + s[5 + 1..], 1 - |x| + 1));
  }

  lemma RepetitionsText()
    ensures "a[2,4]"[..0] + "(" + RepetitionBody("a", 2, 4) + "a[2,4]"[6..] == "(aaaa|aaa|aa)"
  {
    AlternativesExample();
    assert "a[2,4]"[..0] == "" && "a[2,4]"[6..] == "";
  }

  /** "a[2,4]" becomes "(aaaa|aaa|aa)", the longest alternative first. */
  lemma RepetitionExample()
    ensures Scan(Utilities.DefaultShorthands, "a[2,4]", 0, 6) == Ok("(aaaa|aaa|aa)")
  {
    RepetitionScan("a[2,4]");
  }

  lemma RepetitionScan(s: string)
    requires s == "a[2,4]"
    ensures Scan(Utilities.DefaultShorthands, s, 0, 6) == Ok("(aaaa|aaa|aa)")
  {
    RepetitionExpand(s);
    ScanSecond(Utilities.DefaultShorthands, s, 6, Rewrite("(aaaa|aaa|aa)", 1));
    RepetitionRescan();
  }

  lemma RepetitionExpand(s: string)
    requires s == "a[2,4]"
    ensures Expand(s, 1, [s[0]]) == Ok(Rewrite("(aaaa|aaa|aa)", 1))
  {
    assert [s[0]] == "a" && s[1] == '[';
    ExpandBracket(s, 1, "a");
    RepetitionsExample();
  }

  lemma ExpandBracket(s: string, i: nat, x: string)
    requires |x| <= i < |s| && s[i] == '['
    ensures Expand(s, i, x) == Repetitions(s, i, x)
  {
  }

  lemma RepetitionRescan()
    ensures Scan(Utilities.DefaultShorthands, "(aaaa|aaa|aa)", 2, 5) == Ok("(aaaa|aaa|aa)")
  {
    ScanPlain(Utilities.DefaultShorthands, "(aaaa|aaa|aa)", 2, 5);
  }




  /** Runs of negations: an even run disappears, an odd one leaves a single `!`. */
  lemma CollapseExamples()
    ensures Collapse("!!") == "" && Collapse("!!!") == "!"
    ensures Collapse(Negations(16)) == ""
    ensures Collapse("!(!a)") == "!(!a)"
  {
    CollapseRun(2, "");
    assert Negations(2) == "!!";
    CollapseRun(3, "");
    assert Negations(3) == "!!!";
    CollapseRun(16, "");
    assert Negations(16) + "" == Negations(16);
    var s := "!(!a)";
    assert Collapse(s) == [s[0]] + Collapse(s[1..]);
    assert s[1..] == "(!a)";
    assert Collapse("(!a)") == ['('] + Collapse("!a)");
    assert "(!a)"[1..] == "!a)";
    assert Collapse("!a)") == ['!'] + Collapse("a)");
    assert "!a)"[1..] == "a)";
  }
}
