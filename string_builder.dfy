/**
 * OwnStringBuilder.java: a mutable string whose editing methods reassign the
 * stored string. PatternProcessor edits its patterns through the same
 * operations (it uses java.lang.StringBuilder, whose calls there agree).
 */
module StringBuilder {

  /** `pat` occurs in `s` starting at index k. */
  predicate OccursAt(s: string, pat: string, k: int)
  {
    0 <= k && k + |pat| <= |s| && s[k..k + |pat|] == pat
  }

  /** Where String.indexOf starts looking: a negative index counts as 0, one past the end as the end. */
  function SearchStart(len: nat, from: int): (r: nat)
    ensures r <= len
  {
    if from < 0 then 0 else if from > len then len else from
  }

  /** The least index at or after `from` where `pat` starts, or -1 when there is none. */
  function IndexOfFrom(s: string, pat: string, from: int): (r: int)
    ensures r == -1 || SearchStart(|s|, from) <= r <= |s|
    ensures r != -1 ==> OccursAt(s, pat, r)
    ensures forall k :: SearchStart(|s|, from) <= k && (r == -1 || k < r) ==> !OccursAt(s, pat, k)
    decreases |s| - SearchStart(|s|, from)
  {
    var j := SearchStart(|s|, from);
    if j + |pat| > |s| then -1
    else if s[j..j + |pat|] == pat then j
    else IndexOfFrom(s, pat, j + 1)
  }

  /** A one-character search finds the first occurrence at or after `from`. */
  lemma {:induction false} IndexOfCharAt(s: string, c: char, from: nat, k: nat)
    requires from <= k < |s| && s[k] == c
    requires forall j :: from <= j < k ==> s[j] != c
    ensures IndexOfFrom(s, [c], from) == k
    decreases k - from
  {
    assert s[from..from + 1] == [s[from]];
    if from < k {
      IndexOfCharAt(s, c, from + 1, k);
    }
  }

  class OwnStringBuilder {
    var str: string

    constructor (s: string)
      ensures str == s
    {
      str := s;
    }

    method DeleteCharAt(idx: int)
      requires 0 <= idx < |str|
      modifies this
      ensures str == old(str[..idx] + str[idx + 1..])
      ensures |str| == old(|str|) - 1
    {
      str := str[..idx] + str[idx + 1..];
    }

    /**
     * Removes the characters i1, ..., i2 - 1. With i2 < i1 nothing is removed
     * and the characters i2, ..., i1 - 1 appear twice, as the two substrings
     * are still joined.
     */
    method Delete(i1: int, i2: int)
      requires 0 <= i1 <= |str| && 0 <= i2 <= |str|
      modifies this
      ensures str == old(str[..i1] + str[i2..])
      ensures |str| == old(|str|) - (i2 - i1)
    {
      str := str[..i1] + str[i2..];
    }

    /** Places `inserted` so that its first character lands at index idx. */
    method Insert(idx: int, inserted: string)
      requires 0 <= idx <= |str|
      modifies this
      ensures str == old(str[..idx]) + inserted + old(str[idx..])
      ensures |str| == old(|str|) + |inserted|
    {
      if idx == 0 {
        str := inserted + str;
      } else {
        str := str[..idx] + inserted + str[idx..];
      }
    }

    function Length(): nat
      reads this
    {
      |str|
    }

    function CharAt(i: int): char
      requires 0 <= i < |str|
      reads this
    {
      str[i]
    }

    /** String.indexOf(pat, from), by a left-to-right scan. */
    method IndexOf(pat: string, from: int) returns (r: int)
      ensures r == IndexOfFrom(str, pat, from)
    {
      var j := SearchStart(|str|, from);
      while j + |pat| <= |str|
        invariant SearchStart(|str|, from) <= j <= |str|
        invariant IndexOfFrom(str, pat, j) == IndexOfFrom(str, pat, from)
        decreases |str| - j
      {
        if str[j..j + |pat|] == pat {
          return j;
        }
        j := j + 1;
      }
      return -1;
    }

    function Substring(i: int, j: int): (r: string)
      requires 0 <= i <= j <= |str|
      reads this
      ensures |r| == j - i && forall k :: 0 <= k < |r| ==> r[k] == str[i + k]
    {
      str[i..j]
    }

    function ToString(): string
      reads this
    {
      str
    }
  }

  /** A search from `from` answers k when pat occurs at k and nowhere between `from` and k. */
  lemma IndexOfIsFirst(s: string, pat: string, from: nat, k: nat)
    requires from <= k && OccursAt(s, pat, k)
    requires forall j :: from <= j < k ==> !OccursAt(s, pat, j)
    ensures IndexOfFrom(s, pat, from) == k
  {
  }

  /** pat occurs at k when its characters match one by one. */
  lemma OccursAtChars(s: string, pat: string, k: nat)
    requires k + |pat| <= |s| && forall i :: 0 <= i < |pat| ==> s[k + i] == pat[i]
    ensures OccursAt(s, pat, k)
  {
    assert s[k..k + |pat|] == pat;
  }

  /** A mismatch on the first character rules an occurrence out. */
  lemma FirstCharMismatch(s: string, pat: string, k: nat)
    requires pat != [] && k < |s| && s[k] != pat[0]
    ensures !OccursAt(s, pat, k)
  {
    if k + |pat| <= |s| {
      assert s[k..k + |pat|][0] == s[k];
    }
  }

  const WitchcraftText: string := "witchcraft and wizardry"

  /** OwnStringBuilderTest: "itch" is first found at index 1. */
  lemma IndexOfItchExample()
    ensures IndexOfFrom(WitchcraftText, "itch", 0) == 1
  {
    var s := WitchcraftText;
    assert s[1] == 'i' && s[2] == 't' && s[3] == 'c' && s[4] == 'h';
    OccursAtChars(s, "itch", 1);
    FirstCharMismatch(s, "itch", 0);
    IndexOfIsFirst(s, "itch", 0, 1);
  }

  /** OwnStringBuilderTest: searching "wi" from index 7 skips to the second word starting with it, at 15. */
  lemma IndexOfWiExample()
    ensures IndexOfFrom(WitchcraftText, "wi", 7) == 15
  {
    var s := WitchcraftText;
    assert s[15] == 'w' && s[16] == 'i';
    OccursAtChars(s, "wi", 15);
    forall j | 7 <= j < 15 ensures !OccursAt(s, "wi", j) {
      assert s[j] != 'w';
      FirstCharMismatch(s, "wi", j);
    }
    IndexOfIsFirst(s, "wi", 7, 15);
  }

  /** The searches of OwnStringBuilderTest, run through the builder. */
  method SearchExamples() returns (firstItch: int, laterWi: int)
    ensures firstItch == 1 && laterWi == 15
  {
    var sb := new OwnStringBuilder(WitchcraftText);
    IndexOfItchExample();
    IndexOfWiExample();
    firstItch := sb.IndexOf("itch", 0);
    laterWi := sb.IndexOf("wi", 7);
  }

  /** The edits of OwnStringBuilderTest on "witchcraft and wizardry", one fact each. */
  lemma SubstringOfText()
    ensures WitchcraftText[11..14] == "and"
  {
  }

  lemma InsertIntoText()
    ensures WitchcraftText[..11] + "s" + WitchcraftText[11..] == "witchcraft sand wizardry"
  {
  }

  lemma DeleteFromText()
    ensures WitchcraftText[..10] + WitchcraftText[14..] == "witchcraft wizardry"
  {
  }

  /** OwnStringBuilderTest: substring(11, 14) of a fresh builder. */
  method SubstringExample() returns (sub: string)
    ensures sub == "and"
  {
    var sb := new OwnStringBuilder(WitchcraftText);
    sub := sb.Substring(11, 14);
    SubstringOfText();
  }

  /** OwnStringBuilderTest: insert(11, "s") into a fresh builder. */
  method InsertExample() returns (inserted: string)
    ensures inserted == "witchcraft sand wizardry"
  {
    var sb := new OwnStringBuilder(WitchcraftText);
    sb.Insert(11, "s");
    InsertIntoText();
    inserted := sb.ToString();
  }

  /** OwnStringBuilderTest: delete(10, 14) on a fresh builder. */
  method DeleteExample() returns (deleted: string)
    ensures deleted == "witchcraft wizardry"
  {
    var sb := new OwnStringBuilder(WitchcraftText);
    sb.Delete(10, 14);
    DeleteFromText();
    deleted := sb.ToString();
  }
}
