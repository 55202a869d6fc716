/** Field cleaning and title-casing applied to every scraped event
    (index.js:119-132). Case mapping is the ASCII one. */
module Text {
  import opened Seqs
  import opened JsBuiltins

  // ---------------------------------------------------------------------------
  // Removing tab and line-feed characters: `s.replace(/\t|\n/g, "")`
  // ---------------------------------------------------------------------------

  predicate IsTabOrNewline(c: char)
  {
    c == '\t' || c == '\n'
  }

  predicate IsClean(s: string)
  {
    forall i :: 0 <= i < |s| ==> !IsTabOrNewline(s[i])
  }

  /** Removes every tab and line feed and nothing else: the result is an
      ordered subsequence of `s` with none of the two characters, holding
      every other character as often as `s` does. */
  function StripTabsNewlines(s: string): (r: string)
    ensures IsClean(r)
    ensures IsSubsequence(r, s)
    ensures forall c :: !IsTabOrNewline(c) ==> multiset(r)[c] == multiset(s)[c]
    decreases |s|
  {
    if |s| == 0 then ""
    else
      var rest := StripTabsNewlines(s[1..]);
      assert s == [s[0]] + s[1..];
      if IsTabOrNewline(s[0]) then rest
      else
        assert ([s[0]] + rest)[1..] == rest;
        [s[0]] + rest
  }

  /** A string without tabs and line feeds is left as it is. */
  lemma {:induction false} StripCleanIsIdentity(s: string)
    requires IsClean(s)
    ensures StripTabsNewlines(s) == s
    decreases |s|
  {
    if |s| > 0 {
      StripCleanIsIdentity(s[1..]);
      assert s == [s[0]] + s[1..];
    }
  }

  /** Stripping twice is stripping once. */
  lemma StripIdempotent(s: string)
    ensures StripTabsNewlines(StripTabsNewlines(s)) == StripTabsNewlines(s)
  {
    StripCleanIsIdentity(StripTabsNewlines(s));
  }

  /** Category used when the category text is empty (index.js:125, index.js:195). */
  const DefaultCategory: string := "Other"

  /** The category after cleaning: never empty, free of tabs and line feeds,
      the stripped text when that is non-empty and "Other" otherwise. */
  function CleanCategory(category: string): (r: string)
    ensures |r| > 0 && IsClean(r)
    ensures |StripTabsNewlines(category)| > 0 ==> r == StripTabsNewlines(category)
    ensures |StripTabsNewlines(category)| == 0 ==> r == DefaultCategory
  {
    var stripped := StripTabsNewlines(category);
    if |stripped| == 0 then DefaultCategory else stripped
  }

  /** Cleaning a clean category changes nothing. */
  lemma CleanCategoryIdempotent(category: string)
    ensures CleanCategory(CleanCategory(category)) == CleanCategory(category)
  {
    StripCleanIsIdentity(CleanCategory(category));
  }

  // ---------------------------------------------------------------------------
  // Title-casing: `title.replace(/\w\S*/g, txt => txt.charAt(0).toUpperCase()
  //                                           + txt.substr(1).toLowerCase())`
  // ---------------------------------------------------------------------------

  /** The regular-expression class `\w`. */
  predicate IsWordChar(c: char)
  {
    'a' <= c <= 'z' || 'A' <= c <= 'Z' || '0' <= c <= '9' || c == '_'
  }

  function Upper(c: char): char
  {
    if 'a' <= c <= 'z' then (c as int - 32) as char else c
  }

  function Lower(c: char): char
  {
    if 'A' <= c <= 'Z' then (c as int + 32) as char else c
  }

  /** Position `i` lies inside a match of `\w\S*`: somewhere at or before `i`,
      with no whitespace in between, a word character starts a match. */
  predicate InWord(s: string, i: nat)
    requires i < |s|
  {
    !IsAsciiSpace(s[i]) && (IsWordChar(s[i]) || (i > 0 && InWord(s, i - 1)))
  }

  /** Position `i` is the first character of a match. */
  predicate StartsWord(s: string, i: nat)
    requires i < |s|
  {
    InWord(s, i) && (i == 0 || !InWord(s, i - 1))
  }

  function CaseAt(s: string, i: nat): char
    requires i < |s|
  {
    if !InWord(s, i) then s[i]
    else if StartsWord(s, i) then Upper(s[i])
    else Lower(s[i])
  }

  /** Title-casing, position by position: the first character of every match
      is upper-cased, the rest of the match lower-cased, and characters
      outside every match are kept. Length and whitespace are preserved. */
  function TitleCase(s: string): (r: string)
    ensures |r| == |s|
    ensures forall i :: 0 <= i < |s| ==> (IsAsciiSpace(r[i]) <==> IsAsciiSpace(s[i]))
    ensures forall i :: 0 <= i < |s| && IsAsciiSpace(s[i]) ==> r[i] == s[i]
  {
    seq(|s|, i requires 0 <= i < |s| => CaseAt(s, i))
  }

  /** A position is inside a match exactly when some word character at or
      before it starts a run of non-whitespace that reaches it: the maximal
      runs of the regular expression. */
  lemma {:induction false} InWordMeansRun(s: string, i: nat)
    requires i < |s|
    ensures InWord(s, i) <==>
            exists j :: 0 <= j <= i && IsWordChar(s[j]) &&
                        forall k :: j <= k <= i ==> !IsAsciiSpace(s[k])
  {
    if i > 0 {
      InWordMeansRun(s, i - 1);
    }
    if InWord(s, i) && !IsWordChar(s[i]) {
      var j :| 0 <= j <= i - 1 && IsWordChar(s[j]) &&
               forall k :: j <= k <= i - 1 ==> !IsAsciiSpace(s[k]);
      assert forall k :: j <= k <= i ==> !IsAsciiSpace(s[k]);
    }
    if exists j :: 0 <= j <= i && IsWordChar(s[j]) &&
                   forall k :: j <= k <= i ==> !IsAsciiSpace(s[k]) {
      var j :| 0 <= j <= i && IsWordChar(s[j]) &&
               forall k :: j <= k <= i ==> !IsAsciiSpace(s[k]);
      if j < i {
        assert forall k :: j <= k <= i - 1 ==> !IsAsciiSpace(s[k]);
      }
    }
  }

  /** `toLowerCase` on ASCII text. */
  function LowerAll(t: string): (r: string)
    ensures |r| == |t|
  {
    seq(|t|, k requires 0 <= k < |t| => Lower(t[k]))
  }

  lemma LowerAllAppend(t: string, c: char)
    ensures LowerAll(t + [c]) == LowerAll(t) + [Lower(c)]
  {
  }

  /** Every position from a word character that starts a match up to the
      next whitespace lies in that match. */
  lemma {:induction false} MatchExtends(s: string, i: nat, j: nat)
    requires i < j <= |s|
    requires IsWordChar(s[i])
    requires forall k :: i < k < j ==> !IsAsciiSpace(s[k])
    ensures InWord(s, j - 1)
    decreases j
  {
    if j > i + 1 {
      MatchExtends(s, i, j - 1);
      assert !IsAsciiSpace(s[j - 1]);
    }
  }

  /** A match starting at `i` and running to `j` is rewritten as one capital
      followed by lower case. */
  lemma {:induction false} MatchIsCapitalised(s: string, i: nat, j: nat)
    requires i < j <= |s|
    requires IsWordChar(s[i]) && (i == 0 || !InWord(s, i - 1))
    requires forall k :: i < k < j ==> !IsAsciiSpace(s[k])
    ensures TitleCase(s)[i..j] == [Upper(s[i])] + LowerAll(s[i + 1..j])
    decreases j
  {
    if j == i + 1 {
      assert StartsWord(s, i);
      assert TitleCase(s)[i..j] == [TitleCase(s)[i]];
    } else {
      MatchIsCapitalised(s, i, j - 1);
      MatchExtends(s, i, j - 1);
      MatchGrows(s, i, j);
    }
  }

  lemma MatchGrows(s: string, i: nat, j: nat)
    requires i + 1 < j <= |s|
    requires !IsAsciiSpace(s[j - 1])
    requires InWord(s, j - 2)
    requires TitleCase(s)[i..j - 1] == [Upper(s[i])] + LowerAll(s[i + 1..j - 1])
    ensures TitleCase(s)[i..j] == [Upper(s[i])] + LowerAll(s[i + 1..j])
  {
    var t := TitleCase(s);
    CaseInsideWord(s, j - 1);
    assert t[i..j] == t[i..j - 1] + [t[j - 1]];
    assert s[i + 1..j] == s[i + 1..j - 1] + [s[j - 1]];
    LowerAllAppend(s[i + 1..j - 1], s[j - 1]);
  }

  /** A non-whitespace character right after a position inside a match
      continues that match and is lower-cased. */
  lemma CaseInsideWord(s: string, k: nat)
    requires 0 < k < |s|
    requires InWord(s, k - 1) && !IsAsciiSpace(s[k])
    ensures TitleCase(s)[k] == Lower(s[k])
  {
    assert InWord(s, k) && !StartsWord(s, k);
  }

  /** The regular-expression replacement as the engine performs it: scan for
      the next word character, extend the match greedily over non-whitespace,
      replace it by its first character upper-cased and the rest lower-cased,
      and resume after it. The outcome is `TitleCase`. */
  method ReplaceWords(s: string) returns (r: string)
    ensures r == TitleCase(s)
  {
    r := "";
    var i := 0;
    while i < |s|
      invariant 0 <= i <= |s|
      invariant r == TitleCase(s)[..i]
      invariant 0 < i < |s| ==> !InWord(s, i - 1) || IsAsciiSpace(s[i])
    {
      if IsWordChar(s[i]) {
        var j := i + 1;
        while j < |s| && !IsAsciiSpace(s[j])
          invariant i < j <= |s|
          invariant forall k :: i < k < j ==> !IsAsciiSpace(s[k])
        {
          j := j + 1;
        }
        MatchIsCapitalised(s, i, j);
        assert TitleCase(s)[..j] == TitleCase(s)[..i] + TitleCase(s)[i..j];
        r := r + ([Upper(s[i])] + LowerAll(s[i + 1..j]));
        i := j;
      } else {
        assert !InWord(s, i);
        assert TitleCase(s)[..i + 1] == TitleCase(s)[..i] + [s[i]];
        r := r + [s[i]];
        i := i + 1;
      }
    }
  }

  lemma {:induction false} TitleCaseKeepsWords(s: string, i: nat)
    requires i < |s|
    ensures InWord(TitleCase(s), i) == InWord(s, i)
  {
    var t := TitleCase(s);
    assert IsWordChar(t[i]) == IsWordChar(s[i]);
    if i > 0 {
      TitleCaseKeepsWords(s, i - 1);
    }
  }

  /** Title-casing a title-cased string changes nothing. */
  lemma TitleCaseIdempotent(s: string)
    ensures TitleCase(TitleCase(s)) == TitleCase(s)
  {
    var t := TitleCase(s);
    forall i | 0 <= i < |s|
      ensures TitleCase(t)[i] == t[i]
    {
      TitleCaseKeepsWords(s, i);
      if i > 0 {
        TitleCaseKeepsWords(s, i - 1);
      }
    }
  }

  /** A hyphen does not end a match, so only the words after spaces start
      with a capital. */
  lemma TitleCaseExample()
    ensures TitleCase("the QUICK-brown fox") == "The Quick-brown Fox"
  {
    var s := "the QUICK-brown fox";
    assert InWord(s, 0) && InWord(s, 1) && InWord(s, 2) && !InWord(s, 3);
    assert InWord(s, 4) && InWord(s, 5) && InWord(s, 6) && InWord(s, 7);
    assert InWord(s, 8) && InWord(s, 9) && InWord(s, 10) && InWord(s, 11);
    assert InWord(s, 12) && InWord(s, 13) && InWord(s, 14) && !InWord(s, 15);
    assert InWord(s, 16) && InWord(s, 17) && InWord(s, 18);
  }
}
