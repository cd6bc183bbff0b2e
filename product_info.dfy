/**
 * Title and description of a catalog entry (`generateProductInfo`): the file name
 * loses its extension and any leading category or series words, each word is
 * re-cased, and the description comes from a fixed two-level table.
 */
module ProductInfo {
  import opened Wrappers
  import opened Text
  import opened PathClassifier

  datatype Info = Info(title: string, description: string)

  // ---------------------------------------------------------------------------
  // Extension

  /** What `[^/.]+` matches. */
  predicate IsExtension(ext: string) {
    |ext| > 0 && '.' !in ext && '/' !in ext
  }

  /** Length of the run of characters other than '.' and '/' at the end of `s`. */
  function TailRun(s: string): (n: nat)
    ensures n <= |s|
    ensures forall i :: |s| - n <= i < |s| ==> s[i] != '.' && s[i] != '/'
    ensures n < |s| ==> s[|s| - n - 1] == '.' || s[|s| - n - 1] == '/'
    decreases |s|
  {
    if |s| > 0 && s[|s| - 1] != '.' && s[|s| - 1] != '/' then 1 + TailRun(s[..|s| - 1]) else 0
  }

  /**
   * `s.replace(/\.[^/.]+$/, "")`: a final "." followed by a non-empty extension
   * without '.' or '/' is removed; anything else is left alone.
   */
  function StripExtension(s: string): (r: string)
    ensures r == s || (|r| < |s| && s == r + "." + s[|r| + 1..] && IsExtension(s[|r| + 1..]))
  {
    var n := TailRun(s);
    if 0 < n < |s| && s[|s| - n - 1] == '.' then
      assert s == s[..|s| - n - 1] + "." + s[|s| - n..];
      s[..|s| - n - 1]
    else s
  }

  /** Whenever the name does end in "." and an extension, exactly that is removed. */
  lemma StripExtensionRemoves(base: string, ext: string)
    requires IsExtension(ext)
    ensures StripExtension(base + "." + ext) == base
  {
    var s := base + "." + ext;
    var n := TailRun(s);
    forall i | |base| < i < |s| ensures s[i] != '.' && s[i] != '/' {
      assert s[i] == ext[i - |base| - 1];
    }
    assert s[|base|] == '.';
    assert n == |ext|;
    assert s[..|base|] == base;
  }

  // ---------------------------------------------------------------------------
  // Prefix stripping: the three anchored, case-insensitive regular expressions

  /**
   * Match at the start of `s` of the lower-case words of `phrase`, each compared
   * ASCII-case-insensitively, separated by white-space runs (`\s+`); the result is
   * the length matched.
   */
  function MatchPhrase(s: string, phrase: seq<string>): (r: Option<nat>)
    requires |phrase| > 0
    ensures r.Some? ==> StartsWithCI(s, phrase[0]) && |phrase[0]| <= r.value <= |s|
    decreases |phrase|
  {
    var w := phrase[0];
    if !StartsWithCI(s, w) then None
    else if |phrase| == 1 then Some(|w|)
    else
      var rest := s[|w|..];
      var k := SpaceRun(rest);
      if k == 0 then None
      else match MatchPhrase(rest[k..], phrase[1..])
        case None => None
        case Some(m) => Some(|w| + k + m)
  }

  /** The alternative `phrase` matches at the start of `s` followed by at least `minSpace` white-space characters. */
  predicate AltMatches(s: string, phrase: seq<string>, minSpace: nat)
    requires |phrase| > 0
  {
    var m := MatchPhrase(s, phrase);
    m.Some? && SpaceRun(s[m.value..]) >= minSpace
  }

  /** Length of such a match, the whole trailing white-space run included. */
  function AltEnd(s: string, phrase: seq<string>, minSpace: nat): (n: nat)
    requires |phrase| > 0 && AltMatches(s, phrase, minSpace)
    ensures n <= |s|
  {
    var m := MatchPhrase(s, phrase).value;
    m + SpaceRun(s[m..])
  }

  predicate NonEmptyPhrases(alts: seq<seq<string>>) {
    forall i :: 0 <= i < |alts| ==> |alts[i]| > 0
  }

  /** `^(alt0|alt1|...)\s*` (minSpace 0) or `...\s+` (minSpace 1): the length matched. */
  function MatchFirst(s: string, alts: seq<seq<string>>, minSpace: nat): (r: Option<nat>)
    requires NonEmptyPhrases(alts)
    ensures r.Some? ==> r.value <= |s|
    decreases |alts|
  {
    if |alts| == 0 then None
    else if AltMatches(s, alts[0], minSpace) then Some(AltEnd(s, alts[0], minSpace))
    else MatchFirst(s, alts[1..], minSpace)
  }

  /**
   * Regular-expression alternation: the alternatives are tried in order and the first
   * one that matches wins; there is no match only when none of them matches.
   */
  lemma {:induction false} MatchFirstSpec(s: string, alts: seq<seq<string>>, minSpace: nat)
    requires NonEmptyPhrases(alts)
    ensures var r := MatchFirst(s, alts, minSpace);
      && (r.None? <==> forall i :: 0 <= i < |alts| ==> !AltMatches(s, alts[i], minSpace))
      && (r.Some? ==>
            exists i :: 0 <= i < |alts| && AltMatches(s, alts[i], minSpace)
              && (forall j :: 0 <= j < i ==> !AltMatches(s, alts[j], minSpace))
              && r.value == AltEnd(s, alts[i], minSpace))
    decreases |alts|
  {
    if |alts| > 0 && !AltMatches(s, alts[0], minSpace) {
      var rest := alts[1..];
      MatchFirstSpec(s, rest, minSpace);
      assert forall i :: 1 <= i < |alts| ==> alts[i] == rest[i - 1];
      var r := MatchFirst(s, rest, minSpace);
      if r.Some? {
        var i :| 0 <= i < |rest| && AltMatches(s, rest[i], minSpace)
          && (forall j :: 0 <= j < i ==> !AltMatches(s, rest[j], minSpace))
          && r.value == AltEnd(s, rest[i], minSpace);
        assert forall j :: 0 <= j < i + 1 ==> !AltMatches(s, alts[j], minSpace) by {
          forall j | 0 <= j < i + 1 ensures !AltMatches(s, alts[j], minSpace) {
            if j > 0 { assert alts[j] == rest[j - 1]; }
          }
        }
        assert alts[i + 1] == rest[i];
      }
    }
  }

  /** `plc|hmi|robot|servo|invertor|software|invertors`, in that order. */
  const CategoryWords: seq<seq<string>> :=
    [["plc"], ["hmi"], ["robot"], ["servo"], ["invertor"], ["software"], ["invertors"]]

  /** `iqf|iqr|melsec\s+[qf]|mxf|mxr`, in that order. */
  const SeriesWords: seq<seq<string>> :=
    [["iqf"], ["iqr"], ["melsec", "q"], ["melsec", "f"], ["mxf"], ["mxr"]]

  /** The multi-word category phrases of the third expression, in order. */
  const LongPrefixes: seq<seq<string>> := [
    ["low", "voltage", "power", "distribution"],
    ["integrated", "hmi"],
    ["intergrated", "hmi"],
    ["engineering", "software"],
    ["visualization", "software"],
    ["ac", "servo"]
  ]

  // `.replace(/^(plc|hmi|robot|servo|invertor|software|invertors)\s*/i, "")`
  function StripCategoryWord(s: string): (r: string)
    ensures |r| <= |s| && r == s[|s| - |r|..]
  {
    match MatchFirst(s, CategoryWords, 0)
    case None => s
    case Some(n) => s[n..]
  }

  /** The optional `(plc\s+)` group taken, followed by a series word: the length matched. */
  function SeriesAfterPlc(s: string): (r: Option<nat>)
    ensures r.Some? ==> r.value <= |s|
  {
    if StartsWithCI(s, "plc") && SpaceRun(s[3..]) > 0 then
      var k := 3 + SpaceRun(s[3..]);
      match MatchFirst(s[k..], SeriesWords, 1)
      case None => None
      case Some(n) => Some(k + n)
    else None
  }

  /** `.replace(/^(plc\s+)?(iqf|iqr|melsec\s+[qf]|mxf|mxr)\s+/i, "")`: the group is tried first, then without it. */
  function StripSeries(s: string): (r: string)
    ensures |r| <= |s| && r == s[|s| - |r|..]
  {
    match SeriesAfterPlc(s)
    case Some(n) => s[n..]
    case None =>
      match MatchFirst(s, SeriesWords, 1)
      case None => s
      case Some(n) => s[n..]
  }

  // `.replace(/^(low\s+voltage\s+power\s+distribution|integrated\s+hmi|...|ac\s+servo)\s*/i, "")`
  function StripLongPrefix(s: string): (r: string)
    ensures |r| <= |s| && r == s[|s| - |r|..]
  {
    match MatchFirst(s, LongPrefixes, 0)
    case None => s
    case Some(n) => s[n..]
  }

  /** No leading, trailing or doubled space, and no white space other than ' '. */
  predicate Tidy(s: string) {
    && (forall i :: 0 <= i < |s| && IsSpace(s[i]) ==> s[i] == ' ')
    && (forall i :: 0 <= i < |s| - 1 ==> !(s[i] == ' ' && s[i + 1] == ' '))
    && (s == [] || (s[0] != ' ' && s[|s| - 1] != ' '))
  }

  /** `cleanName`: the prefix-free, white-space-normalised product name. */
  function CleanName(nameWithoutExt: string): (r: string)
    ensures |r| <= |nameWithoutExt|
  {
    Trim(CollapseSpaces(StripLongPrefix(StripSeries(StripCategoryWord(nameWithoutExt)))))
  }

  /** The clean name is tidy, whatever the file name. */
  lemma CleanNameTidy(nameWithoutExt: string)
    ensures Tidy(CleanName(nameWithoutExt))
  {
    TrimCollapsedIsTidy(StripLongPrefix(StripSeries(StripCategoryWord(nameWithoutExt))));
  }

  lemma TrimCollapsedIsTidy(s: string)
    ensures Tidy(Trim(CollapseSpaces(s)))
  {
    var c := CollapseSpaces(s);
    var r := Trim(c);
    var a :| PaddedAt(c, r, a);
    TidySlice(s, r, a);
  }

  /** A slice of a collapsed string that starts and ends on non-space is tidy. */
  lemma TidySlice(s: string, r: string, a: int)
    requires PaddedAt(CollapseSpaces(s), r, a)
    requires r == [] || (!IsSpace(r[0]) && !IsSpace(r[|r| - 1]))
    ensures Tidy(r)
  {
    var c := CollapseSpaces(s);
    forall i | 0 <= i < |r| && IsSpace(r[i]) ensures r[i] == ' ' {
      assert r[i] == c[a + i];
    }
    forall i | 0 <= i < |r| - 1 ensures !(r[i] == ' ' && r[i + 1] == ' ') {
      assert r[i] == c[a + i] && r[i + 1] == c[a + i + 1];
    }
  }

  // ---------------------------------------------------------------------------
  // What the prefix expressions recognise

  /** A phrase of the tables: non-empty words of lower-case ASCII letters. */
  predicate WordList(phrase: seq<string>) {
    && |phrase| > 0
    && forall i :: 0 <= i < |phrase| ==>
         |phrase[i]| > 0 && forall k :: 0 <= k < |phrase[i]| ==> IsLower(phrase[i][k])
  }

  predicate WordLists(alts: seq<seq<string>>) {
    forall i :: 0 <= i < |alts| ==> WordList(alts[i])
  }

  /**
   * `t` is exactly the words of `phrase`, in order and in any letter case, separated
   * by non-empty white-space runs: the text that `w0\s+w1\s+...` matches under the
   * `i` flag.
   */
  ghost predicate PhraseText(t: string, phrase: seq<string>)
    requires |phrase| > 0
    decreases |phrase|
  {
    var w := phrase[0];
    if |phrase| == 1 then Lower(t) == w
    else exists k :: (&& |w| < k <= |t| && Lower(t[..|w|]) == w
                      && (forall i :: |w| <= i < k ==> IsSpace(t[i]))
                      && PhraseText(t[k..], phrase[1..]))
  }

  lemma WordListTail(phrase: seq<string>)
    requires WordList(phrase) && |phrase| > 1
    ensures WordList(phrase[1..])
  {
    assert forall i :: 0 <= i < |phrase| - 1 ==> phrase[1..][i] == phrase[i + 1];
  }

  /** Such a text starts with its first word, and so with a letter. */
  lemma PhraseTextStart(t: string, phrase: seq<string>)
    requires WordList(phrase) && PhraseText(t, phrase)
    ensures |phrase[0]| <= |t| && Lower(t[..|phrase[0]|]) == phrase[0]
    ensures !IsSpace(t[0])
  {
    var w := phrase[0];
    if |phrase| == 1 {
      assert t[..|w|] == t;
    }
    assert Lower(t[..|w|])[0] == ToLower(t[0]) && IsLower(w[0]);
  }

  /** Whatever `MatchPhrase` matches is a text of the phrase. */
  lemma {:induction false} MatchPhraseSound(s: string, phrase: seq<string>)
    requires WordList(phrase)
    ensures MatchPhrase(s, phrase).Some? ==> PhraseText(s[..MatchPhrase(s, phrase).value], phrase)
    decreases |phrase|
  {
    var w := phrase[0];
    if MatchPhrase(s, phrase).Some? && |phrase| > 1 {
      var rest := s[|w|..];
      var k := SpaceRun(rest);
      var u := rest[k..];
      WordListTail(phrase);
      MatchPhraseSound(u, phrase[1..]);
      PhraseTextCons(s, phrase, k, MatchPhrase(u, phrase[1..]).value, MatchPhrase(s, phrase).value);
    } else if MatchPhrase(s, phrase).Some? {
      assert s[..|w|] == s[..MatchPhrase(s, phrase).value];
    }
  }

  /** The first word, a white-space run of `k` and a text of the remaining words of length `m` make a text of the phrase. */
  lemma PhraseTextCons(s: string, phrase: seq<string>, k: nat, m: nat, n: nat)
    requires |phrase| > 1 && StartsWithCI(s, phrase[0]) && 0 < k && SpaceRun(s[|phrase[0]|..]) == k
    requires |phrase[0]| + k + m <= |s| && PhraseText(s[|phrase[0]|..][k..][..m], phrase[1..])
    requires n == |phrase[0]| + k + m
    ensures PhraseText(s[..n], phrase)
  {
    var w := phrase[0];
    var t := s[..n];
    var K := |w| + k;
    SliceOfPrefix(s, |w|, k, m, n);
    RunInPrefix(s, |w|, k, n);
    PhraseTextIntro(t, phrase, K);
  }

  lemma SliceOfPrefix(s: string, a: nat, k: nat, m: nat, n: nat)
    requires n == a + k + m <= |s|
    ensures s[..n][..a] == s[..a]
    ensures s[..n][a + k..] == s[a..][k..][..m]
  {
  }

  lemma RunInPrefix(s: string, a: nat, k: nat, n: nat)
    requires a + k <= n <= |s| && SpaceRun(s[a..]) == k
    ensures forall i :: a <= i < a + k ==> IsSpace(s[..n][i])
  {
    assert forall i :: a <= i < a + k ==> s[..n][i] == s[a..][i - a];
  }

  /** The definition of a text of several words, read forwards. */
  lemma PhraseTextIntro(t: string, phrase: seq<string>, K: nat)
    requires |phrase| > 1 && |phrase[0]| < K <= |t| && Lower(t[..|phrase[0]|]) == phrase[0]
    requires forall i :: |phrase[0]| <= i < K ==> IsSpace(t[i])
    requires PhraseText(t[K..], phrase[1..])
    ensures PhraseText(t, phrase)
  {
  }

  /** The white-space run after the first word of a phrase text ends where the next word starts. */
  lemma GapRun(s: string, a: nat, b: nat)
    requires a < b < |s| && (forall i :: a <= i < b ==> IsSpace(s[i])) && !IsSpace(s[b])
    ensures SpaceRun(s[a..]) == b - a && s[a..][b - a..] == s[b..]
  {
    var rest := s[a..];
    assert forall i :: 0 <= i < b - a ==> rest[i] == s[i + a];
    SpaceRunExact(rest, b - a);
  }

  /** One step of `MatchPhrase`: the first word, a white-space run up to `K`, then the remaining words. */
  lemma MatchPhraseUnfold(s: string, phrase: seq<string>, K: nat, m: nat)
    requires |phrase| > 1 && StartsWithCI(s, phrase[0]) && |phrase[0]| < K <= |s|
    requires SpaceRun(s[|phrase[0]|..]) == K - |phrase[0]|
    requires K <= m && MatchPhrase(s[|phrase[0]|..][K - |phrase[0]|..], phrase[1..]) == Some(m - K)
    ensures MatchPhrase(s, phrase) == Some(m)
  {
  }

  lemma MatchPhraseDrop(s: string, a: nat, K: nat, phrase: seq<string>)
    requires a <= K <= |s| && |phrase| > 0
    ensures MatchPhrase(s[a..][K - a..], phrase) == MatchPhrase(s[K..], phrase)
  {
    assert s[a..][K - a..] == s[K..];
  }

  /** The same step with the remaining words starting at `K`. */
  lemma MatchPhraseStep(s: string, phrase: seq<string>, K: nat, m: nat)
    requires |phrase| > 1 && StartsWithCI(s, phrase[0]) && |phrase[0]| < K <= |s|
    requires SpaceRun(s[|phrase[0]|..]) == K - |phrase[0]|
    requires K <= m && MatchPhrase(s[K..], phrase[1..]) == Some(m - K)
    ensures MatchPhrase(s, phrase) == Some(m)
  {
    MatchPhraseDrop(s, |phrase[0]|, K, phrase[1..]);
    MatchPhraseUnfold(s, phrase, K, m);
  }

  /** A phrase of one word matches a prefix that is that word in any letter case. */
  lemma MatchPhraseWord(s: string, phrase: seq<string>, m: nat)
    requires |phrase| == 1 && m <= |s| && Lower(s[..m]) == phrase[0]
    ensures MatchPhrase(s, phrase) == Some(m)
  {
    assert |phrase[0]| == m;
  }

  /** In a text of a phrase of several words, the position `K` where the second word starts. */
  lemma PhraseGap(s: string, phrase: seq<string>, m: nat) returns (K: nat)
    requires WordList(phrase) && |phrase| > 1 && m <= |s| && PhraseText(s[..m], phrase)
    ensures |phrase[0]| < K < m && StartsWithCI(s, phrase[0])
    ensures (forall i :: |phrase[0]| <= i < K ==> IsSpace(s[i])) && !IsSpace(s[K])
    ensures WordList(phrase[1..]) && PhraseText(s[K..][..m - K], phrase[1..])
  {
    var w := phrase[0];
    var t := s[..m];
    assert s[..|w|] == t[..|w|];
    K :| (&& |w| < K <= |t| && Lower(t[..|w|]) == w
          && (forall i :: |w| <= i < K ==> IsSpace(t[i]))
          && PhraseText(t[K..], phrase[1..]));
    WordListTail(phrase);
    PhraseTextStart(t[K..], phrase[1..]);
    assert forall i :: |w| <= i < K ==> s[i] == t[i];
    assert s[K] == t[K..][0];
    assert t[K..] == s[K..][..m - K];
  }

  /** Whenever a prefix of `s` is a text of the phrase, `MatchPhrase` matches exactly that prefix. */
  lemma {:induction false} MatchPhraseComplete(s: string, phrase: seq<string>, m: nat)
    requires WordList(phrase) && m <= |s| && PhraseText(s[..m], phrase)
    ensures MatchPhrase(s, phrase) == Some(m)
    decreases |phrase|
  {
    if |phrase| > 1 {
      var K := PhraseGap(s, phrase, m);
      GapRun(s, |phrase[0]|, K);
      MatchPhraseComplete(s[K..], phrase[1..], m - K);
      MatchPhraseStep(s, phrase, K, m);
    } else {
      assert Lower(s[..m]) == phrase[0];
      MatchPhraseWord(s, phrase, m);
    }
  }

  /** `MatchPhrase` recognises exactly the texts of the phrase. */
  lemma MatchPhraseIff(s: string, phrase: seq<string>, m: nat)
    requires WordList(phrase)
    ensures MatchPhrase(s, phrase) == Some(m) <==> m <= |s| && PhraseText(s[..m], phrase)
  {
    MatchPhraseSound(s, phrase);
    if m <= |s| && PhraseText(s[..m], phrase) {
      MatchPhraseComplete(s, phrase, m);
    }
  }

  /** No prefix of `s` is a text of any of the first `i` alternatives. */
  ghost predicate NoneBefore(s: string, alts: seq<seq<string>>, i: nat)
    requires i <= |alts| && NonEmptyPhrases(alts)
  {
    forall j, m :: 0 <= j < i && 0 <= m <= |s| ==> !PhraseText(s[..m], alts[j])
  }

  /** An alternative none of whose texts starts `s` does not match. */
  lemma NoAltMatch(s: string, phrase: seq<string>, minSpace: nat)
    requires WordList(phrase) && forall m :: 0 <= m <= |s| ==> !PhraseText(s[..m], phrase)
    ensures !AltMatches(s, phrase, minSpace)
  {
    MatchPhraseSound(s, phrase);
  }

  lemma AltFromParts(s: string, phrase: seq<string>, minSpace: nat, m: nat, n: nat)
    requires |phrase| > 0 && MatchPhrase(s, phrase) == Some(m) && SpaceRun(s[m..]) == n >= minSpace
    ensures AltMatches(s, phrase, minSpace) && AltEnd(s, phrase, minSpace) == m + n
  {
  }

  /** The white-space run that follows `v` in `v + ws + rest` is exactly `ws`. */
  lemma RunAfter(v: string, ws: string, rest: string)
    requires (forall k :: 0 <= k < |ws| ==> IsSpace(ws[k])) && (rest == [] || !IsSpace(rest[0]))
    ensures SpaceRun((v + ws + rest)[|v|..]) == |ws|
  {
    var tail := (v + ws + rest)[|v|..];
    assert tail == ws + rest;
    assert forall k :: 0 <= k < |ws| ==> tail[k] == ws[k];
    assert |ws| < |tail| ==> tail[|ws|] == rest[0];
    SpaceRunExact(tail, |ws|);
  }

  /** A text of the alternative, then a whole white-space run of at least `minSpace` characters. */
  lemma AltMatchesText(v: string, ws: string, rest: string, phrase: seq<string>, minSpace: nat)
    requires WordList(phrase) && PhraseText(v, phrase)
    requires |ws| >= minSpace && (forall k :: 0 <= k < |ws| ==> IsSpace(ws[k]))
    requires rest == [] || !IsSpace(rest[0])
    ensures AltMatches(v + ws + rest, phrase, minSpace)
    ensures AltEnd(v + ws + rest, phrase, minSpace) == |v| + |ws|
  {
    var s := v + ws + rest;
    assert s[..|v|] == v;
    MatchPhraseComplete(s, phrase, |v|);
    RunAfter(v, ws, rest);
    AltFromParts(s, phrase, minSpace, |v|, |ws|);
  }

  lemma NoneBeforeTail(s: string, alts: seq<seq<string>>, i: nat)
    requires 0 < i <= |alts| && NonEmptyPhrases(alts) && NoneBefore(s, alts, i)
    ensures NonEmptyPhrases(alts[1..]) && NoneBefore(s, alts[1..], i - 1)
  {
    assert forall j :: 0 <= j < |alts| - 1 ==> alts[1..][j] == alts[j + 1];
  }

  lemma WordListsTail(alts: seq<seq<string>>)
    requires WordLists(alts) && |alts| > 0
    ensures WordLists(alts[1..]) && NonEmptyPhrases(alts[1..]) && WordList(alts[0])
  {
    assert forall j :: 0 <= j < |alts| - 1 ==> alts[1..][j] == alts[j + 1];
  }

  /** The alternation takes the first alternative that matches when no earlier one can. */
  lemma {:induction false} MatchFirstAt(s: string, alts: seq<seq<string>>, minSpace: nat, i: nat)
    requires WordLists(alts) && NonEmptyPhrases(alts) && i < |alts|
    requires NoneBefore(s, alts, i) && AltMatches(s, alts[i], minSpace)
    ensures MatchFirst(s, alts, minSpace) == Some(AltEnd(s, alts[i], minSpace))
    decreases i
  {
    WordListsTail(alts);
    if i > 0 {
      NoAltMatch(s, alts[0], minSpace);
      NoneBeforeTail(s, alts, i);
      assert alts[1..][i - 1] == alts[i];
      MatchFirstAt(s, alts[1..], minSpace, i - 1);
    }
  }

  /**
   * The alternation removes a text of the i-th alternative and the whole white-space
   * run after it when no earlier alternative's text starts the string.
   */
  lemma MatchFirstText(v: string, ws: string, rest: string, alts: seq<seq<string>>, minSpace: nat, i: nat)
    requires WordLists(alts) && NonEmptyPhrases(alts) && i < |alts| && PhraseText(v, alts[i])
    requires |ws| >= minSpace && (forall k :: 0 <= k < |ws| ==> IsSpace(ws[k])) && (rest == [] || !IsSpace(rest[0]))
    requires NoneBefore(v + ws + rest, alts, i)
    ensures MatchFirst(v + ws + rest, alts, minSpace) == Some(|v| + |ws|)
    ensures (v + ws + rest)[|v| + |ws|..] == rest
  {
    assert WordList(alts[i]);
    AltMatchesText(v, ws, rest, alts[i], minSpace);
    MatchFirstAt(v + ws + rest, alts, minSpace, i);
    DropParts(v, ws, rest);
  }

  lemma DropParts(v: string, ws: string, rest: string)
    ensures (v + ws + rest)[|v| + |ws|..] == rest
  {
  }

  /** The alternation matches nothing when no alternative's text starts `s`. */
  lemma {:induction false} MatchFirstNone(s: string, alts: seq<seq<string>>, minSpace: nat)
    requires WordLists(alts) && NonEmptyPhrases(alts) && NoneBefore(s, alts, |alts|)
    ensures MatchFirst(s, alts, minSpace) == None
    decreases |alts|
  {
    if |alts| > 0 {
      WordListsTail(alts);
      NoAltMatch(s, alts[0], minSpace);
      NoneBeforeTail(s, alts, |alts|);
      MatchFirstNone(s, alts[1..], minSpace);
    }
  }

  // ---------------------------------------------------------------------------
  // What each prefix expression removes

  /** The series alternatives with the optional `plc\s+` group taken. */
  const PlcSeriesWords: seq<seq<string>> :=
    [["plc", "iqf"], ["plc", "iqr"], ["plc", "melsec", "q"], ["plc", "melsec", "f"], ["plc", "mxf"], ["plc", "mxr"]]

  lemma CategoryWordsValid()
    ensures WordLists(CategoryWords) && NonEmptyPhrases(CategoryWords)
  {
    forall j | 0 <= j < |CategoryWords| ensures WordList(CategoryWords[j]) {
      CategoryWordValid(j);
    }
  }

  lemma CategoryWordValid(j: nat)
    requires j < |CategoryWords|
    ensures WordList(CategoryWords[j])
  {
    var phrase := CategoryWords[j];
    if j == 0 {
      assert phrase == ["plc"];
    } else if j == 1 {
      assert phrase == ["hmi"];
    } else if j == 2 {
      assert phrase == ["robot"];
    } else if j == 3 {
      assert phrase == ["servo"];
    } else if j == 4 {
      assert phrase == ["invertor"];
    } else if j == 5 {
      assert phrase == ["software"];
    } else {
      assert phrase == ["invertors"];
    }
  }

  lemma SeriesWordsValid()
    ensures WordLists(SeriesWords) && NonEmptyPhrases(SeriesWords)
    ensures forall j :: 0 <= j < |SeriesWords| ==> SeriesWords[j][0][0] != 'p'
  {
    assert SeriesWords[0] == ["iqf"] && SeriesWords[1] == ["iqr"];
    assert SeriesWords[2] == ["melsec", "q"] && SeriesWords[3] == ["melsec", "f"];
    assert SeriesWords[4] == ["mxf"] && SeriesWords[5] == ["mxr"];
  }

  lemma LongPrefixesValid()
    ensures WordLists(LongPrefixes) && NonEmptyPhrases(LongPrefixes)
  {
    forall j | 0 <= j < |LongPrefixes| ensures WordList(LongPrefixes[j]) {
      LongPrefixValid(j);
    }
  }

  lemma LongPrefixValid(j: nat)
    requires j < |LongPrefixes|
    ensures WordList(LongPrefixes[j])
  {
    var phrase := LongPrefixes[j];
    if j == 0 {
      assert phrase == ["low", "voltage", "power", "distribution"];
    } else if j == 1 {
      assert phrase == ["integrated", "hmi"];
    } else if j == 2 {
      assert phrase == ["intergrated", "hmi"];
    } else if j == 3 {
      assert phrase == ["engineering", "software"];
    } else if j == 4 {
      assert phrase == ["visualization", "software"];
    } else {
      assert phrase == ["ac", "servo"];
    }
  }

  /** Each "plc"-prefixed alternative is "plc" followed by the series alternative of the same index. */
  lemma PlcSeriesWordsShape()
    ensures |PlcSeriesWords| == |SeriesWords| && NonEmptyPhrases(PlcSeriesWords)
    ensures forall j :: 0 <= j < |SeriesWords| ==> PlcSeriesWords[j] == ["plc"] + SeriesWords[j]
  {
  }

  /**
   * A category word in any case, then all the white space after it, is removed,
   * provided no earlier alternative of the expression also starts the name.
   */
  lemma StripCategoryWordRemoves(v: string, ws: string, rest: string, i: nat)
    requires i < |CategoryWords| && PhraseText(v, CategoryWords[i])
    requires (forall k :: 0 <= k < |ws| ==> IsSpace(ws[k])) && (rest == [] || !IsSpace(rest[0]))
    requires NoneBefore(v + ws + rest, CategoryWords, i)
    ensures StripCategoryWord(v + ws + rest) == rest
  {
    CategoryWordsValid();
    MatchFirstText(v, ws, rest, CategoryWords, 0, i);
  }

  /** A name that starts with no category word comes back unchanged. */
  lemma StripCategoryWordKeeps(s: string)
    requires NoneBefore(s, CategoryWords, |CategoryWords|)
    ensures StripCategoryWord(s) == s
  {
    CategoryWordsValid();
    MatchFirstNone(s, CategoryWords, 0);
  }

  /** A long category phrase in any case, then all the white space after it, is removed. */
  lemma StripLongPrefixRemoves(v: string, ws: string, rest: string, i: nat)
    requires i < |LongPrefixes| && PhraseText(v, LongPrefixes[i])
    requires (forall k :: 0 <= k < |ws| ==> IsSpace(ws[k])) && (rest == [] || !IsSpace(rest[0]))
    requires NoneBefore(v + ws + rest, LongPrefixes, i)
    ensures StripLongPrefix(v + ws + rest) == rest
  {
    LongPrefixesValid();
    MatchFirstText(v, ws, rest, LongPrefixes, 0, i);
  }

  /** A name that starts with no long category phrase comes back unchanged. */
  lemma StripLongPrefixKeeps(s: string)
    requires NoneBefore(s, LongPrefixes, |LongPrefixes|)
    ensures StripLongPrefix(s) == s
  {
    LongPrefixesValid();
    MatchFirstNone(s, LongPrefixes, 0);
  }

  /** A name that starts with a series word does not start with "plc". */
  lemma SeriesTextNotPlc(s: string, i: nat)
    requires i < |SeriesWords| && |s| > 0
    requires exists m :: 0 <= m <= |s| && PhraseText(s[..m], SeriesWords[i])
    ensures SeriesAfterPlc(s) == None
  {
    SeriesWordsValid();
    var m :| 0 <= m <= |s| && PhraseText(s[..m], SeriesWords[i]);
    TextFirstLetter(s[..m], SeriesWords[i]);
    assert s[..m][0] == s[0];
    NotPlcStart(s);
  }

  /** A text of a phrase starts with the phrase's first letter, in some case. */
  lemma TextFirstLetter(t: string, phrase: seq<string>)
    requires WordList(phrase) && PhraseText(t, phrase)
    ensures |t| > 0 && ToLower(t[0]) == phrase[0][0]
  {
    PhraseTextStart(t, phrase);
    assert Lower(t[..|phrase[0]|])[0] == ToLower(t[0]);
  }

  /** A name whose first letter is not 'p' or 'P' has no `(plc\s+)` group. */
  lemma NotPlcStart(s: string)
    requires |s| > 0 && ToLower(s[0]) != 'p'
    ensures SeriesAfterPlc(s) == None
  {
    NotPlcPrefix(s);
  }

  lemma NotPlcPrefix(s: string)
    requires |s| > 0 && ToLower(s[0]) != 'p'
    ensures !StartsWithCI(s, "plc")
  {
    if |s| >= 3 {
      assert Lower(s[..3])[0] == ToLower(s[0]);
    }
  }

  /**
   * A series word in any case, then a white-space run of at least one character,
   * is removed, provided no earlier series alternative also starts the name.
   */
  lemma StripSeriesRemoves(v: string, ws: string, rest: string, i: nat)
    requires i < |SeriesWords| && PhraseText(v, SeriesWords[i])
    requires |ws| >= 1 && (forall k :: 0 <= k < |ws| ==> IsSpace(ws[k])) && (rest == [] || !IsSpace(rest[0]))
    requires NoneBefore(v + ws + rest, SeriesWords, i)
    ensures StripSeries(v + ws + rest) == rest
  {
    SeriesWordsValid();
    MatchFirstText(v, ws, rest, SeriesWords, 1, i);
    var s := v + ws + rest;
    PhraseTextStart(v, SeriesWords[i]);
    assert s[..|v|] == v;
    SeriesTextNotPlc(s, i);
  }

  /** The `(plc\s+)` group followed by a series alternative that matches at `K`. */
  lemma SeriesAfterPlcParts(s: string, K: nat, n: nat)
    requires StartsWithCI(s, "plc") && K == 3 + SpaceRun(s[3..]) && K > 3
    requires MatchFirst(s[K..], SeriesWords, 1) == Some(n)
    ensures StripSeries(s) == s[K..][n..]
  {
    assert s[K + n..] == s[K..][n..];
  }

  /** "plc" in any case and white space before the series word are removed along with it. */
  lemma StripSeriesAfterPlc(p: string, gap: string, v: string, ws: string, rest: string, i: nat)
    requires Lower(p) == "plc" && |gap| >= 1 && forall k :: 0 <= k < |gap| ==> IsSpace(gap[k])
    requires i < |SeriesWords| && PhraseText(v, SeriesWords[i])
    requires |ws| >= 1 && (forall k :: 0 <= k < |ws| ==> IsSpace(ws[k])) && (rest == [] || !IsSpace(rest[0]))
    requires NoneBefore(v + ws + rest, SeriesWords, i)
    ensures StripSeries(p + gap + (v + ws + rest)) == rest
  {
    SeriesTail(v, ws, rest, i);
    StripSeriesPlcTail(p, gap, v + ws + rest, |v| + |ws|, rest);
  }

  /** A series text and the white space after it: what the series alternation matches, and where it ends. */
  lemma SeriesTail(v: string, ws: string, rest: string, i: nat)
    requires i < |SeriesWords| && PhraseText(v, SeriesWords[i])
    requires |ws| >= 1 && (forall k :: 0 <= k < |ws| ==> IsSpace(ws[k])) && (rest == [] || !IsSpace(rest[0]))
    requires NoneBefore(v + ws + rest, SeriesWords, i)
    ensures MatchFirst(v + ws + rest, SeriesWords, 1) == Some(|v| + |ws|)
    ensures (v + ws + rest)[|v| + |ws|..] == rest
    ensures |v + ws + rest| > 0 && !IsSpace((v + ws + rest)[0])
  {
    SeriesWordsValid();
    MatchFirstText(v, ws, rest, SeriesWords, 1, i);
    PhraseTextStart(v, SeriesWords[i]);
  }

  /** "plc", a white-space run and a tail whose series match has length `n`: what is left is the tail after it. */
  lemma StripSeriesPlcTail(p: string, gap: string, tail: string, n: nat, rest: string)
    requires Lower(p) == "plc" && |gap| >= 1 && forall k :: 0 <= k < |gap| ==> IsSpace(gap[k])
    requires |tail| > 0 && !IsSpace(tail[0]) && MatchFirst(tail, SeriesWords, 1) == Some(n)
    requires n <= |tail| && tail[n..] == rest
    ensures StripSeries(p + gap + tail) == rest
  {
    PlcGroup(p, gap, tail);
    SeriesAfterPlcParts(p + gap + tail, 3 + |gap|, n);
  }

  /** After "plc" and a white-space run, the group ends where `tail` starts. */
  lemma PlcGroup(p: string, gap: string, tail: string)
    requires Lower(p) == "plc" && |gap| >= 1 && forall k :: 0 <= k < |gap| ==> IsSpace(gap[k])
    requires |tail| > 0 && !IsSpace(tail[0])
    ensures var s := p + gap + tail;
      StartsWithCI(s, "plc") && SpaceRun(s[3..]) == |gap| && s[3 + |gap|..] == tail
  {
    var s := p + gap + tail;
    assert |p| == 3 && s[..3] == p;
    RunAfter(p, gap, tail);
  }

  /** A series text after "plc" and white space is a text of the matching "plc"-prefixed phrase. */
  lemma PlcSeriesLift(s: string, j: nat, m: nat)
    requires j < |SeriesWords| && StartsWithCI(s, "plc") && SpaceRun(s[3..]) > 0
    requires 3 + SpaceRun(s[3..]) + m <= |s|
    ensures var K := 3 + SpaceRun(s[3..]);
      PhraseText(s[K..][..m], SeriesWords[j]) ==> PhraseText(s[..K + m], PlcSeriesWords[j])
  {
    PlcSeriesWordsShape();
    var K := 3 + SpaceRun(s[3..]);
    var t := s[..K + m];
    if PhraseText(s[K..][..m], SeriesWords[j]) {
      assert t[..3] == s[..3] && t[K..] == s[K..][..m];
      assert forall i :: 3 <= i < K ==> t[i] == s[3..][i - 3];
      var phrase := PlcSeriesWords[j];
      assert phrase[0] == "plc" && phrase[1..] == SeriesWords[j];
      assert 3 < K <= |t| && Lower(t[..3]) == "plc" && PhraseText(t[K..], phrase[1..]);
    }
  }

  /** Without any series text at its start, with or without "plc", a name comes back unchanged. */
  lemma StripSeriesKeeps(s: string)
    requires NoneBefore(s, PlcSeriesWords, |PlcSeriesWords|) && NoneBefore(s, SeriesWords, |SeriesWords|)
    ensures StripSeries(s) == s
  {
    SeriesWordsValid();
    PlcSeriesWordsShape();
    if StartsWithCI(s, "plc") && SpaceRun(s[3..]) > 0 {
      var K := 3 + SpaceRun(s[3..]);
      forall j, m | 0 <= j < |SeriesWords| && 0 <= m <= |s[K..]|
        ensures !PhraseText(s[K..][..m], SeriesWords[j])
      {
        PlcSeriesLift(s, j, m);
      }
      MatchFirstNone(s[K..], SeriesWords, 1);
    }
    MatchFirstNone(s, SeriesWords, 1);
  }

  /**
   * No text of any alternative at the start of `s` is followed by white space: the
   * `\s+` after the series words can then not match.
   */
  ghost predicate NoSpaceAfterText(s: string, alts: seq<seq<string>>)
    requires NonEmptyPhrases(alts)
  {
    forall j, m :: 0 <= j < |alts| && 0 <= m <= |s| && PhraseText(s[..m], alts[j]) ==> SpaceRun(s[m..]) == 0
  }

  /**
   * A series word that starts the name but is not followed by white space ("iQF-FX5U",
   * "iQR" alone, "PLC iQF" at the end) is kept: unlike the category expressions, the
   * series expression demands `\s+` after the word.
   */
  lemma StripSeriesNeedsSpace(s: string)
    requires NoSpaceAfterText(s, SeriesWords) && NoSpaceAfterText(s, PlcSeriesWords)
    ensures StripSeries(s) == s
  {
    SeriesWordsValid();
    if StartsWithCI(s, "plc") && SpaceRun(s[3..]) > 0 {
      var K := 3 + SpaceRun(s[3..]);
      PlcTextsUnspaced(s, K);
      UnspacedNoMatch(s[K..], SeriesWords);
    }
    UnspacedNoMatch(s, SeriesWords);
  }

  /** What follows "plc" and its white space inherits the property from the "plc"-prefixed phrases. */
  lemma PlcTextsUnspaced(s: string, K: nat)
    requires StartsWithCI(s, "plc") && SpaceRun(s[3..]) > 0 && K == 3 + SpaceRun(s[3..])
    requires NoSpaceAfterText(s, PlcSeriesWords)
    ensures NoSpaceAfterText(s[K..], SeriesWords)
  {
    forall j, m | 0 <= j < |SeriesWords| && 0 <= m <= |s[K..]| && PhraseText(s[K..][..m], SeriesWords[j])
      ensures SpaceRun(s[K..][m..]) == 0
    {
      PlcSeriesLift(s, j, m);
      assert s[K..][m..] == s[K + m..];
    }
  }

  /** With no alternative's text followed by white space, the `\s+` alternation does not match. */
  lemma UnspacedNoMatch(s: string, alts: seq<seq<string>>)
    requires WordLists(alts) && NonEmptyPhrases(alts) && NoSpaceAfterText(s, alts)
    ensures MatchFirst(s, alts, 1) == None
  {
    forall i | 0 <= i < |alts| ensures !AltMatches(s, alts[i], 1) {
      MatchPhraseSound(s, alts[i]);
    }
    MatchFirstSpec(s, alts, 1);
  }

  /**
   * A name without any of the prefixes only has its white space normalised, so it
   * keeps all its other characters, in order.
   */
  lemma CleanNameUnprefixed(s: string)
    requires NoneBefore(s, CategoryWords, |CategoryWords|)
    requires NoneBefore(s, PlcSeriesWords, |PlcSeriesWords|) && NoneBefore(s, SeriesWords, |SeriesWords|)
    requires NoneBefore(s, LongPrefixes, |LongPrefixes|)
    ensures CleanName(s) == Trim(CollapseSpaces(s))
    ensures NonSpace(CleanName(s)) == NonSpace(s)
  {
    StripCategoryWordKeeps(s);
    StripSeriesKeeps(s);
    StripLongPrefixKeeps(s);
    NonSpaceTrim(CollapseSpaces(s));
    CollapseKeepsNonSpace(s);
  }

  // ---------------------------------------------------------------------------
  // formatProductName

  predicate HasDigit(w: string) {
    exists i | 0 <= i < |w| :: IsDigit(w[i])
  }

  predicate AllLetters(s: string) {
    forall i | 0 <= i < |s| :: IsLetter(s[i])
  }

  /** `/^[a-z]+-[A-Z0-9]+/i` */
  predicate LetterHyphenCode(w: string) {
    exists k | 1 <= k < |w| - 1 :: AllLetters(w[..k]) && w[k] == '-' && IsAlnum(w[k + 1])
  }

  /** `/^[a-z]{1,3}[A-Z0-9]+/i` */
  predicate ShortPrefixCode(w: string) {
    exists k | 1 <= k <= 3 && k < |w| :: AllLetters(w[..k]) && IsAlnum(w[k])
  }

  /** `/^[A-Z]{2,}$/` */
  predicate Acronym(w: string) {
    |w| >= 2 && forall i | 0 <= i < |w| :: IsUpper(w[i])
  }

  /** `/^[a-z][A-Z]+/` */
  predicate MixedCaseCode(w: string) {
    |w| >= 2 && IsLower(w[0]) && IsUpper(w[1])
  }

  /** `word.charAt(0).toUpperCase() + word.slice(1).toLowerCase()` */
  function Capitalize(w: string): (r: string)
    ensures CaseVariant(r, w)
    ensures |r| > 0 ==> !IsLower(r[0])
    ensures forall i :: 1 <= i < |r| ==> !IsUpper(r[i])
  {
    if w == "" then ""
    else
      var tail := Lower(w[1..]);
      CaseVariantConcat([ToUpper(w[0])], [w[0]], tail, w[1..]);
      assert [w[0]] + w[1..] == w;
      assert forall i :: 1 <= i < 1 + |tail| ==> ([ToUpper(w[0])] + tail)[i] == tail[i - 1];
      [ToUpper(w[0])] + tail
  }

  /** The per-word step of `formatProductName`. */
  function FormatWord(w: string): (r: string)
    ensures CaseVariant(r, w)
  {
    if HasDigit(w) || LetterHyphenCode(w) || ShortPrefixCode(w) then Upper(w)
    else if Acronym(w) then w
    else if MixedCaseCode(w) then w
    else Capitalize(w)
  }

  /**
   * What the three upper-casing tests amount to: a digit anywhere, or a letter
   * followed by a letter or digit, or by '-' and a letter or digit.
   */
  predicate CodeLike(w: string) {
    || HasDigit(w)
    || (|w| >= 2 && IsLetter(w[0]) && IsAlnum(w[1]))
    || (|w| >= 3 && IsLetter(w[0]) && w[1] == '-' && IsAlnum(w[2]))
  }

  /**
   * Each word is either upper-cased or capitalised: `/^[a-z]{1,3}[A-Z0-9]+/i` ignores
   * case, so it already accepts every word the acronym and mixed-case tests would, and
   * those two branches never decide.
   */
  lemma FormatWordCases(w: string)
    ensures FormatWord(w) == if CodeLike(w) then Upper(w) else Capitalize(w)
  {
    if ShortPrefixCode(w) {
      var k :| 1 <= k <= 3 && k < |w| && AllLetters(w[..k]) && IsAlnum(w[k]);
      assert IsLetter(w[..k][0]);
      if k > 1 { assert IsLetter(w[..k][1]); }
    }
    if LetterHyphenCode(w) {
      var k :| 1 <= k < |w| - 1 && AllLetters(w[..k]) && w[k] == '-' && IsAlnum(w[k + 1]);
      assert IsLetter(w[..k][0]);
      if k > 1 { assert IsLetter(w[..k][1]); }
    }
    if |w| >= 2 && IsLetter(w[0]) && IsAlnum(w[1]) {
      assert AllLetters(w[..1]);
      assert ShortPrefixCode(w);
    }
    if |w| >= 3 && IsLetter(w[0]) && w[1] == '-' && IsAlnum(w[2]) {
      assert AllLetters(w[..1]);
      assert LetterHyphenCode(w);
    }
  }

  /** Any word with a digit, or starting with two letters, comes out fully upper-cased. */
  lemma FormatWordUpper(w: string)
    requires HasDigit(w) || (|w| >= 2 && IsLetter(w[0]) && IsLetter(w[1]))
    ensures FormatWord(w) == Upper(w)
  {
    FormatWordCases(w);
  }

  /** Each word formatted on its own. */
  function FormatWords(words: seq<string>): seq<string> {
    seq(|words|, i requires 0 <= i < |words| => FormatWord(words[i]))
  }

  /**
   * `formatProductName`: split on ' ', format each word, join with ' '. The result
   * differs from the name only in letter case, keeps every space where it was, and
   * its words are the name's words, each formatted.
   */
  function FormatName(name: string): (r: string)
    ensures CaseVariant(r, name)
    ensures forall i :: 0 <= i < |name| ==> (r[i] == ' ' <==> name[i] == ' ')
    ensures name != "" ==> Split(r, ' ') == FormatWords(Split(name, ' '))
  {
    if name == "" then name
    else
      var words := Split(name, ' ');
      var formatted := FormatWords(words);
      JoinCaseVariant(formatted, words, ' ');
      JoinSplit(name, ' ');
      WordsStaySpaceFree(formatted, words);
      SplitJoin(formatted, ' ');
      SpacesKept(Join(formatted, ' '), name);
      Join(formatted, ' ')
  }

  lemma WordsStaySpaceFree(formatted: seq<string>, words: seq<string>)
    requires |formatted| == |words| && forall i :: 0 <= i < |words| ==> ' ' !in words[i]
    requires forall i :: 0 <= i < |words| ==> CaseVariant(formatted[i], words[i])
    ensures forall i :: 0 <= i < |formatted| ==> ' ' !in formatted[i]
  {
    forall i | 0 <= i < |formatted| ensures ' ' !in formatted[i] {
      SpacesKept(formatted[i], words[i]);
      assert forall k :: 0 <= k < |words[i]| ==> words[i][k] != ' ';
    }
  }

  /**
   * `cleanName ? formatProductName(cleanName) : formatProductName(nameWithoutExt)`: the
   * formatted clean name, or the formatted bare name when the clean name is empty.
   */
  function Title(cleanName: string, nameWithoutExt: string): (r: string)
    ensures CaseVariant(r, if cleanName != "" then cleanName else nameWithoutExt)
    ensures r == "" <==> cleanName == "" && nameWithoutExt == ""
  {
    if cleanName != "" then FormatName(cleanName) else FormatName(nameWithoutExt)
  }

  // ---------------------------------------------------------------------------
  // Descriptions

  const GenericDescription: string := "Industrial automation solution designed for reliability and performance."

  const IqfText: string := "Compact and versatile iQ-F series PLC offering high-speed processing and extensive I/O capabilities for mid-range automation applications."
  const IqrText: string := "Advanced iQ-R series PLC with modular architecture, supporting complex control systems with high-performance CPUs and extensive module options."
  const MelsecQText: string := "High-performance MELSEC Q Series PLC designed for large-scale automation systems with advanced networking and motion control capabilities."
  const MelsecFText: string := "Cost-effective MELSEC F Series PLC providing reliable control for small to medium-scale automation applications with compact design."
  const MxfText: string := "Next-generation MXF Series PLC featuring advanced processing power and integrated safety functions for modern industrial automation."
  const MxrText: string := "Scalable MXR Series PLC offering flexible configuration options and robust performance for diverse automation requirements."
  const PlcText: string := "Programmable Logic Controller designed for reliable industrial automation with robust communication and control capabilities."
  const HmiText: string := "Human-Machine Interface with intuitive touchscreen display for seamless operator interaction and real-time system monitoring."
  const RobotText: string := "Industrial robot system designed for precision automation, assembly, and material handling applications with high repeatability."
  const InvertorText: string := "Variable frequency drive for precise motor control, energy efficiency, and smooth operation across various industrial applications."
  const ServoText: string := "High-performance AC servo motor system providing exceptional torque control and precise positioning for automation applications."
  const SoftwareText: string := "Engineering and visualization software suite for system design, programming, monitoring, and configuration of automation systems."
  const IntegratedHmiText: string := "Integrated HMI solution combining display and control functions in a compact design for space-efficient automation applications."
  const PowerText: string := "Low voltage power distribution products including circuit breakers and protection devices for safe and reliable electrical systems."

  /** The description table, by category and then by key. */
  const Descriptions: map<string, map<string, string>> := map[
    "PLC" := map[
      "iQF" := IqfText,
      "iQR" := IqrText,
      "MELSEC Q Series" := MelsecQText,
      "MELSEC F Series" := MelsecFText,
      "MXF Series" := MxfText,
      "MXR Series" := MxrText,
      "default" := PlcText
    ],
    "HMI" := map["default" := HmiText],
    "Robot" := map["default" := RobotText],
    "Invertors" := map["default" := InvertorText],
    "AC Servo" := map["default" := ServoText],
    "Software" := map["default" := SoftwareText],
    "Integrated HMI" := map["default" := IntegratedHmiText],
    "Low Voltage Power Distribution" := map["default" := PowerText]
  ]

  /** `descriptions[category]?.[key]` is a non-empty string. */
  predicate HasEntry(category: string, key: string) {
    category in Descriptions && key in Descriptions[category] && Descriptions[category][key] != ""
  }

  /**
   * The key a subcategory is looked up by: `subcategory.replace("PLC ", "")`, which
   * removes the first "PLC " only, wherever it is.
   */
  function SubcategoryKey(subcategory: string): (k: string)
    ensures StartsWith(subcategory, "PLC ") ==> k == subcategory[4..]
    ensures !Contains(subcategory, "PLC ") ==> k == subcategory
    ensures Contains(subcategory, "PLC ") ==> |k| == |subcategory| - 4
  {
    var p := "PLC ";
    assert StartsWith(subcategory, p) ==> ContainsAt(subcategory, p, 0);
    ReplaceFirst(subcategory, p, "")
  }

  /** The description chosen for a product. */
  function Describe(category: string, subcategory: Option<string>, cleanName: string): (d: string)
    ensures d != ""
  {
    var base := if HasEntry(category, "default") then Descriptions[category]["default"] else GenericDescription;
    if subcategory.Some? && subcategory.value != "" && HasEntry(category, SubcategoryKey(subcategory.value)) then
      Descriptions[category][SubcategoryKey(subcategory.value)]
    else if HasEntry(category, Lower(cleanName)) then
      Descriptions[category][Lower(cleanName)]
    else base
  }

  /** The description keys of the six PLC subcategories, in the same order. */
  const SeriesKeys: seq<string> :=
    ["iQF", "iQR", "MELSEC Q Series", "MELSEC F Series", "MXF Series", "MXR Series"]

  /** Removing "PLC " from a PLC subcategory gives its series key. */
  lemma PlcSubcategoryKey(k: nat)
    requires k < |PlcSubcategories|
    ensures SubcategoryKey(PlcSubcategories[k]) == SeriesKeys[k]
  {
    var s := PlcSubcategories[k];
    assert s[..4] == "PLC ";
    assert s[4..] == SeriesKeys[k];
  }

  /** Every series key has a PLC entry of its own. */
  lemma SeriesEntries()
    ensures forall k :: 0 <= k < |SeriesKeys| ==> HasEntry("PLC", SeriesKeys[k])
  {
  }

  /** Every PLC subcategory has its own entry once "PLC " is removed, and gets it. */
  lemma DescribePlcSubcategory(k: nat, cleanName: string)
    requires k < |PlcSubcategories|
    ensures SubcategoryKey(PlcSubcategories[k]) == SeriesKeys[k]
    ensures Describe("PLC", Some(PlcSubcategories[k]), cleanName) == Descriptions["PLC"][SeriesKeys[k]]
  {
    PlcSubcategoryKey(k);
    SeriesEntries();
  }

  /** A category outside the table gets the generic description. */
  lemma DescribeUnknownCategory(category: string, subcategory: Option<string>, cleanName: string)
    requires category !in Descriptions
    ensures Describe(category, subcategory, cleanName) == GenericDescription
  {
  }

  /**
   * Without a subcategory entry, a category in the table gets its default text: the
   * lower-cased clean name can only hit the "default" key, since every other key
   * holds an upper-case letter.
   */
  lemma DescribeCategoryDefault(category: string, subcategory: Option<string>, cleanName: string)
    requires category in Descriptions
    requires subcategory.None? || !HasEntry(category, SubcategoryKey(subcategory.value))
    ensures Describe(category, subcategory, cleanName) == Descriptions[category]["default"]
  {
    LowerNotSeriesKey(cleanName);
    DescriptionKeys(category);
  }

  /** A lower-cased string is never a series key: each of those has an upper-case second letter. */
  lemma LowerNotSeriesKey(s: string)
    ensures Lower(s) !in SeriesKeys
  {
    var l := Lower(s);
    forall k | 0 <= k < |SeriesKeys| ensures l != SeriesKeys[k] {
      assert |SeriesKeys[k]| > 1 && IsUpper(SeriesKeys[k][1]);
      if |l| > 1 {
        assert !IsUpper(l[1]);
      }
    }
  }

  /** The table's keys are the series keys (under "PLC") and "default". */
  lemma DescriptionKeys(category: string)
    requires category in Descriptions
    ensures forall key :: key in Descriptions[category] ==> key == "default" || key in SeriesKeys
  {
  }

  // ---------------------------------------------------------------------------
  // generateProductInfo

  /** `generateProductInfo(filename, category, subcategory)`. */
  function GenerateProductInfo(filename: string, category: string, subcategory: Option<string>): (info: Info)
    ensures info.description != ""
  {
    var nameWithoutExt := StripExtension(filename);
    var cleanName := CleanName(nameWithoutExt);
    Info(Title(cleanName, nameWithoutExt), Describe(category, subcategory, cleanName))
  }

  /**
   * The title is empty exactly when the file name is empty once its extension is
   * removed (".png", say); otherwise it has the clean name's length, or the bare
   * name's when nothing is left after the prefixes are removed.
   */
  lemma TitleEmptyIff(filename: string, category: string, subcategory: Option<string>)
    ensures GenerateProductInfo(filename, category, subcategory).title == "" <==> StripExtension(filename) == ""
  {
    var n := StripExtension(filename);
    var c := CleanName(n);
    assert |c| <= |n|;
  }

  /** The title is a re-cased copy of the clean name, or of the bare name when that is empty. */
  lemma TitleShape(filename: string, category: string, subcategory: Option<string>)
    ensures var n := StripExtension(filename);
      var c := CleanName(n);
      CaseVariant(GenerateProductInfo(filename, category, subcategory).title, if c != "" then c else n)
  {
  }
}
