/**
 * Character and string helpers with the meaning the site's TypeScript gives them.
 * White space is JavaScript's `\s` class, which is also the set `String.prototype.trim`
 * removes; case mapping (`toLowerCase`, `toUpperCase`, the `i` flag of a regular
 * expression) is restricted to the ASCII letters.
 */
module Text {

  /** JavaScript white space and line terminators. */
  predicate IsSpace(c: char) {
    || c == ' ' || c == '\t' || c == '\n' || c == '\U{B}' || c == '\U{C}' || c == '\r'
    || c == '\U{A0}' || c == '\U{1680}' || ('\U{2000}' <= c <= '\U{200A}')
    || c == '\U{2028}' || c == '\U{2029}' || c == '\U{202F}' || c == '\U{205F}'
    || c == '\U{3000}' || c == '\U{FEFF}'
  }

  predicate IsUpper(c: char) { 'A' <= c <= 'Z' }
  predicate IsLower(c: char) { 'a' <= c <= 'z' }
  predicate IsLetter(c: char) { IsUpper(c) || IsLower(c) }
  predicate IsDigit(c: char) { '0' <= c <= '9' }
  predicate IsAlnum(c: char) { IsLetter(c) || IsDigit(c) }

  function ToLower(c: char): (r: char)
    ensures !IsUpper(r)
    ensures IsLetter(r) <==> IsLetter(c)
    ensures !IsUpper(c) ==> r == c
  {
    if IsUpper(c) then (c as int + 32) as char else c
  }

  function ToUpper(c: char): (r: char)
    ensures !IsLower(r)
    ensures ToLower(r) == ToLower(c)
    ensures !IsLower(c) ==> r == c
  {
    if IsLower(c) then (c as int - 32) as char else c
  }

  /** `a` and `b` differ at most in the case of ASCII letters. */
  predicate CaseVariant(a: string, b: string) {
    |a| == |b| && forall i :: 0 <= i < |a| ==> ToLower(a[i]) == ToLower(b[i])
  }

  function Lower(s: string): (r: string)
    ensures CaseVariant(r, s)
    ensures forall i :: 0 <= i < |r| ==> !IsUpper(r[i])
  {
    seq(|s|, i requires 0 <= i < |s| => ToLower(s[i]))
  }

  function Upper(s: string): (r: string)
    ensures CaseVariant(r, s)
    ensures forall i :: 0 <= i < |r| ==> !IsLower(r[i])
  {
    seq(|s|, i requires 0 <= i < |s| => ToUpper(s[i]))
  }

  lemma CaseVariantConcat(a: string, b: string, c: string, d: string)
    requires CaseVariant(a, b) && CaseVariant(c, d)
    ensures CaseVariant(a + c, b + d)
  {
    forall i | 0 <= i < |a + c| ensures ToLower((a + c)[i]) == ToLower((b + d)[i]) {
      if i >= |a| {
        assert (a + c)[i] == c[i - |a|] && (b + d)[i] == d[i - |a|];
      }
    }
  }

  /** Re-casing never creates or removes a space. */
  lemma SpacesKept(a: string, b: string)
    requires CaseVariant(a, b)
    ensures forall i :: 0 <= i < |a| ==> (a[i] == ' ' <==> b[i] == ' ')
  {
    forall i | 0 <= i < |a| ensures a[i] == ' ' <==> b[i] == ' ' {
      assert ToLower(a[i]) == ToLower(b[i]);
    }
  }

  predicate StartsWith(s: string, p: string) {
    |p| <= |s| && s[..|p|] == p
  }

  /** `s.startsWith(w)` under ASCII case folding, for a lower-case word `w`. */
  predicate StartsWithCI(s: string, w: string) {
    |w| <= |s| && Lower(s[..|w|]) == w
  }

  /** `p` occurs in `s` at index `i`. */
  predicate ContainsAt(s: string, p: string, i: int) {
    0 <= i && i + |p| <= |s| && s[i..i + |p|] == p
  }

  /** `s.includes(p)`: `p` occurs somewhere in `s`. */
  predicate Contains(s: string, p: string)
    ensures Contains(s, p) <==> exists i :: ContainsAt(s, p, i)
    decreases |s|
  {
    if StartsWith(s, p) then
      assert ContainsAt(s, p, 0);
      true
    else if |s| == 0 then false
    else
      ContainsShift(s, p);
      Contains(s[1..], p)
  }

  lemma ContainsShift(s: string, p: string)
    requires |s| > 0
    ensures forall i :: 0 < i ==> (ContainsAt(s, p, i) <==> ContainsAt(s[1..], p, i - 1))
    ensures forall j :: ContainsAt(s[1..], p, j) ==> ContainsAt(s, p, j + 1)
  {
    forall i | 0 < i ensures ContainsAt(s, p, i) <==> ContainsAt(s[1..], p, i - 1) {
      if i + |p| <= |s| {
        var u, v := s[i..i + |p|], s[1..][i - 1..i - 1 + |p|];
        assert forall k :: 0 <= k < |p| ==> u[k] == v[k];
      }
    }
    forall j | ContainsAt(s[1..], p, j) ensures ContainsAt(s, p, j + 1) {
      var u, v := s[j + 1..j + 1 + |p|], s[1..][j..j + |p|];
      assert forall k :: 0 <= k < |p| ==> u[k] == v[k];
    }
  }

  lemma {:induction false} ContainsAtImpliesContains(s: string, p: string, i: int)
    requires ContainsAt(s, p, i)
    ensures Contains(s, p)
    decreases i
  {
    if i > 0 {
      assert s[1..][i - 1..i - 1 + |p|] == s[i..i + |p|];
      ContainsAtImpliesContains(s[1..], p, i - 1);
    }
  }

  lemma {:induction false} ContainsWitness(s: string, p: string) returns (i: nat)
    requires Contains(s, p)
    ensures ContainsAt(s, p, i)
    decreases |s|
  {
    if StartsWith(s, p) {
      i := 0;
    } else {
      var j := ContainsWitness(s[1..], p);
      assert s[1..][j..j + |p|] == s[j + 1..j + 1 + |p|];
      i := j + 1;
    }
  }

  /** A pattern whose first character does not occur in `s` does not occur in `s`. */
  lemma {:induction false} NotContainsFirstChar(s: string, p: string)
    requires |p| > 0 && p[0] !in s
    ensures !Contains(s, p)
    decreases |s|
  {
    if |s| > 0 {
      assert s[0] != p[0];
      assert s[1..] == s[1..] && forall c :: c in s[1..] ==> c in s;
      NotContainsFirstChar(s[1..], p);
    }
  }

  /** An occurrence of an occurrence is an occurrence. */
  lemma ContainsTransitive(s: string, t: string, u: string)
    requires Contains(s, t) && Contains(t, u)
    ensures Contains(s, u)
  {
    var i := ContainsWitness(s, t);
    var j := ContainsWitness(t, u);
    forall k | 0 <= k < |u| ensures s[i + j + k] == u[k] {
      assert t[j + k] == u[k];
      assert s[i + (j + k)] == t[j + k];
    }
    assert s[i + j..i + j + |u|] == u;
    ContainsAtImpliesContains(s, u, i + j);
  }

  /** Length of the white-space run at the start of `s` (what a greedy `^\s*` consumes). */
  function SpaceRun(s: string): (n: nat)
    ensures n <= |s|
    ensures forall i :: 0 <= i < n ==> IsSpace(s[i])
    ensures n < |s| ==> !IsSpace(s[n])
    decreases |s|
  {
    if |s| > 0 && IsSpace(s[0]) then 1 + SpaceRun(s[1..]) else 0
  }

  /** A prefix of `n` white-space characters followed by a non-space (or the end) is the run. */
  lemma SpaceRunExact(s: string, n: nat)
    requires n <= |s| && (forall i :: 0 <= i < n ==> IsSpace(s[i])) && (n == |s| || !IsSpace(s[n]))
    ensures SpaceRun(s) == n
  {
  }

  /** `s.split(sep)` for a one-character separator. */
  function Split(s: string, sep: char): (parts: seq<string>)
    ensures |parts| >= 1
    ensures forall i :: 0 <= i < |parts| ==> sep !in parts[i]
    decreases |s|
  {
    if |s| == 0 then [""]
    else
      var rest := Split(s[1..], sep);
      if s[0] == sep then [""] + rest
      else [[s[0]] + rest[0]] + rest[1..]
  }

  /** The total length of the parts. */
  function TotalLength(parts: seq<string>): nat
    decreases |parts|
  {
    if |parts| == 0 then 0 else |parts[0]| + TotalLength(parts[1..])
  }

  /**
   * `parts.join(sep)`: the parts in order, one separator between each two of them,
   * so the first part leads and the length is the parts' total plus one per gap.
   */
  function Join(parts: seq<string>, sep: char): (r: string)
    ensures |parts| > 0 ==> |r| == TotalLength(parts) + |parts| - 1
    ensures |parts| > 0 ==> |parts[0]| <= |r| && r[..|parts[0]|] == parts[0]
    decreases |parts|
  {
    if |parts| == 0 then ""
    else if |parts| == 1 then parts[0]
    else parts[0] + [sep] + Join(parts[1..], sep)
  }

  lemma JoinExtendFirst(x: string, parts: seq<string>, sep: char)
    requires |parts| >= 1
    ensures Join([x + parts[0]] + parts[1..], sep) == x + Join(parts, sep)
  {
    var ps := [x + parts[0]] + parts[1..];
    if |parts| > 1 {
      assert ps[1..] == parts[1..];
    }
  }

  /** Splitting and joining again gives back the string. */
  lemma {:induction false} JoinSplit(s: string, sep: char)
    ensures Join(Split(s, sep), sep) == s
    decreases |s|
  {
    if |s| > 0 {
      var rest := Split(s[1..], sep);
      JoinSplit(s[1..], sep);
      if s[0] == sep {
        assert ([""] + rest)[1..] == rest;
      } else {
        JoinExtendFirst([s[0]], rest, sep);
      }
      assert s == [s[0]] + s[1..];
    }
  }

  lemma {:induction false} SplitExtend(w: string, t: string, sep: char)
    requires sep !in w
    ensures Split(w + t, sep) == [w + Split(t, sep)[0]] + Split(t, sep)[1..]
    decreases |w|
  {
    var st := Split(t, sep);
    if |w| == 0 {
      assert w + t == t && w + st[0] == st[0];
      assert [st[0]] + st[1..] == st;
    } else {
      SplitExtend(w[1..], t, sep);
      assert (w + t)[1..] == w[1..] + t;
      var rest := Split(w[1..] + t, sep);
      assert rest == [w[1..] + st[0]] + st[1..];
      assert (w + t)[0] == w[0];
      assert Split(w + t, sep) == [[w[0]] + rest[0]] + rest[1..];
      assert [w[0]] + (w[1..] + st[0]) == w + st[0];
    }
  }

  /** Joining separator-free parts and splitting again gives back the parts. */
  lemma {:induction false} SplitJoin(parts: seq<string>, sep: char)
    requires |parts| >= 1
    requires forall i :: 0 <= i < |parts| ==> sep !in parts[i]
    ensures Split(Join(parts, sep), sep) == parts
    decreases |parts|
  {
    if |parts| == 1 {
      SplitExtend(parts[0], "", sep);
      assert parts[0] + "" == parts[0];
    } else {
      var t := Join(parts[1..], sep);
      SplitJoin(parts[1..], sep);
      assert Split([sep] + t, sep) == [""] + parts[1..];
      assert parts[0] + [sep] + t == parts[0] + ([sep] + t);
      SplitExtend(parts[0], [sep] + t, sep);
      assert parts[0] + "" == parts[0];
    }
  }

  /** Joining two part-wise case variants gives case variants. */
  lemma {:induction false} JoinCaseVariant(ps: seq<string>, qs: seq<string>, sep: char)
    requires |ps| == |qs|
    requires forall i :: 0 <= i < |ps| ==> CaseVariant(ps[i], qs[i])
    ensures CaseVariant(Join(ps, sep), Join(qs, sep))
    decreases |ps|
  {
    if |ps| > 1 {
      JoinCaseVariant(ps[1..], qs[1..], sep);
      CaseVariantConcat(ps[0], qs[0], [sep], [sep]);
      CaseVariantConcat(ps[0] + [sep], qs[0] + [sep], Join(ps[1..], sep), Join(qs[1..], sep));
    }
  }

  /** `s.trimStart()`. */
  function TrimStart(s: string): (r: string)
    ensures |r| <= |s| && r == s[|s| - |r|..]
    ensures forall i :: 0 <= i < |s| - |r| ==> IsSpace(s[i])
    ensures r == [] || !IsSpace(r[0])
    decreases |s|
  {
    if |s| > 0 && IsSpace(s[0]) then TrimStart(s[1..]) else s
  }

  /** `s.trimEnd()`. */
  function TrimEnd(s: string): (r: string)
    ensures |r| <= |s| && r == s[..|r|]
    ensures forall i :: |r| <= i < |s| ==> IsSpace(s[i])
    ensures r == [] || !IsSpace(r[|r| - 1])
    decreases |s|
  {
    if |s| > 0 && IsSpace(s[|s| - 1]) then TrimEnd(s[..|s| - 1]) else s
  }

  /** `r` is the slice of `s` at offset `a`, with only white space before and after it. */
  predicate PaddedAt(s: string, r: string, a: int) {
    && 0 <= a <= a + |r| <= |s| && r == s[a..a + |r|]
    && (forall i :: 0 <= i < a ==> IsSpace(s[i]))
    && (forall i :: a + |r| <= i < |s| ==> IsSpace(s[i]))
  }

  /** `s.trim()`: the slice of `s` left once the white space at both ends is removed. */
  function Trim(s: string): (r: string)
    ensures r == [] || (!IsSpace(r[0]) && !IsSpace(r[|r| - 1]))
    ensures exists a :: PaddedAt(s, r, a)
  {
    TrimPadded(s);
    TrimEnd(TrimStart(s))
  }

  lemma TrimPadded(s: string)
    ensures PaddedAt(s, TrimEnd(TrimStart(s)), |s| - |TrimStart(s)|)
  {
    PaddedParts(s, TrimStart(s), TrimEnd(TrimStart(s)));
  }

  /** A white-space-padded suffix `t` of `s`, then a white-space-padded prefix `r` of `t`. */
  lemma PaddedParts(s: string, t: string, r: string)
    requires |t| <= |s| && t == s[|s| - |t|..] && forall i :: 0 <= i < |s| - |t| ==> IsSpace(s[i])
    requires |r| <= |t| && r == t[..|r|] && forall i :: |r| <= i < |t| ==> IsSpace(t[i])
    ensures PaddedAt(s, r, |s| - |t|)
  {
    var a := |s| - |t|;
    SliceOfSlice(s, a, t, r);
    SpacesShift(s, a, t, |r|);
  }

  lemma SliceOfSlice(s: string, a: nat, t: string, r: string)
    requires a <= |s| && t == s[a..] && |r| <= |t| && r == t[..|r|]
    ensures r == s[a..a + |r|]
  {
  }

  lemma SpacesShift(s: string, a: nat, t: string, n: nat)
    requires a <= |s| && t == s[a..]
    requires forall i :: n <= i < |t| ==> IsSpace(t[i])
    ensures forall i :: a + n <= i < |s| ==> IsSpace(s[i])
  {
    forall i | a + n <= i < |s| ensures IsSpace(s[i]) {
      assert s[i] == t[i - a];
    }
  }

  /** A string that starts and ends with a non-space is its own trim. */
  lemma TrimUnchanged(s: string)
    requires |s| > 0 && !IsSpace(s[0]) && !IsSpace(s[|s| - 1])
    ensures Trim(s) == s
  {
    assert TrimStart(s) == s;
  }

  /** `s.replace(/\s+/g, " ")`: every maximal white-space run becomes one space. */
  function CollapseSpaces(s: string): (r: string)
    ensures forall i :: 0 <= i < |r| && IsSpace(r[i]) ==> r[i] == ' '
    ensures forall i :: 0 <= i < |r| - 1 ==> !(r[i] == ' ' && r[i + 1] == ' ')
    ensures |s| > 0 && !IsSpace(s[0]) ==> |r| > 0 && r[0] == s[0]
    ensures |r| <= |s|
    decreases |s|
  {
    if |s| == 0 then ""
    else if IsSpace(s[0]) then
      var k := SpaceRun(s);
      " " + CollapseSpaces(s[k..])
    else [s[0]] + CollapseSpaces(s[1..])
  }

  /** The characters of `s` that are not white space, in order. */
  function NonSpace(s: string): string
    decreases |s|
  {
    if |s| == 0 then "" else (if IsSpace(s[0]) then "" else [s[0]]) + NonSpace(s[1..])
  }

  lemma {:induction false} NonSpaceSkip(s: string, k: nat)
    requires k <= |s| && forall i :: 0 <= i < k ==> IsSpace(s[i])
    ensures NonSpace(s) == NonSpace(s[k..])
    decreases k
  {
    if k > 0 {
      NonSpaceSkip(s[1..], k - 1);
      assert s[1..][k - 1..] == s[k..];
    }
  }

  lemma {:induction false} NonSpaceConcat(a: string, b: string)
    ensures NonSpace(a + b) == NonSpace(a) + NonSpace(b)
    decreases |a|
  {
    if |a| == 0 {
      assert a + b == b;
    } else {
      NonSpaceConcat(a[1..], b);
      var h := if IsSpace(a[0]) then "" else [a[0]];
      assert (a + b)[0] == a[0] && (a + b)[1..] == a[1..] + b;
      assert NonSpace(a + b) == h + (NonSpace(a[1..]) + NonSpace(b));
      assert NonSpace(a) == h + NonSpace(a[1..]);
    }
  }

  lemma {:induction false} NonSpaceOfSpaces(t: string)
    requires forall i :: 0 <= i < |t| ==> IsSpace(t[i])
    ensures NonSpace(t) == ""
    decreases |t|
  {
    if |t| > 0 {
      NonSpaceOfSpaces(t[1..]);
    }
  }

  /** White-space padding around `r` adds nothing to the non-space text. */
  lemma NonSpacePadded(s: string, r: string, a: nat)
    requires PaddedAt(s, r, a)
    ensures NonSpace(s) == NonSpace(r)
  {
    var tail := s[a + |r|..];
    NonSpaceSkip(s, a);
    assert s[a..] == r + tail;
    NonSpaceConcat(r, tail);
    NonSpaceOfSpaces(tail);
  }

  /** Trimming removes white space only. */
  lemma NonSpaceTrim(s: string)
    ensures NonSpace(Trim(s)) == NonSpace(s)
  {
    var a :| PaddedAt(s, Trim(s), a);
    NonSpacePadded(s, Trim(s), a);
  }

  /** Collapsing keeps every non-space character, in order, and adds none. */
  lemma {:induction false} CollapseKeepsNonSpace(s: string)
    ensures NonSpace(CollapseSpaces(s)) == NonSpace(s)
    decreases |s|
  {
    if |s| > 0 {
      if IsSpace(s[0]) {
        var k := SpaceRun(s);
        CollapseKeepsNonSpace(s[k..]);
        NonSpaceSkip(s, k);
        assert (" " + CollapseSpaces(s[k..]))[1..] == CollapseSpaces(s[k..]);
      } else {
        CollapseKeepsNonSpace(s[1..]);
        assert ([s[0]] + CollapseSpaces(s[1..]))[1..] == CollapseSpaces(s[1..]);
      }
    }
  }

  /** Every white-space character replaced by ' '. */
  function Blank(s: string): (r: string)
    ensures |r| == |s|
  {
    seq(|s|, i requires 0 <= i < |s| => if IsSpace(s[i]) then ' ' else s[i])
  }

  /** Every ' ' that is directly followed by another ' ' dropped. */
  function Squeeze(t: string): string
    decreases |t|
  {
    if |t| <= 1 then t
    else if t[0] == ' ' && t[1] == ' ' then Squeeze(t[1..])
    else [t[0]] + Squeeze(t[1..])
  }

  lemma {:induction false} SqueezeRun(t: string, k: nat)
    requires 1 <= k <= |t| && (forall i :: 0 <= i < k ==> t[i] == ' ') && (k == |t| || t[k] != ' ')
    ensures Squeeze(t) == " " + Squeeze(t[k..])
    decreases k
  {
    if k > 1 {
      SqueezeRun(t[1..], k - 1);
      assert t[1..][k - 1..] == t[k..];
    }
  }

  /**
   * An independent description of the collapse: blank every white-space character,
   * then squeeze each run of spaces to one.
   */
  lemma {:induction false} CollapseIsSqueeze(s: string)
    ensures CollapseSpaces(s) == Squeeze(Blank(s))
    decreases |s|
  {
    if |s| > 0 {
      var t := Blank(s);
      if IsSpace(s[0]) {
        var k := SpaceRun(s);
        CollapseIsSqueeze(s[k..]);
        assert t[k..] == Blank(s[k..]);
        SqueezeRun(t, k);
      } else {
        CollapseIsSqueeze(s[1..]);
        assert t[1..] == Blank(s[1..]);
      }
    }
  }

  /** The first occurrence of `p` in `s` is at index `i`. */
  predicate FirstAt(s: string, p: string, i: int) {
    ContainsAt(s, p, i) && forall j :: 0 <= j < i ==> !ContainsAt(s, p, j)
  }

  /** `s.replace(p, q)` with a string pattern: only the first occurrence is replaced. */
  function ReplaceFirst(s: string, p: string, q: string): (r: string)
    ensures !Contains(s, p) ==> r == s
    ensures Contains(s, p) ==> exists i :: FirstAt(s, p, i) && r == s[..i] + q + s[i + |p|..]
    decreases |s|
  {
    if StartsWith(s, p) then
      assert FirstAt(s, p, 0) && s[..0] + q + s[|p|..] == q + s[|p|..];
      q + s[|p|..]
    else if |s| == 0 then s
    else
      ContainsShift(s, p);
      var t := ReplaceFirst(s[1..], p, q);
      ReplaceFirstStep(s, p, q, t);
      [s[0]] + t
  }

  lemma ReplaceFirstStep(s: string, p: string, q: string, t: string)
    requires |s| > 0 && !StartsWith(s, p)
    requires Contains(s[1..], p) ==> exists i :: FirstAt(s[1..], p, i) && t == s[1..][..i] + q + s[1..][i + |p|..]
    ensures Contains(s, p) ==> exists i :: FirstAt(s, p, i) && [s[0]] + t == s[..i] + q + s[i + |p|..]
  {
    if Contains(s, p) {
      assert Contains(s[1..], p);
      var i :| FirstAt(s[1..], p, i) && t == s[1..][..i] + q + s[1..][i + |p|..];
      ReplaceFirstShift(s, p, q, t, i);
    }
  }

  /** The first occurrence at `i` in the tail is the first occurrence at `i + 1` in `s`. */
  lemma ReplaceFirstShift(s: string, p: string, q: string, t: string, i: nat)
    requires |s| > 0 && !StartsWith(s, p) && FirstAt(s[1..], p, i)
    requires t == s[1..][..i] + q + s[1..][i + |p|..]
    ensures FirstAt(s, p, i + 1) && [s[0]] + t == s[..i + 1] + q + s[i + 1 + |p|..]
  {
    NoEarlierMatch(s, p, i);
    ReplaceSplice(s, q, t, i, |p|);
  }

  /** No occurrence before `i` in the tail, and none at the start: none before `i + 1`. */
  lemma NoEarlierMatch(s: string, p: string, i: nat)
    requires |s| > 0 && !StartsWith(s, p)
    requires FirstAt(s[1..], p, i)
    ensures FirstAt(s, p, i + 1)
  {
    ContainsShift(s, p);
    assert |p| <= |s| ==> s[0..|p|] == s[..|p|];
  }

  lemma ReplaceSplice(s: string, q: string, t: string, i: nat, n: nat)
    requires |s| > 0 && i + n <= |s| - 1
    requires t == s[1..][..i] + q + s[1..][i + n..]
    ensures [s[0]] + t == s[..i + 1] + q + s[i + 1 + n..]
  {
    var a, b := s[1..][..i], s[1..][i + n..];
    assert s[..i + 1] == [s[0]] + a;
    assert s[i + 1 + n..] == b;
    calc {
      [s[0]] + t;
      [s[0]] + ((a + q) + b);
      { SeqAssoc([s[0]], a + q, b); SeqAssoc([s[0]], a, q); }
      (([s[0]] + a) + q) + b;
    }
  }

  lemma SeqAssoc(x: string, y: string, z: string)
    ensures x + (y + z) == (x + y) + z
  {
  }

  /** The string order of `Array.prototype.sort` without a comparator (by character value). */
  predicate Less(a: string, b: string)
    decreases |a|
  {
    if |a| == 0 then |b| > 0
    else if |b| == 0 then false
    else if a[0] != b[0] then a[0] < b[0]
    else Less(a[1..], b[1..])
  }

  lemma {:induction false} LessIrreflexive(a: string)
    ensures !Less(a, a)
    decreases |a|
  {
    if |a| > 0 {
      LessIrreflexive(a[1..]);
    }
  }

  lemma {:induction false} LessTransitive(a: string, b: string, c: string)
    requires Less(a, b) && Less(b, c)
    ensures Less(a, c)
    decreases |a|
  {
    if |a| > 0 && |b| > 0 && |c| > 0 && a[0] == b[0] && b[0] == c[0] {
      LessTransitive(a[1..], b[1..], c[1..]);
    }
  }

  lemma {:induction false} LessTotal(a: string, b: string)
    requires a != b
    ensures Less(a, b) || Less(b, a)
    decreases |a|
  {
    if |a| > 0 && |b| > 0 && a[0] == b[0] {
      assert a == [a[0]] + a[1..] && b == [b[0]] + b[1..];
      LessTotal(a[1..], b[1..]);
    }
  }
}
