/** The few Python `str` operations the three scripts rely on, with the
    semantics CPython gives them: `split()`, `strip()`, `upper()`, `in` on
    strings, negative slices, `replace`, `lstrip`, `join`, `int()` and
    `str()` of an integer. */
module Text {
  import opened Wrappers

  /** `str.isspace()`: the characters Python's argument-less `split()` and
      `strip()` treat as whitespace. */
  predicate IsSpace(c: char) {
    || c in {' ', '\t', '\n', '\r', '\U{000B}', '\U{000C}', '\U{001C}', '\U{001D}', '\U{001E}', '\U{001F}'}
    || c in {'\U{0085}', '\U{00A0}', '\U{1680}', '\U{2028}', '\U{2029}', '\U{202F}', '\U{205F}', '\U{3000}'}
    || '\U{2000}' <= c <= '\U{200A}'
  }

  predicate IsLower(c: char) {
    'a' <= c <= 'z'
  }

  predicate IsDigit(c: char) {
    '0' <= c <= '9'
  }

  function UpperChar(c: char): (u: char)
    ensures !IsLower(u)
  {
    if IsLower(c) then (c as int - 32) as char else c
  }

  /** `s.upper()`, for the ASCII letters. */
  function Upper(s: string): (r: string)
    ensures |r| == |s|
    ensures forall i :: 0 <= i < |s| ==> r[i] == UpperChar(s[i])
  {
    if s == [] then [] else [UpperChar(s[0])] + Upper(s[1..])
  }

  lemma {:induction false} UpperIdempotent(s: string)
    ensures Upper(Upper(s)) == Upper(s)
  {
  }

  // ---------------------------------------------------------------------
  // Slices with Python's clamping rules

  /** `s[:n]` for n >= 0. */
  function Prefix(s: string, n: nat): (r: string)
    ensures |r| == if n <= |s| then n else |s|
    ensures r <= s
  {
    if n <= |s| then s[..n] else s
  }

  /** `s[:-n]` for n >= 1: everything but the last n characters, or "" when
      the string is shorter than that. */
  function DropLast(s: string, n: nat): string {
    if n <= |s| then s[..|s| - n] else ""
  }

  /** `s[-n:]` for n >= 1: the last n characters, or the whole string. */
  function LastN(s: string, n: nat): string {
    if n <= |s| then s[|s| - n..] else s
  }

  /** A type code splits into the two table keys without losing a character. */
  lemma {:induction false} DropLastLastN(s: string, n: nat)
    ensures DropLast(s, n) + LastN(s, n) == s
    ensures |LastN(s, n)| == if n <= |s| then n else |s|
  {
  }

  predicate EndsWith(s: string, suffix: string) {
    |suffix| <= |s| && s[|s| - |suffix|..] == suffix
  }

  // ---------------------------------------------------------------------
  // Substrings

  predicate MatchAt(hay: string, needle: string, i: nat) {
    i + |needle| <= |hay| && hay[i..i + |needle|] == needle
  }

  /** Python's `needle in hay` on two strings. */
  predicate Contains(hay: string, needle: string) {
    exists i: nat :: i <= |hay| && MatchAt(hay, needle, i)
  }

  /** `needle in c` for a one-character string c holds exactly when needle
      is empty or is that character. */
  lemma {:induction false} ContainsInSingleton(c: char, needle: string)
    ensures Contains([c], needle) <==> needle == [] || needle == [c]
  {
    if needle == [] {
      assert MatchAt([c], needle, 0);
    } else if needle == [c] {
      assert MatchAt([c], needle, 0);
    } else {
      forall i: nat | i <= 1
        ensures !MatchAt([c], needle, i)
      {
      }
    }
  }

  // ---------------------------------------------------------------------
  // split() and join()

  predicate IsWord(w: string) {
    |w| > 0 && forall c :: c in w ==> !IsSpace(c)
  }

  /** The end of the run of non-space characters that starts at i. */
  function WordEnd(s: string, i: nat): (j: nat)
    requires i <= |s|
    ensures i <= j <= |s|
    ensures forall k :: i <= k < j ==> !IsSpace(s[k])
    ensures j == |s| || IsSpace(s[j])
    decreases |s| - i
  {
    if i == |s| || IsSpace(s[i]) then i else WordEnd(s, i + 1)
  }

  /** `s.split()`: the maximal runs of non-whitespace characters. */
  function Words(s: string): (ws: seq<string>)
    ensures forall k :: 0 <= k < |ws| ==> IsWord(ws[k])
    ensures forall k, c :: 0 <= k < |ws| && c in ws[k] ==> c in s
    decreases |s|
  {
    if s == [] then []
    else if IsSpace(s[0]) then
      assert forall c :: c in s[1..] ==> c in s;
      Words(s[1..])
    else
      var j := WordEnd(s, 0);
      assert forall c :: c in s[..j] ==> c in s;
      assert forall c :: c in s[j..] ==> c in s;
      [s[..j]] + Words(s[j..])
  }

  /** `sep.join(parts)`. */
  function Join(sep: string, parts: seq<string>): string
    decreases |parts|
  {
    if parts == [] then ""
    else if |parts| == 1 then parts[0]
    else parts[0] + sep + Join(sep, parts[1..])
  }

  /** Joining one more part puts the separator before it. */
  lemma {:induction false} JoinSnoc(sep: string, parts: seq<string>, x: string)
    requires parts != []
    ensures Join(sep, parts + [x]) == Join(sep, parts) + sep + x
    decreases |parts|
  {
    if |parts| == 1 {
      assert (parts + [x])[1..] == [x];
    } else {
      assert (parts + [x])[1..] == parts[1..] + [x];
      JoinSnoc(sep, parts[1..], x);
    }
  }

  lemma {:induction false} WordEndAt(s: string, i: nat, j: nat)
    requires i <= j <= |s|
    requires forall k :: i <= k < j ==> !IsSpace(s[k])
    requires j == |s| || IsSpace(s[j])
    ensures WordEnd(s, i) == j
    decreases j - i
  {
    if i < j {
      WordEndAt(s, i + 1, j);
    }
  }

  /** A word followed by nothing or by whitespace is split off whole. */
  lemma {:induction false} WordsCons(w: string, rest: string)
    requires IsWord(w) && (rest == [] || IsSpace(rest[0]))
    ensures Words(w + rest) == [w] + Words(rest)
  {
    var s := w + rest;
    forall k | 0 <= k < |w|
      ensures !IsSpace(s[k])
    {
      assert s[k] == w[k] && w[k] in w;
    }
    WordEndAt(s, 0, |w|);
    assert s[..|w|] == w;
    assert s[|w|..] == rest;
  }

  /** split() undoes a single-space join of words. */
  lemma {:induction false} WordsOfJoin(ws: seq<string>)
    requires forall k :: 0 <= k < |ws| ==> IsWord(ws[k])
    ensures Words(Join(" ", ws)) == ws
    decreases |ws|
  {
    if |ws| == 1 {
      WordsCons(ws[0], "");
      assert ws[0] + "" == ws[0] && ws == [ws[0]];
    } else if |ws| > 1 {
      var tail := Join(" ", ws[1..]);
      var rest := " " + tail;
      assert Join(" ", ws) == ws[0] + rest;
      WordsCons(ws[0], rest);
      assert rest[1..] == tail;
      WordsOfJoin(ws[1..]);
      assert ws == [ws[0]] + ws[1..];
    }
  }

  // ---------------------------------------------------------------------
  // strip(), lstrip(c), replace, split(' ', maxsplit=1)

  function SkipSpaces(s: string, i: nat): (j: nat)
    requires i <= |s|
    ensures i <= j <= |s|
    ensures forall k :: i <= k < j ==> IsSpace(s[k])
    ensures j == |s| || !IsSpace(s[j])
    decreases |s| - i
  {
    if i == |s| || !IsSpace(s[i]) then i else SkipSpaces(s, i + 1)
  }

  function SkipSpacesBack(s: string, j: nat): (i: nat)
    requires j <= |s|
    ensures i <= j
    ensures forall k :: i <= k < j ==> IsSpace(s[k])
    ensures i == 0 || !IsSpace(s[i - 1])
  {
    if j == 0 || !IsSpace(s[j - 1]) then j else SkipSpacesBack(s, j - 1)
  }

  /** `s.strip()`: the string without leading and trailing whitespace. */
  function Strip(s: string): (r: string)
    ensures r == [] || (!IsSpace(r[0]) && !IsSpace(r[|r| - 1]))
    ensures s != [] && !IsSpace(s[0]) && !IsSpace(s[|s| - 1]) ==> r == s
    ensures (forall k :: 0 <= k < |s| ==> IsSpace(s[k])) <==> r == []
  {
    var i := SkipSpaces(s, 0);
    var j := SkipSpacesBack(s, |s|);
    if j <= i then s[i..i] else s[i..j]
  }

  /** `s.strip()` removes exactly the leading and trailing whitespace: it is
      a slice of s with only whitespace before and after it. */
  lemma {:induction false} StripSlice(s: string)
    ensures exists i, j ::
              && 0 <= i <= j <= |s| && Strip(s) == s[i..j]
              && (forall k :: 0 <= k < i ==> IsSpace(s[k]))
              && (forall k :: j <= k < |s| ==> IsSpace(s[k]))
  {
    var i := SkipSpaces(s, 0);
    var j := SkipSpacesBack(s, |s|);
    if j <= i {
      assert Strip(s) == s[i..i];
    } else {
      assert Strip(s) == s[i..j];
    }
  }

  /** `s.lstrip(c)` for one character c. */
  function LStripChar(s: string, c: char): (r: string)
    ensures |r| <= |s| && r == s[|s| - |r|..]
    ensures r == [] || r[0] != c
    ensures forall k :: 0 <= k < |s| - |r| ==> s[k] == c
  {
    if s != [] && s[0] == c then LStripChar(s[1..], c) else s
  }

  /** `s.replace(pat, rep)`: left-to-right, non-overlapping occurrences. */
  function ReplaceAll(s: string, pat: string, rep: string): string
    requires |pat| > 0
    decreases |s|
  {
    if |s| < |pat| then s
    else if s[..|pat|] == pat then rep + ReplaceAll(s[|pat|..], pat, rep)
    else [s[0]] + ReplaceAll(s[1..], pat, rep)
  }

  lemma {:induction false} ContainsTail(s: string, pat: string)
    requires |s| > 0
    ensures Contains(s[1..], pat) ==> Contains(s, pat)
  {
    if Contains(s[1..], pat) {
      var i: nat :| i <= |s[1..]| && MatchAt(s[1..], pat, i);
      assert s[i + 1..i + 1 + |pat|] == s[1..][i..i + |pat|];
      assert MatchAt(s, pat, i + 1);
    }
  }

  /** `s.find(pat)`: the leftmost position where pat occurs, if any. */
  function Find(s: string, pat: string): (r: Option<nat>)
    requires |pat| > 0
    ensures r.Some? ==> r.value + |pat| <= |s|
    decreases |s|
  {
    if |s| < |pat| then None
    else if s[..|pat|] == pat then Some(0)
    else
      var t := Find(s[1..], pat);
      if t.None? then None else Some(t.value + 1)
  }

  /** Find reports the leftmost occurrence, and None exactly when there is
      none. */
  lemma {:induction false} FindSpec(s: string, pat: string)
    requires |pat| > 0
    ensures Find(s, pat).None? <==> !Contains(s, pat)
    ensures Find(s, pat).Some? ==>
      var i := Find(s, pat).value;
      MatchAt(s, pat, i) && forall j :: 0 <= j < i ==> !MatchAt(s, pat, j)
    decreases |s|
  {
    if |s| < |pat| {
      NoRoom(s, pat);
    } else if s[..|pat|] == pat {
      StartsWithMatch(s, pat);
    } else {
      FindSpec(s[1..], pat);
      FindShift(s, pat, Find(s[1..], pat));
    }
  }

  lemma {:induction false} StartsWithMatch(s: string, pat: string)
    requires |pat| <= |s| && s[..|pat|] == pat
    ensures MatchAt(s, pat, 0) && Contains(s, pat)
  {
    assert s[0..|pat|] == s[..|pat|];
    assert MatchAt(s, pat, 0);
  }

  lemma {:induction false} NoRoom(s: string, pat: string)
    requires |s| < |pat|
    ensures !Contains(s, pat)
  {
  }

  /** An occurrence one position further in s is an occurrence in its tail. */
  lemma {:induction false} ShiftMatch(s: string, pat: string, j: nat)
    requires |s| > 0
    ensures MatchAt(s, pat, j + 1) <==> MatchAt(s[1..], pat, j)
  {
    if j + 1 + |pat| <= |s| {
      assert s[j + 1..j + 1 + |pat|] == s[1..][j..j + |pat|];
    }
  }

  /** The search in s, when pat does not start it, is the search in its
      tail moved one position on. */
  lemma {:induction false} FindShift(s: string, pat: string, t: Option<nat>)
    requires |pat| > 0 && |s| >= |pat| && s[..|pat|] != pat
    requires t.None? <==> !Contains(s[1..], pat)
    requires t.Some? ==> MatchAt(s[1..], pat, t.value) && forall j :: 0 <= j < t.value ==> !MatchAt(s[1..], pat, j)
    ensures t.None? <==> !Contains(s, pat)
    ensures t.Some? ==> MatchAt(s, pat, t.value + 1) && forall j :: 0 <= j < t.value + 1 ==> !MatchAt(s, pat, j)
  {
    assert !MatchAt(s, pat, 0) by {
      assert s[0..|pat|] == s[..|pat|];
    }
    if t.Some? {
      ShiftMatch(s, pat, t.value);
      forall j | 0 < j < t.value + 1
        ensures !MatchAt(s, pat, j)
      {
        ShiftMatch(s, pat, j - 1);
      }
    } else {
      forall j: nat | 0 < j <= |s|
        ensures !MatchAt(s, pat, j)
      {
        ShiftMatch(s, pat, j - 1);
      }
      ContainsTail(s, pat);
    }
  }

  /** Nothing before the leftmost occurrence holds the pattern. */
  lemma {:induction false} PrefixBeforeFind(s: string, pat: string, i: nat)
    requires |pat| > 0 && i <= |s|
    requires forall j :: 0 <= j < i ==> !MatchAt(s, pat, j)
    ensures !Contains(s[..i], pat)
  {
    forall j: nat | j <= i
      ensures !MatchAt(s[..i], pat, j)
    {
      if MatchAt(s[..i], pat, j) {
        assert s[j..j + |pat|] == s[..i][j..j + |pat|];
        assert MatchAt(s, pat, j);
      }
    }
  }

  /** `s.split(pat)`: the pieces between the non-overlapping occurrences of
      pat, found left to right. */
  function SplitOn(s: string, pat: string): (r: seq<string>)
    requires |pat| > 0
    ensures |r| >= 1
    decreases |s|
  {
    var f := Find(s, pat);
    if f.None? then [s] else [s[..f.value]] + SplitOn(s[f.value + |pat|..], pat)
  }

  /** No piece of `s.split(pat)` contains pat. */
  lemma {:induction false} SplitOnPieces(s: string, pat: string)
    requires |pat| > 0
    ensures forall k :: 0 <= k < |SplitOn(s, pat)| ==> !Contains(SplitOn(s, pat)[k], pat)
    decreases |s|
  {
    var f := Find(s, pat);
    FindSpec(s, pat);
    if f.Some? {
      var i := f.value;
      var rest := s[i + |pat|..];
      SplitOnFound(s, pat, i);
      PrefixBeforeFind(s, pat, i);
      SplitOnPieces(rest, pat);
      var r := SplitOn(s, pat);
      forall k | 0 <= k < |r|
        ensures !Contains(r[k], pat)
      {
        if k > 0 {
          assert r[k] == SplitOn(rest, pat)[k - 1];
        }
      }
    }
  }

  /** Joining the pieces of `s.split(pat)` with pat gives s back. */
  lemma {:induction false} SplitOnJoin(s: string, pat: string)
    requires |pat| > 0
    ensures Join(pat, SplitOn(s, pat)) == s
    decreases |s|
  {
    var f := Find(s, pat);
    if f.None? {
      SplitOnNotFound(s, pat);
    } else {
      var i := f.value;
      var rest := s[i + |pat|..];
      SplitOnFound(s, pat, i);
      FindSpec(s, pat);
      SplitOnJoin(rest, pat);
      JoinCons(pat, s[..i], SplitOn(rest, pat));
      Reassemble(s, pat, i);
    }
  }

  lemma {:induction false} Reassemble(s: string, pat: string, i: nat)
    requires MatchAt(s, pat, i)
    ensures s == s[..i] + pat + s[i + |pat|..]
  {
    assert s == s[..i] + s[i..i + |pat|] + s[i + |pat|..];
  }

  /** Joining a part in front of a non-empty list. */
  lemma {:induction false} JoinCons(sep: string, x: string, parts: seq<string>)
    requires parts != []
    ensures Join(sep, [x] + parts) == x + sep + Join(sep, parts)
  {
    assert ([x] + parts)[1..] == parts;
  }

  /** A string that pat does not start splits like its tail, its first
      character glued to the first piece. */
  lemma {:induction false} SplitOnCons(s: string, pat: string)
    requires |pat| > 0 && |s| >= |pat| && s[..|pat|] != pat
    ensures var t := SplitOn(s[1..], pat);
      SplitOn(s, pat) == [[s[0]] + t[0]] + t[1..]
  {
    var g := Find(s[1..], pat);
    FindSpec(s[1..], pat);
    FindShift(s, pat, g);
    FindUnique(s, pat, if g.None? then None else Some(g.value + 1));
    if g.None? {
      SplitOnConsNone(s, pat);
    } else {
      SplitOnConsSome(s, pat, g.value);
    }
  }

  lemma {:induction false} SplitOnConsNone(s: string, pat: string)
    requires |pat| > 0 && |s| > 0 && Find(s, pat).None? && Find(s[1..], pat).None?
    ensures var t := SplitOn(s[1..], pat);
      SplitOn(s, pat) == [[s[0]] + t[0]] + t[1..]
  {
    SplitOnNotFound(s, pat);
    SplitOnNotFound(s[1..], pat);
    assert [s[0]] + s[1..] == s;
  }

  lemma {:induction false} SplitOnConsSome(s: string, pat: string, i: nat)
    requires |pat| > 0 && |s| > 0 && Find(s, pat) == Some(i + 1) && Find(s[1..], pat) == Some(i)
    ensures var t := SplitOn(s[1..], pat);
      SplitOn(s, pat) == [[s[0]] + t[0]] + t[1..]
  {
    var rest := s[1..][i + |pat|..];
    SplitOnFound(s[1..], pat, i);
    SplitOnFound(s, pat, i + 1);
    var t, u := SplitOn(s[1..], pat), SplitOn(rest, pat);
    assert t[0] == s[1..][..i] && t[1..] == u;
    assert s[i + 1 + |pat|..] == rest;
    assert s[..i + 1] == [s[0]] + t[0];
  }

  /** Find's contract pins its value down. */
  lemma {:induction false} FindUnique(s: string, pat: string, f: Option<nat>)
    requires |pat| > 0
    requires f.None? <==> !Contains(s, pat)
    requires f.Some? ==> MatchAt(s, pat, f.value) && forall j :: 0 <= j < f.value ==> !MatchAt(s, pat, j)
    ensures Find(s, pat) == f
  {
    FindSpec(s, pat);
  }

  lemma {:induction false} SplitOnNotFound(s: string, pat: string)
    requires |pat| > 0 && Find(s, pat).None?
    ensures SplitOn(s, pat) == [s]
  {
  }

  /** One step of the split at the leftmost occurrence. */
  lemma {:induction false} SplitOnFound(s: string, pat: string, i: nat)
    requires |pat| > 0 && Find(s, pat) == Some(i)
    ensures i + |pat| <= |s|
    ensures SplitOn(s, pat) == [s[..i]] + SplitOn(s[i + |pat|..], pat)
  {
  }

  /** `s.replace(pat, rep)` is `rep.join(s.split(pat))`. */
  lemma {:induction false} ReplaceIsJoinOfSplit(s: string, pat: string, rep: string)
    requires |pat| > 0
    ensures ReplaceAll(s, pat, rep) == Join(rep, SplitOn(s, pat))
    decreases |s|
  {
    if |s| < |pat| {
      NoRoom(s, pat);
      SplitOnNotFound(s, pat);
    } else if s[..|pat|] == pat {
      ReplaceIsJoinOfSplit(s[|pat|..], pat, rep);
      ReplaceAtStart(s, pat, rep);
    } else {
      ReplaceIsJoinOfSplit(s[1..], pat, rep);
      ReplaceElsewhere(s, pat, rep);
    }
  }

  /** `replace` leaves a string without the pattern unchanged. */
  lemma {:induction false} ReplaceAbsent(s: string, pat: string, rep: string)
    requires |pat| > 0 && !Contains(s, pat)
    ensures ReplaceAll(s, pat, rep) == s
  {
    FindSpec(s, pat);
    SplitOnNotFound(s, pat);
    ReplaceIsJoinOfSplit(s, pat, rep);
  }

  lemma {:induction false} ReplaceAtStart(s: string, pat: string, rep: string)
    requires |pat| > 0 && |pat| <= |s| && s[..|pat|] == pat
    requires ReplaceAll(s[|pat|..], pat, rep) == Join(rep, SplitOn(s[|pat|..], pat))
    ensures ReplaceAll(s, pat, rep) == Join(rep, SplitOn(s, pat))
  {
    var rest := s[|pat|..];
    var t := SplitOn(rest, pat);
    SplitOnFound(s, pat, 0);
    assert s[..0] == "";
    JoinCons(rep, "", t);
    assert "" + rep + Join(rep, t) == rep + Join(rep, t);
    assert ReplaceAll(s, pat, rep) == rep + ReplaceAll(rest, pat, rep);
  }

  lemma {:induction false} ReplaceElsewhere(s: string, pat: string, rep: string)
    requires |pat| > 0 && |pat| <= |s| && s[..|pat|] != pat
    requires ReplaceAll(s[1..], pat, rep) == Join(rep, SplitOn(s[1..], pat))
    ensures ReplaceAll(s, pat, rep) == Join(rep, SplitOn(s, pat))
  {
    SplitOnCons(s, pat);
    JoinHead(rep, s[0], SplitOn(s[1..], pat));
  }

  /** Gluing a character to the first part glues it to the joined text. */
  lemma {:induction false} JoinHead(sep: string, c: char, parts: seq<string>)
    requires parts != []
    ensures Join(sep, [[c] + parts[0]] + parts[1..]) == [c] + Join(sep, parts)
  {
    if |parts| == 1 {
      assert [[c] + parts[0]] + parts[1..] == [[c] + parts[0]];
    } else {
      JoinCons(sep, [c] + parts[0], parts[1..]);
      JoinCons(sep, parts[0], parts[1..]);
      assert [parts[0]] + parts[1..] == parts;
    }
  }

  function IndexOfChar(s: string, c: char): (i: nat)
    ensures i <= |s|
    ensures i < |s| ==> s[i] == c
    ensures forall k :: 0 <= k < i ==> s[k] != c
  {
    if s == [] then 0 else if s[0] == c then 0 else 1 + IndexOfChar(s[1..], c)
  }

  /** `s.split(' ', maxsplit=1)[1]`: the text after the first space, or None
      where Python raises IndexError because there is no space. */
  function AfterFirstSpace(s: string): (r: Option<string>)
    ensures r.None? <==> ' ' !in s
    ensures r.Some? ==> exists k :: 0 <= k < |s| && s[k] == ' ' && ' ' !in s[..k] && r.value == s[k + 1..]
  {
    var k := IndexOfChar(s, ' ');
    if k == |s| then None
    else
      assert ' ' !in s[..k];
      Some(s[k + 1..])
  }

  // ---------------------------------------------------------------------
  // str(n) and int(s)

  function DigitChar(d: nat): (c: char)
    requires d < 10
    ensures IsDigit(c)
  {
    ('0' as int + d) as char
  }

  function DigitValue(c: char): nat
    requires IsDigit(c)
  {
    c as int - '0' as int
  }

  predicate AllDigits(s: string) {
    forall k :: 0 <= k < |s| ==> IsDigit(s[k])
  }

  /** `str(n)` for a natural number: decimal, no leading zero. */
  function NatToString(n: nat): (s: string)
    ensures |s| > 0 && AllDigits(s)
    ensures s[0] == '0' ==> n == 0 && |s| == 1
  {
    if n < 10 then [DigitChar(n)] else NatToString(n / 10) + [DigitChar(n % 10)]
  }

  /** The value of a string of decimal digits. */
  function DigitsValue(s: string): nat
    requires AllDigits(s)
  {
    if s == [] then 0 else DigitsValue(s[..|s| - 1]) * 10 + DigitValue(s[|s| - 1])
  }

  lemma {:induction false} NatRoundTrip(n: nat)
    ensures DigitsValue(NatToString(n)) == n
  {
    if n >= 10 {
      NatRoundTrip(n / 10);
      var s := NatToString(n);
      assert s[..|s| - 1] == NatToString(n / 10);
    }
  }

  /** `str(i)` for an integer. */
  function IntToString(i: int): string {
    if i < 0 then "-" + NatToString(-i) else NatToString(i)
  }

  /** `int(s)` on a string: surrounding whitespace, an optional sign and at
      least one decimal digit; None where Python raises ValueError. */
  function ParseInt(s: string): Option<int> {
    ParseSigned(Strip(s))
  }

  /** An optional sign followed by at least one decimal digit. */
  function ParseSigned(t: string): Option<int> {
    var negative := t != [] && t[0] == '-';
    var body := if t != [] && (t[0] == '-' || t[0] == '+') then t[1..] else t;
    if body == [] || !AllDigits(body) then None
    else
      var v: int := DigitsValue(body);
      Some(if negative then -v else v)
  }

  /** `int(str(i)) == i`. */
  lemma {:induction false} IntRoundTrip(i: int)
    ensures ParseInt(IntToString(i)) == Some(i)
  {
    var n: nat := if i < 0 then -i else i;
    var d := NatToString(n);
    var s := IntToString(i);
    assert s[|s| - 1] == d[|d| - 1];
    DigitNotSpace(d[|d| - 1]);
    if i >= 0 {
      DigitNotSpace(d[0]);
    }
    assert Strip(s) == s;
    SignedRoundTrip(i);
  }

  lemma {:induction false} SignedRoundTrip(i: int)
    ensures ParseSigned(IntToString(i)) == Some(i)
  {
    var n: nat := if i < 0 then -i else i;
    NatRoundTrip(n);
    ParseDigits(NatToString(n));
  }

  /** A digit string, with or without a leading minus, parses to its value. */
  lemma {:induction false} ParseDigits(d: string)
    requires d != [] && AllDigits(d)
    ensures ParseSigned(d) == Some(DigitsValue(d))
    ensures ParseSigned("-" + d) == Some(0 - DigitsValue(d))
  {
    assert ("-" + d)[1..] == d;
  }

  lemma {:induction false} DigitNotSpace(c: char)
    requires IsDigit(c)
    ensures !IsSpace(c)
  {
  }

  /** The text `str(int(s))` gives: the decimal form of the value, with
      leading zeros, sign `+` and surrounding whitespace gone. */
  function Canonical(s: string): (r: Option<string>)
    ensures r.Some? <==> ParseInt(s).Some?
    ensures r.Some? ==> ParseInt(r.value) == ParseInt(s)
  {
    match ParseInt(s)
    case None => None
    case Some(n) =>
      IntRoundTrip(n);
      Some(IntToString(n))
  }

  /** Normalising twice changes nothing. */
  lemma {:induction false} CanonicalIdempotent(s: string)
    requires Canonical(s).Some?
    ensures Canonical(Canonical(s).value) == Canonical(s)
  {
    IntRoundTrip(ParseInt(s).value);
  }

  /** A canonical decimal string has no leading zero. */
  lemma {:induction false} CanonicalNoLeadingZero(s: string)
    requires Canonical(s).Some?
    ensures var r := Canonical(s).value; r == "0" || (r[0] != '0' && (r[0] == '-' ==> r[1] != '0'))
  {
    IntToStringNoLeadingZero(ParseInt(s).value);
  }

  lemma {:induction false} IntToStringNoLeadingZero(n: int)
    ensures var r := IntToString(n); r == "0" || (r[0] != '0' && (r[0] == '-' ==> r[1] != '0'))
  {
    if n < 0 {
      var d := NatToString(-n);
      assert IntToString(n) == "-" + d;
      assert ("-" + d)[1] == d[0];
    }
  }
}
