/**
 * The string operations the bot relies on, written out as Python defines them:
 * `str.strip()`, `str.split()` with no separator, `str.capitalize()`,
 * `' '.join(...)`, `'\n'.join(...)` and `str(n)` for a natural number.
 */
module Text {

  /** Python's `str.isspace()` for one character: the characters `str.strip()`
      and `str.split()` treat as whitespace. */
  predicate IsSpace(c: char) {
    ('\t' <= c <= '\r') || ('\U{1C}' <= c <= '\U{1F}') || c == ' '
    || c == '\U{85}' || c == '\U{A0}' || c == '\U{1680}'
    || ('\U{2000}' <= c <= '\U{200A}') || c == '\U{2028}' || c == '\U{2029}'
    || c == '\U{202F}' || c == '\U{205F}' || c == '\U{3000}'
  }

  /** A non-empty run of non-whitespace characters: what `str.split()` yields. */
  predicate IsWord(w: string) {
    w != [] && forall i :: 0 <= i < |w| ==> !IsSpace(w[i])
  }

  /** True when every character of s is whitespace. */
  predicate AllSpace(s: string) {
    forall i :: 0 <= i < |s| ==> IsSpace(s[i])
  }

  /** `s.lstrip()`. */
  function StripLeft(s: string): string {
    if s != [] && IsSpace(s[0]) then StripLeft(s[1..]) else s
  }

  /** `s.rstrip()`. */
  function StripRight(s: string): string {
    if s != [] && IsSpace(s[|s| - 1]) then StripRight(s[..|s| - 1]) else s
  }

  /** `lstrip()` drops the leading whitespace and nothing else: what remains is
      a suffix of s that does not start with whitespace, and everything cut off
      is whitespace. */
  lemma {:induction false} StripLeftSpec(s: string)
    ensures var r := StripLeft(s);
      && |r| <= |s| && r == s[|s| - |r|..]
      && AllSpace(s[..|s| - |r|])
      && (r == [] || !IsSpace(r[0]))
  {
    if s != [] && IsSpace(s[0]) {
      StripLeftSpec(s[1..]);
      var r := StripLeft(s);
      assert s[..|s| - |r|] == [s[0]] + s[1..][..|s| - 1 - |r|];
    }
  }

  /** `rstrip()` drops the trailing whitespace and nothing else: what remains is
      a prefix of s that does not end with whitespace, and everything cut off
      is whitespace. */
  lemma {:induction false} StripRightSpec(s: string)
    ensures var r := StripRight(s);
      && |r| <= |s| && r == s[..|r|]
      && AllSpace(s[|r|..])
      && (r == [] || !IsSpace(r[|r| - 1]))
  {
    if s != [] && IsSpace(s[|s| - 1]) {
      StripRightSpec(s[..|s| - 1]);
      var r := StripRight(s);
      assert s[|r|..] == s[..|s| - 1][|r|..] + [s[|s| - 1]];
    }
  }

  /** `s.strip()`: the result has no whitespace at either end. */
  function Strip(s: string): (r: string)
    ensures IsStripped(r)
  {
    StripLeftSpec(s);
    StripRightSpec(StripLeft(s));
    var l := StripLeft(s);
    var r := StripRight(l);
    assert r != [] ==> r[0] == l[0];
    r
  }

  /** True when s has no whitespace at either end. */
  predicate IsStripped(s: string) {
    s == [] || (!IsSpace(s[0]) && !IsSpace(s[|s| - 1]))
  }

  /** The result of `strip()` has no whitespace at either end, and it is
      the middle of s with only whitespace cut off around it. */
  lemma StripSpec(s: string)
    ensures IsStripped(Strip(s))
    ensures exists i, j {:trigger s[i..j]} ::
      (0 <= i <= j <= |s| && Strip(s) == s[i..j] && AllSpace(s[..i]) && AllSpace(s[j..]))
  {
    StripLeftSpec(s);
    StripRightSpec(StripLeft(s));
    var l := StripLeft(s);
    var r := StripRight(l);
    var i := |s| - |l|;
    var j := i + |r|;
    assert r == s[i..j];
    assert AllSpace(s[j..]) by {
      assert s[j..] == l[|r|..];
    }
  }

  /** A string with no whitespace at either end is left alone by `strip()`. */
  lemma StrippedIsFixed(s: string)
    requires IsStripped(s)
    ensures Strip(s) == s
  {
  }

  /** The length of the word at the start of s. */
  function WordLength(s: string): (n: nat)
    requires s != [] && !IsSpace(s[0])
    ensures 1 <= n <= |s| && IsWord(s[..n])
    ensures n == |s| || IsSpace(s[n])
  {
    if |s| == 1 || IsSpace(s[1]) then 1 else 1 + WordLength(s[1..])
  }

  /** `s.split()`: the maximal runs of non-whitespace characters, in order. */
  function SplitWords(s: string): (ws: seq<string>)
    ensures forall k :: 0 <= k < |ws| ==> IsWord(ws[k])
    decreases |s|
  {
    if s == [] then []
    else if IsSpace(s[0]) then SplitWords(s[1..])
    else
      var n := WordLength(s);
      [s[..n]] + SplitWords(s[n..])
  }

  /** `' '.join(ws)`: joining words gives a text with no whitespace at either
      end, which is empty only when there are no words. */
  function JoinSpace(ws: seq<string>): (r: string)
    ensures (forall i :: 0 <= i < |ws| ==> IsWord(ws[i])) ==> IsStripped(r) && (r == [] <==> ws == [])
  {
    if ws == [] then []
    else if |ws| == 1 then ws[0]
    else ws[0] + " " + JoinSpace(ws[1..])
  }

  /** A word followed by whitespace or nothing splits off as one word. */
  lemma {:induction false} SplitLeadingWord(w: string, rest: string)
    requires IsWord(w)
    requires rest == [] || IsSpace(rest[0])
    ensures SplitWords(w + rest) == [w] + SplitWords(rest)
  {
    var s := w + rest;
    WordLengthOf(w, rest);
    assert s[..|w|] == w;
    assert s[|w|..] == rest;
  }

  lemma {:induction false} WordLengthOf(w: string, rest: string)
    requires IsWord(w)
    requires rest == [] || IsSpace(rest[0])
    ensures WordLength(w + rest) == |w|
    decreases |w|
  {
    var s := w + rest;
    if |w| == 1 {
    } else {
      assert s[1..] == w[1..] + rest;
      WordLengthOf(w[1..], rest);
    }
  }

  /** Round trip: splitting words joined by single spaces gives the words back. */
  lemma {:induction false} SplitJoinSpace(ws: seq<string>)
    requires forall k :: 0 <= k < |ws| ==> IsWord(ws[k])
    ensures SplitWords(JoinSpace(ws)) == ws
  {
    if ws == [] {
    } else if |ws| == 1 {
      SplitLeadingWord(ws[0], []);
      assert ws[0] + [] == ws[0];
    } else {
      var tail := " " + JoinSpace(ws[1..]);
      SplitLeadingWord(ws[0], tail);
      assert ws[0] + " " + JoinSpace(ws[1..]) == ws[0] + tail;
      assert tail[1..] == JoinSpace(ws[1..]);
      SplitJoinSpace(ws[1..]);
    }
  }

  /** Whitespace before the text does not change its words. */
  lemma {:induction false} SplitSkipsLeadingSpace(pre: string, s: string)
    requires AllSpace(pre)
    ensures SplitWords(pre + s) == SplitWords(s)
    decreases |pre|
  {
    if pre == [] {
      assert pre + s == s;
    } else {
      assert (pre + s)[1..] == pre[1..] + s;
      SplitSkipsLeadingSpace(pre[1..], s);
    }
  }

  /** Whitespace after the text does not change its words. */
  lemma {:induction false} SplitSkipsTrailingSpace(s: string, post: string)
    requires AllSpace(post)
    ensures SplitWords(s + post) == SplitWords(s)
    decreases |s|
  {
    var t := s + post;
    if s == [] {
      assert t == post;
      AllSpaceHasNoWords(post);
    } else if IsSpace(s[0]) {
      assert t[1..] == s[1..] + post;
      SplitSkipsTrailingSpace(s[1..], post);
    } else {
      var n := WordLength(s);
      var m := WordLength(t);
      assert t[..n] == s[..n];
      if n < |s| {
        assert IsSpace(t[n]);
      } else {
        assert t[n..] == post;
      }
      WordLengthFromPrefix(s[..n], t);
      assert m == n;
      assert t[n..] == s[n..] + post;
      SplitSkipsTrailingSpace(s[n..], post);
    }
  }

  /** The word at the start of t has the length of a word w it starts with,
      when a space or the end of t follows w. */
  lemma {:induction false} WordLengthFromPrefix(w: string, t: string)
    requires IsWord(w) && |w| <= |t| && t[..|w|] == w
    requires |w| == |t| || IsSpace(t[|w|])
    ensures WordLength(t) == |w|
  {
    WordLengthOf(w, t[|w|..]);
    assert w + t[|w|..] == t;
  }

  /** A string of whitespace has no words. */
  lemma {:induction false} AllSpaceHasNoWords(s: string)
    requires AllSpace(s)
    ensures SplitWords(s) == []
    decreases |s|
  {
    if s != [] {
      AllSpaceHasNoWords(s[1..]);
    }
  }

  /** `s.split()` and `s.strip().split()` give the same words. */
  lemma {:induction false} SplitIgnoresStrip(s: string)
    ensures SplitWords(Strip(s)) == SplitWords(s)
  {
    StripLeftSpec(s);
    StripRightSpec(StripLeft(s));
    var l := StripLeft(s);
    var r := StripRight(l);
    var pre := s[..|s| - |l|];
    var post := l[|r|..];
    assert s == pre + l;
    assert l == r + post;
    SplitSkipsLeadingSpace(pre, l);
    SplitSkipsTrailingSpace(r, post);
  }

  /** Python's `str.upper()` on one character, for the letters names are
      written in: ASCII a-z, the Latin-1 letters U+00E0-U+00FE (but not the
      division sign U+00F7), Cyrillic U+0430-U+045F and ґ (U+0491). Other
      characters are left as they are. */
  function ToUpper(c: char): (r: char)
    ensures IsSpace(r) == IsSpace(c)
  {
    if 'a' <= c <= 'z' then (c as int - 32) as char
    else if '\U{E0}' <= c <= '\U{FE}' && c != '\U{F7}' then (c as int - 0x20) as char
    else if '\U{430}' <= c <= '\U{44F}' then (c as int - 0x20) as char
    else if '\U{450}' <= c <= '\U{45F}' then (c as int - 0x50) as char
    else if c == '\U{491}' then '\U{490}'
    else c
  }

  /** Python's `str.lower()` on one character, for the capitals of the letters
      ToUpper maps: ASCII A-Z, U+00C0-U+00DE (but not the multiplication sign
      U+00D7), Cyrillic U+0400-U+042F and Ґ (U+0490). */
  function ToLower(c: char): (r: char)
    ensures IsSpace(r) == IsSpace(c)
  {
    if 'A' <= c <= 'Z' then (c as int + 32) as char
    else if '\U{C0}' <= c <= '\U{DE}' && c != '\U{D7}' then (c as int + 0x20) as char
    else if '\U{410}' <= c <= '\U{42F}' then (c as int + 0x20) as char
    else if '\U{400}' <= c <= '\U{40F}' then (c as int + 0x50) as char
    else if c == '\U{490}' then '\U{491}'
    else c
  }

  /** Upper-casing and lower-casing each undo themselves and each other's effect
      on a letter they map: applying either one twice is applying it once. */
  lemma CaseMapsIdempotent(c: char)
    ensures ToUpper(ToUpper(c)) == ToUpper(c)
    ensures ToLower(ToLower(c)) == ToLower(c)
    ensures ToUpper(ToLower(c)) == ToUpper(c)
  {
  }

  /** `s.lower()`. */
  function Lower(s: string): (r: string)
    ensures |r| == |s|
    ensures forall i :: 0 <= i < |s| ==> r[i] == ToLower(s[i])
  {
    if s == [] then [] else [ToLower(s[0])] + Lower(s[1..])
  }

  /** `w.capitalize()`: the first character upper-cased, the rest lower-cased. */
  function Capitalize(w: string): (r: string)
    ensures |r| == |w|
    ensures w != [] ==> r[0] == ToUpper(w[0])
    ensures forall i :: 1 <= i < |w| ==> r[i] == ToLower(w[i])
  {
    if w == [] then [] else [ToUpper(w[0])] + Lower(w[1..])
  }

  /** A capitalized word is still a word, with the same length. */
  lemma CapitalizeKeepsWord(w: string)
    requires IsWord(w)
    ensures IsWord(Capitalize(w))
  {
    var r := Capitalize(w);
    forall i | 0 <= i < |r| ensures !IsSpace(r[i]) {
      if i == 0 { assert r[0] == ToUpper(w[0]); } else { assert r[i] == ToLower(w[i]); }
    }
  }

  /** Capitalizing an already capitalized word changes nothing. */
  lemma CapitalizeIdempotent(w: string)
    ensures Capitalize(Capitalize(w)) == Capitalize(w)
  {
    var r := Capitalize(w);
    var rr := Capitalize(r);
    forall i | 0 <= i < |w| ensures rr[i] == r[i] {
      CaseMapsIdempotent(w[i]);
    }
  }

  /** The decimal digit character for d. */
  function DigitChar(d: nat): (c: char)
    requires d < 10
    ensures '0' <= c <= '9'
  {
    ('0' as int + d) as char
  }

  /** `str(n)` for a natural number: its decimal digits, most significant first. */
  function NatToString(n: nat): (s: string)
    ensures s != []
    ensures s[0] == '0' ==> n == 0
    ensures forall i :: 0 <= i < |s| ==> '0' <= s[i] <= '9'
  {
    if n < 10 then [DigitChar(n)] else NatToString(n / 10) + [DigitChar(n % 10)]
  }

  /** The number a string of decimal digits stands for. */
  function DigitsValue(s: string): nat
    requires forall i :: 0 <= i < |s| ==> '0' <= s[i] <= '9'
  {
    if s == [] then 0
    else DigitsValue(s[..|s| - 1]) * 10 + (s[|s| - 1] as int - '0' as int)
  }

  /** Round trip: reading back the decimal text of n gives n. */
  lemma {:induction false} NatToStringRoundTrip(n: nat)
    ensures DigitsValue(NatToString(n)) == n
  {
    var s := NatToString(n);
    if n >= 10 {
      NatToStringRoundTrip(n / 10);
      assert s[..|s| - 1] == NatToString(n / 10);
    }
  }

  /** `'\n'.join(ls)`. */
  function JoinLines(ls: seq<string>): (r: string)
    ensures ls != [] ==> |ls[0]| <= |r| && r[..|ls[0]|] == ls[0]
  {
    if ls == [] then []
    else if |ls| == 1 then ls[0]
    else ls[0] + "\n" + JoinLines(ls[1..])
  }

  /** `s.split('\n')`: the pieces between newlines, always at least one. */
  function SplitLines(s: string): (ls: seq<string>)
    ensures |ls| >= 1
    ensures forall k :: 0 <= k < |ls| ==> '\n' !in ls[k]
    decreases |s|
  {
    if '\n' !in s then [s]
    else
      var i := IndexOfNewline(s);
      [s[..i]] + SplitLines(s[i + 1..])
  }

  /** The position of the first newline in s. */
  function IndexOfNewline(s: string): (i: nat)
    requires '\n' in s
    ensures i < |s| && s[i] == '\n' && '\n' !in s[..i]
  {
    if s[0] == '\n' then 0
    else
      assert '\n' in s[1..] by { var k :| 0 <= k < |s| && s[k] == '\n'; assert s[1..][k - 1] == '\n'; }
      var i := 1 + IndexOfNewline(s[1..]);
      assert s[..i] == [s[0]] + s[1..][..i - 1];
      i
  }

  /** Round trip: splitting newline-joined lines at newlines gives the lines back,
      provided none of them holds a newline. */
  lemma {:induction false} SplitJoinLines(ls: seq<string>)
    requires |ls| >= 1
    requires forall k :: 0 <= k < |ls| ==> '\n' !in ls[k]
    ensures SplitLines(JoinLines(ls)) == ls
  {
    if |ls| > 1 {
      var s := JoinLines(ls);
      var rest := JoinLines(ls[1..]);
      assert s == ls[0] + "\n" + rest;
      assert s[|ls[0]|] == '\n';
      assert '\n' in s;
      var i := IndexOfNewline(s);
      assert s[..|ls[0]|] == ls[0];
      assert i == |ls[0]|;
      assert s[i + 1..] == rest;
      SplitJoinLines(ls[1..]);
    }
  }
}
