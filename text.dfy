/** String primitives the tag file and the scanner rely on: whitespace trimming as Python's
    `str.strip()` does it, the newline translation of a text-mode read, splitting text into
    pieces at every `\n` and every `\r`, and ASCII lower-casing. */
module Text {

  /** The characters for which Python's `str.isspace()` holds, i.e. what `str.strip()` removes. */
  predicate IsSpace(c: char) {
    c == ' ' || ('\t' <= c <= '\r') || ('\U{1C}' <= c <= '\U{1F}')
    || c == '\U{85}' || c == '\U{A0}' || c == '\U{1680}' || ('\U{2000}' <= c <= '\U{200A}')
    || c == '\U{2028}' || c == '\U{2029}' || c == '\U{202F}' || c == '\U{205F}' || c == '\U{3000}'
  }

  predicate AllSpace(s: string) {
    forall k :: 0 <= k < |s| ==> IsSpace(s[k])
  }

  /** A string with no whitespace at either end. */
  predicate IsTrimmed(s: string) {
    s == [] || (!IsSpace(s[0]) && !IsSpace(s[|s| - 1]))
  }

  /** The first index at or after `i` that does not hold whitespace, or `|s|`. */
  function SkipSpaces(s: string, i: nat): (n: nat)
    requires i <= |s|
    ensures i <= n <= |s|
    ensures forall k :: i <= k < n ==> IsSpace(s[k])
    ensures n < |s| ==> !IsSpace(s[n])
    decreases |s| - i
  {
    if i < |s| && IsSpace(s[i]) then SkipSpaces(s, i + 1) else i
  }

  /** The end of `s[lo..j]` once its trailing whitespace is dropped. */
  function DropTrailing(s: string, lo: nat, j: nat): (n: nat)
    requires lo <= j <= |s|
    ensures lo <= n <= j
    ensures forall k :: n <= k < j ==> IsSpace(s[k])
    ensures n > lo ==> !IsSpace(s[n - 1])
  {
    if j > lo && IsSpace(s[j - 1]) then DropTrailing(s, lo, j - 1) else j
  }

  /** Where the stripped part of `s` begins and ends. */
  function StripStart(s: string): nat {
    SkipSpaces(s, 0)
  }

  function StripEnd(s: string): (j: nat)
    ensures StripStart(s) <= j <= |s|
  {
    DropTrailing(s, StripStart(s), |s|)
  }

  /** `str.strip()`: whitespace cut off at both ends. */
  function Strip(s: string): (r: string)
    ensures |r| <= |s| && IsTrimmed(r)
  {
    var i := StripStart(s);
    var j := StripEnd(s);
    assert i < j ==> !IsSpace(s[i]);
    s[i..j]
  }

  /** What `Strip` keeps is the infix of `s` left once the all-whitespace ends are cut off. */
  lemma StripInfix(s: string)
    ensures exists i ::
              0 <= i <= |s| - |Strip(s)| && Strip(s) == s[i..i + |Strip(s)|]
              && AllSpace(s[..i]) && AllSpace(s[i + |Strip(s)|..])
  {
    var i := StripStart(s);
    var j := StripEnd(s);
    assert Strip(s) == s[i..j];
    assert AllSpace(s[..i]);
    assert AllSpace(s[j..]);
  }

  /** Stripping leaves a string alone exactly when it has no whitespace at its ends. */
  lemma StripFixes(s: string)
    ensures Strip(s) == s <==> IsTrimmed(s)
  {
    if IsTrimmed(s) && s != [] {
      assert StripStart(s) == 0;
      assert StripEnd(s) == |s|;
    }
  }

  /** A string made only of whitespace strips to the empty string. */
  lemma StripBlank(s: string)
    requires AllSpace(s)
    ensures Strip(s) == []
  {
    assert StripStart(s) == |s|;
  }

  /** Stripping a line does not introduce a line break. */
  lemma StripNoBreak(s: string)
    ensures NoBreak(s) ==> NoBreak(Strip(s))
  {
    var r := Strip(s);
    var i := StripStart(s);
    assert forall k :: 0 <= k < |r| ==> r[k] == s[i + k];
  }

  /** A character that ends a line for a text-mode read: `\n` or `\r`. `SplitLines` treats each
      of them as a break on its own, so `\r\n` leaves an empty piece between the two; the tag
      parser drops empty pieces, and `TagFile.ParseReadText` shows it agrees with a read that
      first turns `\r\n` into one `\n`. */
  predicate IsBreak(c: char) {
    c == '\n' || c == '\r'
  }

  predicate NoBreak(s: string) {
    forall k :: 0 <= k < |s| ==> !IsBreak(s[k])
  }

  /** The index of the first line break, or `|s|` when there is none. */
  function BreakIndex(s: string): (k: nat)
    ensures k <= |s| && NoBreak(s[..k])
    ensures k < |s| ==> IsBreak(s[k])
  {
    if s == [] then 0
    else if IsBreak(s[0]) then 0
    else
      var k := 1 + BreakIndex(s[1..]);
      assert s[..k] == [s[0]] + s[1..][..k - 1];
      k
  }

  /** The pieces of `s` between line breaks, in order; a text with `n` breaks has `n + 1` pieces. */
  function SplitLines(s: string): (r: seq<string>)
    ensures |r| >= 1
    ensures forall i :: 0 <= i < |r| ==> NoBreak(r[i])
    ensures forall i, c :: 0 <= i < |r| && c in r[i] ==> c in s
    decreases |s|
  {
    var k := BreakIndex(s);
    if k == |s| then [s]
    else
      var rest := SplitLines(s[k + 1..]);
      assert forall c :: c in s[k + 1..] ==> c in s;
      assert forall c :: c in s[..k] ==> c in s;
      [s[..k]] + rest
  }

  /** A break-free line followed by a break is split off as the first piece. */
  lemma SplitLinesCons(line: string, brk: char, rest: string)
    requires NoBreak(line) && IsBreak(brk)
    ensures SplitLines(line + [brk] + rest) == [line] + SplitLines(rest)
  {
    var s := line + [brk] + rest;
    var k := BreakIndex(s);
    assert s[|line|] == brk;
    assert forall j :: 0 <= j < |line| ==> s[j] == line[j];
    assert k == |line|;
    assert s[..k] == line && s[k + 1..] == rest;
  }

  /** The text a text-mode read returns (universal newlines): each `\r\n` pair and each lone `\r`
      becomes a single `\n`; every other character is kept in order. */
  function ReadText(s: string): (r: string)
    ensures |r| <= |s|
    ensures '\r' !in r
    decreases |s|
  {
    if s == [] then []
    else if s[0] == '\r' then
      "\n" + ReadText(if |s| > 1 && s[1] == '\n' then s[2..] else s[1..])
    else [s[0]] + ReadText(s[1..])
  }

  /** Text without a carriage return reads back unchanged. */
  lemma {:induction false} ReadTextPlain(s: string)
    ensures '\r' !in s ==> ReadText(s) == s
  {
    if s != [] && '\r' !in s {
      assert s[0] in s;
      assert forall c :: c in s[1..] ==> c in s;
      ReadTextPlain(s[1..]);
      assert s == [s[0]] + s[1..];
    }
  }

  /** Translation is idempotent: a second text-mode read of read text changes nothing. */
  lemma ReadTextTwice(s: string)
    ensures ReadText(ReadText(s)) == ReadText(s)
  {
    ReadTextPlain(ReadText(s));
  }

  /** A break-free prefix passes through the newline translation unchanged. */
  lemma {:induction false} ReadTextBreakFree(u: string, v: string)
    requires NoBreak(u)
    ensures ReadText(u + v) == u + ReadText(v)
  {
    if u != [] {
      var w := u + v;
      assert w[0] == u[0] && !IsBreak(u[0]);
      assert w[1..] == u[1..] + v;
      assert NoBreak(u[1..]) by {
        forall k | 0 <= k < |u[1..]|
          ensures !IsBreak(u[1..][k])
        {
          assert u[1..][k] == u[k + 1];
        }
      }
      ReadTextBreakFree(u[1..], v);
      assert ReadText(w) == [w[0]] + ReadText(w[1..]);
      assert u == [u[0]] + u[1..];
    } else {
      assert u + v == v;
    }
  }

  /** A break-free line followed by `\n` reads as itself. */
  lemma ReadTextLf(u: string, rest: string)
    requires NoBreak(u)
    ensures ReadText(u + "\n" + rest) == u + "\n" + ReadText(rest)
  {
    var t := "\n" + rest;
    ReadTextBreakFree(u, t);
    assert u + "\n" + rest == u + t;
    assert t[1..] == rest;
    assert ReadText(t) == "\n" + ReadText(rest);
  }

  /** A break-free line followed by a lone `\r` reads as that line and one `\n`. */
  lemma ReadTextCr(u: string, rest: string)
    requires NoBreak(u)
    requires rest == [] || rest[0] != '\n'
    ensures ReadText(u + "\r" + rest) == u + "\n" + ReadText(rest)
  {
    var t := "\r" + rest;
    ReadTextBreakFree(u, t);
    assert u + "\r" + rest == u + t;
    assert t[1..] == rest;
    assert ReadText(t) == "\n" + ReadText(rest);
  }

  /** A break-free line followed by a `\r\n` pair reads as that line and one `\n`. */
  lemma ReadTextCrLf(u: string, rest: string)
    requires NoBreak(u) && rest != [] && rest[0] == '\n'
    ensures ReadText(u + "\r" + rest) == u + "\n" + ReadText(rest[1..])
  {
    var t := "\r" + rest;
    ReadTextBreakFree(u, t);
    assert u + "\r" + rest == u + t;
    assert t[1] == '\n' && t[2..] == rest[1..];
    assert ReadText(t) == "\n" + ReadText(rest[1..]);
  }

  /** Text-mode reads turn both kinds of foreign line end into `\n`. */
  lemma ReadTextExamples()
    ensures ReadText("a\r\nb") == "a\nb"
    ensures ReadText("a\rb") == "a\nb"
  {
    ReadTextCrLf("a", "\nb");
    assert "a" + "\r" + "\nb" == "a\r\nb";
    assert "\nb"[1..] == "b";
    ReadTextCr("a", "b");
    assert "a" + "\r" + "b" == "a\rb";
    assert ReadText("b") == "b";
  }

  function LowerChar(c: char): char {
    if 'A' <= c <= 'Z' then (c as int - 'A' as int + 'a' as int) as char else c
  }

  /** `str.lower()` restricted to the ASCII letters. */
  function Lower(s: string): (r: string)
    ensures |r| == |s|
    ensures forall k :: 0 <= k < |s| ==> r[k] == LowerChar(s[k])
  {
    seq(|s|, k requires 0 <= k < |s| => LowerChar(s[k]))
  }

  /** Lower-casing twice is lower-casing once. */
  lemma LowerTwice(s: string)
    ensures Lower(Lower(s)) == Lower(s)
  {
    assert forall k :: 0 <= k < |s| ==> LowerChar(LowerChar(s[k])) == LowerChar(s[k]);
  }

  predicate EndsWith(s: string, suffix: string) {
    |suffix| <= |s| && s[|s| - |suffix|..] == suffix
  }
}
