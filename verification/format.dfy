/** Python's text formatting and line handling used by the exchange formats:
    format specifications such as `{n:04d}`, `{s:>10}`, `{x:.1f}`, and
    `str.split()` / `str.splitlines()` without arguments. */
module Format {
  import opened Wrappers
  import Text

  // -------------------------------------------------------------- padding

  /** `c * n`. */
  function Repeat(c: char, n: nat): (s: string)
    ensures |s| == n && forall k :: 0 <= k < n ==> s[k] == c
  {
    seq(n, _ => c)
  }

  function Width(text: string, width: nat): nat {
    if |text| < width then width else |text|
  }

  /** `f"{text:>width}"`: spaces in front up to the width, never cut. */
  function RightAlign(text: string, width: nat): (r: string)
    ensures |r| == Width(text, width)
  {
    Repeat(' ', Width(text, width) - |text|) + text
  }

  /** `f"{text:width}"` for a string: spaces after it up to the width. */
  function LeftAlign(text: string, width: nat): (r: string)
    ensures |r| == Width(text, width)
    ensures r[..|text|] == text
    ensures forall k :: |text| <= k < |r| ==> r[k] == ' '
  {
    text + Repeat(' ', Width(text, width) - |text|)
  }

  /** `f"{n:0{width}d}"`: the sign, then zeros up to the width, then the digits. */
  function ZeroPad(n: int, width: nat): (r: string)
    ensures |r| == Width(Text.IntToString(n), width)
    ensures forall k :: 0 <= k < |r| ==> Text.IsDigit(r[k]) || (k == 0 && r[k] == '-')
    ensures n < 0 <==> r[0] == '-'
  {
    var digits := Text.NatToString(if n < 0 then -n else n);
    var sign := if n < 0 then "-" else "";
    sign + Repeat('0', Width(sign + digits, width) - |sign + digits|) + digits
  }

  /** The digits after the sign spell the magnitude: leading zeros add nothing. */
  lemma ZeroPadValue(n: int, width: nat)
    ensures var r := ZeroPad(n, width);
            var body := r[if n < 0 then 1 else 0..];
            (forall k :: 0 <= k < |body| ==> Text.IsDigit(body[k]))
            && Text.DigitsValue(body) == if n < 0 then -n else n
  {
    var m: nat := if n < 0 then -n else n;
    var digits := Text.NatToString(m);
    var sign := if n < 0 then "-" else "";
    var zeros := Repeat('0', Width(sign + digits, width) - |sign + digits|);
    assert ZeroPad(n, width)[|sign|..] == zeros + digits;
    Text.NatToStringValue(m);
    LeadingZeros(|zeros|, digits);
  }

  lemma {:induction false} LeadingZeros(z: nat, d: string)
    requires forall k :: 0 <= k < |d| ==> Text.IsDigit(d[k])
    ensures forall k :: 0 <= k < |Repeat('0', z) + d| ==> Text.IsDigit((Repeat('0', z) + d)[k])
    ensures Text.DigitsValue(Repeat('0', z) + d) == Text.DigitsValue(d)
    decreases |d|
  {
    var zs := Repeat('0', z);
    if |d| == 0 {
      assert zs + d == zs;
      AllZeros(z);
    } else {
      var init := d[..|d| - 1];
      assert (zs + d)[..|zs + d| - 1] == zs + init;
      LeadingZeros(z, init);
    }
  }

  lemma {:induction false} AllZeros(z: nat)
    ensures Text.DigitsValue(Repeat('0', z)) == 0
  {
    if z > 0 {
      var s := Repeat('0', z);
      assert s[..z - 1] == Repeat('0', z - 1);
      AllZeros(z - 1);
      assert s[z - 1] == '0';
      assert Text.DigitsValue(s) == Text.DigitsValue(s[..z - 1]) * 10 + Text.DigitValue(s[z - 1]);
    }
  }

  /** `f"{n:0>width}"`: zeros in front of the whole text, sign included. */
  function ZeroFill(n: int, width: nat): (r: string)
    ensures |r| == Width(Text.IntToString(n), width)
    ensures r[|r| - |Text.IntToString(n)|..] == Text.IntToString(n)
  {
    var t := Text.IntToString(n);
    Repeat('0', Width(t, width) - |t|) + t
  }

  /** Zero-filling a non-negative number is zero-padding it; a negative
      number gets its zeros before the sign. */
  lemma ZeroFillOfNatural(n: int, width: nat)
    ensures n >= 0 ==> ZeroFill(n, width) == ZeroPad(n, width)
    ensures n < 0 && width > |Text.IntToString(n)| ==> ZeroFill(n, width)[0] == '0'
  {
  }

  // ------------------------------------------------------- fixed point

  /** The nearest whole number of tenths to `x`, ties to the even one, as
      Python's `.1f` rounds the exact value it formats. */
  function Tenths(x: real): (t: nat)
    requires x >= 0.0
    ensures t as real - 0.5 <= 10.0 * x <= t as real + 0.5
  {
    var f := (10.0 * x).Floor;
    var frac := 10.0 * x - f as real;
    if frac > 0.5 || (frac == 0.5 && f % 2 == 1) then f + 1 else f
  }

  /** `f"{x:.1f}"`: the whole part, a point and one decimal. */
  function Fixed1(x: real): (r: string)
    ensures |r| >= 3 && r[|r| - 2] == '.' && Text.IsDigit(r[|r| - 1])
    ensures x < 0.0 <==> r[0] == '-'
    ensures forall k :: 0 <= k < |r| ==> Text.IsDigit(r[k]) || r[k] == '.' || r[k] == '-'
  {
    if x < 0.0 then "-" + Unsigned1(Tenths(-x)) else Unsigned1(Tenths(x))
  }

  function Unsigned1(t: nat): (r: string)
    ensures |r| >= 3 && r[|r| - 2] == '.' && Text.IsDigit(r[|r| - 1])
    ensures Text.IsDigit(r[0])
    ensures forall k :: 0 <= k < |r| ==> Text.IsDigit(r[k]) || r[k] == '.'
  {
    Text.NatToString(t / 10) + "." + [Text.DigitChar(t % 10)]
  }

  /** A whole number of tenths is printed exactly. */
  lemma ExactTenths(t: nat)
    ensures Tenths(t as real / 10.0) == t
    ensures Fixed1(t as real / 10.0) == Text.NatToString(t / 10) + "." + [Text.DigitChar(t % 10)]
  {
    assert 10.0 * (t as real / 10.0) == t as real;
  }

  // ------------------------------------------------------- word splitting

  /** Length of the run of non-whitespace characters `s` starts with. */
  function Run(s: string): (n: nat)
    ensures n <= |s|
    ensures forall k :: 0 <= k < n ==> !Text.IsSpace(s[k])
    ensures n < |s| ==> Text.IsSpace(s[n])
  {
    if |s| > 0 && !Text.IsSpace(s[0]) then 1 + Run(s[1..]) else 0
  }

  predicate Word(w: string) {
    |w| > 0 && forall k :: 0 <= k < |w| ==> !Text.IsSpace(w[k])
  }

  /** `s.split()`: the maximal runs of non-whitespace characters. */
  function Words(s: string): (ws: seq<string>)
    ensures forall i :: 0 <= i < |ws| ==> Word(ws[i])
    decreases |s|
  {
    var t := s[Text.Lead(s)..];
    if t == [] then []
    else [t[..Run(t)]] + Words(t[Run(t)..])
  }

  /** Words joined by single spaces split back into the same words. */
  lemma {:induction false} WordsOfJoin(ws: seq<string>)
    requires |ws| > 0 && forall i :: 0 <= i < |ws| ==> Word(ws[i])
    ensures Words(Text.Join(ws, ' ')) == ws
  {
    if |ws| == 1 {
      WordsOfWord(ws[0]);
    } else {
      var rest := Text.Join(ws[1..], ' ');
      assert Text.Join(ws, ' ') == ws[0] + " " + rest;
      WordsOfJoin(ws[1..]);
      JoinStartsWith(ws[1..]);
      WordsCons(ws[0], rest);
      assert ws == [ws[0]] + ws[1..];
    }
  }

  lemma WordsOfWord(w: string)
    requires Word(w)
    ensures Words(w) == [w]
  {
    RunPrefix(w, "");
    assert w + "" == w;
    assert Text.Lead(w) == 0;
    assert Words(w[|w|..]) == [];
  }

  lemma JoinStartsWith(ws: seq<string>)
    requires |ws| > 0 && forall i :: 0 <= i < |ws| ==> Word(ws[i])
    ensures |ws[0]| > 0 && |Text.Join(ws, ' ')| > 0 && Text.Join(ws, ' ')[0] == ws[0][0]
  {
    assert Word(ws[0]);
  }

  /** A word, a space and a word-led text: the word, then the text's words. */
  lemma WordsCons(w: string, rest: string)
    requires Word(w) && |rest| > 0 && !Text.IsSpace(rest[0])
    ensures Words(w + " " + rest) == [w] + Words(rest)
  {
    var s := w + " " + rest;
    RunOfWord(w, " " + rest);
    assert s == w + (" " + rest);
    assert Text.Lead(s) == 0;
    LeadingSpace(rest);
  }

  lemma RunOfWord(w: string, rest: string)
    requires Word(w) && (rest == [] || Text.IsSpace(rest[0]))
    ensures Run(w + rest) == |w| && (w + rest)[..|w|] == w && (w + rest)[|w|..] == rest
  {
    RunPrefix(w, rest);
  }

  lemma {:induction false} RunPrefix(w: string, rest: string)
    requires forall k :: 0 <= k < |w| ==> !Text.IsSpace(w[k])
    requires rest == [] || Text.IsSpace(rest[0])
    ensures Run(w + rest) == |w|
  {
    if |w| > 0 {
      assert (w + rest)[1..] == w[1..] + rest;
      RunPrefix(w[1..], rest);
    } else {
      assert w + rest == rest;
    }
  }

  /** A space in front of a word-led text does not change its words. */
  lemma LeadingSpace(rest: string)
    requires |rest| > 0 && !Text.IsSpace(rest[0])
    ensures Words(" " + rest) == Words(rest)
  {
    var s := " " + rest;
    assert Text.Lead(rest) == 0;
    assert Text.Lead(s) == 1 + Text.Lead(s[1..]);
    assert s[1..] == rest;
    assert s[Text.Lead(s)..] == rest[Text.Lead(rest)..];
  }

  // ------------------------------------------------------- line splitting

  /** The characters `str.splitlines()` breaks at. */
  predicate IsLineBreak(c: char) {
    c == '\n' || c == '\r' || c == '\U{B}' || c == '\U{C}'
    || c == '\U{1C}' || c == '\U{1D}' || c == '\U{1E}'
    || c == '\U{85}' || c == '\U{2028}' || c == '\U{2029}'
  }

  /** Length of the text before the first line break. */
  function LineEnd(s: string): (n: nat)
    ensures n <= |s|
    ensures forall k :: 0 <= k < n ==> !IsLineBreak(s[k])
    ensures n < |s| ==> IsLineBreak(s[n])
  {
    if |s| > 0 && !IsLineBreak(s[0]) then 1 + LineEnd(s[1..]) else 0
  }

  /** `[l.strip() for l in s.splitlines() if l.strip()]`: a "\r\n" pair only
      adds an empty line, which the filter drops. */
  function Lines(s: string): (ls: seq<string>)
    ensures forall i :: 0 <= i < |ls| ==> ls[i] != "" && Text.Strip(ls[i]) == ls[i]
    decreases |s|
  {
    if s == [] then []
    else
      var n := LineEnd(s);
      var line := Text.Strip(s[..n]);
      Text.StripIdempotent(s[..n]);
      var rest := if n < |s| then Lines(s[n + 1..]) else [];
      if line == "" then rest else [line] + rest
  }

  /** No character of `s` breaks a line. */
  predicate NoBreak(s: string) {
    forall k :: 0 <= k < |s| ==> !IsLineBreak(s[k])
  }

  lemma NoBreakConcat(a: string, b: string)
    requires NoBreak(a) && NoBreak(b)
    ensures NoBreak(a + b)
  {
    forall k | 0 <= k < |a + b| ensures !IsLineBreak((a + b)[k]) {
      if k >= |a| { assert (a + b)[k] == b[k - |a|]; }
    }
  }

  /** A non-empty line holding no line break, with no white space at
      either end, so that stripping leaves it unchanged. */
  predicate Line(l: string) {
    l != "" && !Text.IsSpace(l[0]) && !Text.IsSpace(l[|l| - 1]) && NoBreak(l)
  }

  /** Trimmed, non-empty lines joined by newlines are read back unchanged. */
  lemma {:induction false} LinesOfJoin(ls: seq<string>)
    requires |ls| > 0 && forall i :: 0 <= i < |ls| ==> Line(ls[i])
    ensures Lines(Text.Join(ls, '\n')) == ls
  {
    if |ls| == 1 {
      LastLine(ls[0]);
    } else {
      var rest := Text.Join(ls[1..], '\n');
      JoinCons(ls, '\n');
      LinesOfJoin(ls[1..]);
      LinesCons(ls[0], rest);
      assert ls == [ls[0]] + ls[1..];
    }
  }

  lemma JoinCons(parts: seq<string>, c: char)
    requires |parts| > 1
    ensures Text.Join(parts, c) == parts[0] + ([c] + Text.Join(parts[1..], c))
  {
  }

  lemma LastLine(l: string)
    requires Line(l)
    ensures Lines(Text.Join([l], '\n')) == [l]
  {
    LineEndOf(l, "");
    Text.StripOfTrimmed(l);
    assert l + "" == l;
    assert l[..|l|] == l;
  }

  /** A line, a newline and more text: the line, then the text's lines. */
  lemma LinesCons(l: string, rest: string)
    requires Line(l)
    ensures Lines(l + ("\n" + rest)) == [l] + Lines(rest)
  {
    var s := l + ("\n" + rest);
    LineEndOf(l, "\n" + rest);
    Text.StripOfTrimmed(l);
    assert s[..|l|] == l;
    assert s[|l| + 1..] == rest;
  }

  lemma {:induction false} LineEndOf(l: string, rest: string)
    requires forall k :: 0 <= k < |l| ==> !IsLineBreak(l[k])
    requires rest == [] || IsLineBreak(rest[0])
    ensures LineEnd(l + rest) == |l|
  {
    if |l| > 0 {
      assert (l + rest)[1..] == l[1..] + rest;
      LineEndOf(l[1..], rest);
    } else {
      assert l + rest == rest;
    }
  }

  /** Lines each ended by a newline, as written to a file, read back
      unchanged. */
  lemma {:induction false} LinesOfTerminated(ls: seq<string>)
    requires |ls| > 0 && forall i :: 0 <= i < |ls| ==> Line(ls[i])
    ensures Lines(Text.Join(ls, '\n') + "\n") == ls
  {
    if |ls| == 1 {
      LinesCons(ls[0], "");
      assert ls[0] + ("\n" + "") == Text.Join(ls, '\n') + "\n";
      assert Lines("") == [];
    } else {
      assert ls == [ls[0]] + ls[1..];
      var rest := Text.Join(ls[1..], '\n') + "\n";
      JoinCons(ls, '\n');
      assert Text.Join(ls, '\n') + "\n" == ls[0] + ("\n" + rest);
      LinesOfTerminated(ls[1..]);
      LinesCons(ls[0], rest);
    }
  }
}
