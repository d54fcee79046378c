/** The pieces of the Java library that the shape encoding relies on, written out:
    `Integer.parseInt` on decimal text, `Integer.toString`, `String.split(" ")`,
    `BufferedReader.readLine` over a whole file, and `PrintWriter.println` lines. */
module Text {

  datatype Option<+T> = None | Some(value: T)

  const IntMin: int := -0x8000_0000
  const IntMax: int := 0x7fff_ffff

  /** The range of a Java `int`. */
  predicate IsInt32(n: int) {
    IntMin <= n <= IntMax
  }

  predicate IsDigit(c: char) {
    '0' <= c <= '9'
  }

  predicate AllDigits(s: string) {
    forall i :: 0 <= i < |s| ==> IsDigit(s[i])
  }

  function DigitValue(c: char): nat
    requires IsDigit(c)
  {
    (c as int) - ('0' as int)
  }

  function DigitChar(d: nat): (c: char)
    requires d < 10
    ensures IsDigit(c) && DigitValue(c) == d
  {
    (('0' as int) + d) as char
  }

  /** The value of a string of decimal digits, most significant digit first; `None` if some
      character is not a digit. */
  function DigitsValue(s: string): (r: Option<nat>)
  {
    if s == [] then Some(0)
    else
      var init := DigitsValue(s[..|s| - 1]);
      if init.Some? && IsDigit(s[|s| - 1]) then Some(init.value * 10 + DigitValue(s[|s| - 1]))
      else None
  }

  /** Digit strings, and only they, have a value. */
  lemma {:induction false} DigitsValueSome(s: string)
    ensures DigitsValue(s).Some? <==> AllDigits(s)
  {
    if s != [] {
      var init := s[..|s| - 1];
      DigitsValueSome(init);
      assert forall i :: 0 <= i < |init| ==> init[i] == s[i];
    }
  }

  /** `Integer.parseInt(t)`: an optional sign, at least one digit and nothing else, and a value
      that fits in an `int`; anything else is a `NumberFormatException`, here `None`. */
  function ParseInt(t: string): (r: Option<int>)
    ensures r.Some? ==> IsInt32(r.value)
  {
    var digits := if |t| > 0 && (t[0] == '-' || t[0] == '+') then t[1..] else t;
    var magnitude := DigitsValue(digits);
    if |digits| == 0 || magnitude.None? then None
    else
      var v := if t[0] == '-' then -(magnitude.value as int) else magnitude.value;
      if IsInt32(v) then Some(v) else None
  }

  /** Decimal digits of a natural number, with no leading zero. */
  function NatToString(n: nat): (s: string)
    ensures |s| > 0 && AllDigits(s) && DigitsValue(s) == Some(n)
    decreases n
  {
    if n < 10 then [DigitChar(n)]
    else
      var s := NatToString(n / 10) + [DigitChar(n % 10)];
      assert s[..|s| - 1] == NatToString(n / 10);
      s
  }

  /** `Integer.toString(n)` (what string concatenation prints for an `int`): a minus sign
      exactly when `n` is negative, then the decimal digits of its magnitude. */
  function IntToString(n: int): (s: string)
    ensures |s| > 0 && (s[0] == '-' <==> n < 0)
  {
    if n < 0 then "-" + NatToString(-n) else NatToString(n)
  }

  /** The printed text of a number is one token on one line. */
  lemma PrintedToken(n: int)
    ensures |IntToString(n)| > 0 && ' ' !in IntToString(n) && '\n' !in IntToString(n)
  {
    var t := IntToString(n);
    if n < 0 {
      assert forall j :: 1 <= j < |t| ==> t[j] == t[1..][j - 1];
    }
  }

  /** Printing an `int` and parsing it back gives the same value. */
  lemma ParsePrinted(n: int)
    requires IsInt32(n)
    ensures ParseInt(IntToString(n)) == Some(n)
  {
    var t := IntToString(n);
    if n < 0 {
      assert t[1..] == NatToString(-n);
    } else {
      assert IsDigit(t[0]);
    }
    assert forall i :: 1 <= i < |t| ==> IsDigit(t[i]);
  }

  // ---------------------------------------------------------------------------
  // Splitting and joining

  /** Every piece between occurrences of `sep`, empty pieces included. */
  function SplitOn(s: string, sep: char): (parts: seq<string>)
    ensures |parts| > 0
    ensures forall i :: 0 <= i < |parts| ==> sep !in parts[i]
  {
    if s == [] then [[]]
    else
      var rest := SplitOn(s[1..], sep);
      if s[0] == sep then [[]] + rest else [[s[0]] + rest[0]] + rest[1..]
  }

  function DropTrailingEmpty(parts: seq<string>): (r: seq<string>)
    ensures |r| <= |parts| && r == parts[..|r|]
    ensures r != [] ==> r[|r| - 1] != []
    ensures forall i :: |r| <= i < |parts| ==> parts[i] == []
  {
    if parts != [] && parts[|parts| - 1] == [] then DropTrailingEmpty(parts[..|parts| - 1]) else parts
  }

  /** `s.split(" ")` for a one-character separator: the whole string when the separator does
      not occur, otherwise the pieces with the trailing empty ones removed. */
  function JavaSplit(s: string, sep: char): (parts: seq<string>)
    ensures sep !in s ==> parts == [s]
    ensures forall i :: 0 <= i < |parts| ==> sep !in parts[i]
    ensures sep in s && parts != [] ==> parts[|parts| - 1] != []
  {
    if sep !in s then [s] else DropTrailingEmpty(SplitOn(s, sep))
  }

  /** The pieces separated by single `sep` characters. */
  function Join(parts: seq<string>, sep: char): string
  {
    if |parts| == 0 then []
    else if |parts| == 1 then parts[0]
    else parts[0] + [sep] + Join(parts[1..], sep)
  }

  lemma {:induction false} SplitPrefix(t: string, rest: string, sep: char)
    requires sep !in t
    ensures SplitOn(t + rest, sep) == [t + SplitOn(rest, sep)[0]] + SplitOn(rest, sep)[1..]
    decreases |t|
  {
    if t != [] {
      assert (t + rest)[1..] == t[1..] + rest;
      SplitPrefix(t[1..], rest, sep);
      assert [t[0]] + (t[1..] + SplitOn(rest, sep)[0]) == t + SplitOn(rest, sep)[0];
    } else {
      var parts := SplitOn(rest, sep);
      assert t + rest == rest && t + parts[0] == parts[0];
      assert parts == [parts[0]] + parts[1..];
    }
  }

  lemma SplitAfterSeparator(t: string, rest: string, sep: char)
    requires sep !in t
    ensures SplitOn(t + [sep] + rest, sep) == [t] + SplitOn(rest, sep)
  {
    assert t + [sep] + rest == t + ([sep] + rest);
    SplitPrefix(t, [sep] + rest, sep);
    assert ([sep] + rest)[1..] == rest;
    assert SplitOn([sep] + rest, sep) == [[]] + SplitOn(rest, sep);
    assert t + [] == t;
  }

  /** Splitting text made by `Join` gives back its pieces, provided none of them contains the
      separator. */
  lemma {:induction false} SplitJoin(parts: seq<string>, sep: char)
    requires |parts| > 0
    requires forall i :: 0 <= i < |parts| ==> sep !in parts[i]
    ensures SplitOn(Join(parts, sep), sep) == parts
  {
    if |parts| == 1 {
      SplitPrefix(parts[0], [], sep);
      assert parts[0] + [] == parts[0];
    } else {
      SplitAfterSeparator(parts[0], Join(parts[1..], sep), sep);
      SplitJoin(parts[1..], sep);
    }
  }

  /** `Join` then `JavaSplit` gives back at least two non-empty pieces without separators. */
  lemma JavaSplitJoin(parts: seq<string>, sep: char)
    requires |parts| >= 2
    requires forall i :: 0 <= i < |parts| ==> sep !in parts[i] && parts[i] != []
    ensures JavaSplit(Join(parts, sep), sep) == parts
  {
    var s := Join(parts, sep);
    assert s[|parts[0]|] == sep;
    SplitJoin(parts, sep);
  }

  // ---------------------------------------------------------------------------
  // Lines of a text file

  /** The lines `BufferedReader.readLine` returns one by one, with `\n` as the line end: a
      final terminator does not start another line, and empty text has no lines. */
  function ReadLines(text: string): (lines: seq<string>)
    ensures text == [] ==> lines == []
    ensures forall i :: 0 <= i < |lines| ==> '\n' !in lines[i]
  {
    if text == [] then []
    else
      var parts := SplitOn(text, '\n');
      if parts[|parts| - 1] == [] then parts[..|parts| - 1] else parts
  }

  /** What a loop of `println(line)` writes: every line followed by `\n`. */
  function Terminated(lines: seq<string>): (text: string)
    ensures text == [] <==> lines == []
    ensures lines != [] ==> text[|text| - 1] == '\n'
  {
    if lines == [] then [] else lines[0] + "\n" + Terminated(lines[1..])
  }

  lemma {:induction false} TerminatedSnoc(lines: seq<string>, line: string)
    ensures Terminated(lines + [line]) == Terminated(lines) + line + "\n"
  {
    if lines != [] {
      assert (lines + [line])[1..] == lines[1..] + [line];
      TerminatedSnoc(lines[1..], line);
    } else {
      assert [line][1..] == [];
    }
  }

  /** Writing one more line of the list extends the text by that line and its `\n`. */
  lemma TerminatedPrefix(lines: seq<string>, i: nat)
    requires i < |lines|
    ensures Terminated(lines[..i + 1]) == Terminated(lines[..i]) + lines[i] + "\n"
  {
    assert lines[..i + 1] == lines[..i] + [lines[i]];
    TerminatedSnoc(lines[..i], lines[i]);
  }

  lemma Recons<T>(xs: seq<T>, ys: seq<T>)
    requires xs != []
    ensures [xs[0]] + (xs[1..] + ys) == xs + ys
  {
    assert xs == [xs[0]] + xs[1..];
  }

  lemma SplitAfter(s: string, t: string, rest: string, sep: char)
    requires sep !in t && s == t + [sep] + rest
    ensures SplitOn(s, sep) == [t] + SplitOn(rest, sep)
  {
    SplitAfterSeparator(t, rest, sep);
  }

  lemma TerminatedCons(lines: seq<string>, rest: string)
    requires lines != []
    ensures Terminated(lines) + rest == lines[0] + ['\n'] + (Terminated(lines[1..]) + rest)
  {
  }

  lemma {:induction false} SplitTerminated(lines: seq<string>, rest: string)
    requires forall i :: 0 <= i < |lines| ==> '\n' !in lines[i]
    ensures SplitOn(Terminated(lines) + rest, '\n') == lines + SplitOn(rest, '\n')
  {
    if lines != [] {
      var whole, tail := Terminated(lines) + rest, Terminated(lines[1..]) + rest;
      TerminatedCons(lines, rest);
      SplitAfter(whole, lines[0], tail, '\n');
      SplitTerminated(lines[1..], rest);
      Recons(lines, SplitOn(rest, '\n'));
    } else {
      assert Terminated(lines) + rest == rest;
    }
  }

  /** Reading back what was written line by line gives the same lines. */
  lemma ReadTerminated(lines: seq<string>)
    requires forall i :: 0 <= i < |lines| ==> '\n' !in lines[i]
    ensures ReadLines(Terminated(lines)) == lines
  {
    SplitTerminated(lines, []);
    assert Terminated(lines) + [] == Terminated(lines);
    if lines != [] {
      assert Terminated(lines)[|lines[0]|] == '\n';
    }
  }
}
