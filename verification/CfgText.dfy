/**
  Texts that are written out and read back: numbers by the value of their digits, quoted strings,
  words, lists. What the tokeniser and the evaluator make of a text is told here by how it was
  written, not by how they read it.
*/
module CfgText {
  import opened CfgLex
  import opened CfgEval

  // ---------- Numbers ----------

  function Power10(n: nat): nat {
    if n == 0 then 1 else 10 * Power10(n - 1)
  }

  predicate AllDigits(s: string) {
    forall i :: 0 <= i < |s| ==> '0' <= s[i] <= '9'
  }

  function DigitValue(c: char): nat
    requires '0' <= c <= '9'
  {
    c as nat - '0' as nat
  }

  /** The value of digits by their places: the first counts the most. */
  function PlaceValue(s: string): nat
    requires AllDigits(s)
  {
    if s == "" then 0 else DigitValue(s[0]) * Power10(|s| - 1) + PlaceValue(s[1..])
  }

  lemma {:induction false} PlaceValueSnoc(s: string, c: char)
    requires AllDigits(s) && '0' <= c <= '9'
    ensures AllDigits(s + [c]) && PlaceValue(s + [c]) == 10 * PlaceValue(s) + DigitValue(c)
  {
    if s == "" {
      assert PlaceValue([c]) == DigitValue(c) * Power10(0) + PlaceValue([c][1..]);
    } else {
      PlaceValueSnoc(s[1..], c);
      assert (s + [c])[1..] == s[1..] + [c] && (s + [c])[0] == s[0];
      assert Power10(|s|) == 10 * Power10(|s| - 1);
      TenTimes(DigitValue(s[0]), Power10(|s| - 1));
      hide Power10, DigitValue;
    }
  }

  lemma TenTimes(d: nat, p: nat)
    ensures d * (10 * p) == 10 * (d * p)
  {
  }

  lemma {:induction false} DecimalIsPlaces(s: string)
    requires AllDigits(s)
    ensures Decimal(s) == PlaceValue(s)
  {
    if s != "" {
      var init, c := s[..|s| - 1], s[|s| - 1];
      DecimalIsPlaces(init);
      PlaceValueSnoc(init, c);
      assert s == init + [c];
    }
  }

  /** The integer of a 64-bit type that is nearest to i. */
  function Nearest64(i: int): int {
    if i > 0x7fff_ffff_ffff_ffff then 0x7fff_ffff_ffff_ffff
    else if i < -0x8000_0000_0000_0000 then -0x8000_0000_0000_0000
    else i
  }

  /** Nothing that would belong to a number or a word. */
  predicate Stops(tail: string) {
    !IsWord(At(tail, 0)) && At(tail, 0) != '.'
  }

  predicate AfterNumber(tail: string) {
    !IsDigit(At(tail, 0)) && At(tail, 0) != '.'
  }

  lemma {:induction false} NumLenIs(s: string, tail: string, room: nat)
    requires |s| <= room && AfterNumber(tail) && forall i :: 0 <= i < |s| ==> IsDigit(s[i]) || s[i] == '.'
    ensures NumLen(s + tail, room) == |s|
  {
    if s == "" {
      assert s + tail == tail;
    } else {
      NumLenIs(s[1..], tail, room - 1);
      assert (s + tail)[1..] == s[1..] + tail;
    }
  }

  lemma {:induction false} DigitsHaveNoDots(s: string)
    requires AllDigits(s)
    ensures Dots(s) == 0
  {
    if s != "" {
      DigitsHaveNoDots(s[..|s| - 1]);
    }
  }

  lemma {:induction false} DotsTogether(s: string, t: string)
    ensures Dots(s + t) == Dots(s) + Dots(t)
  {
    if t == "" {
      assert s + t == s;
    } else {
      DotsTogether(s, t[..|t| - 1]);
      assert (s + t)[..|s + t| - 1] == s + t[..|t| - 1];
    }
  }

  /** A sign, and digits and dots behind it that start with a digit. */
  predicate NumberText(sign: string, s: string) {
    (sign == "" || sign == "-") && s != "" && IsDigit(s[0]) && |sign| + |s| <= 63 &&
    forall i :: 0 <= i < |s| ==> IsDigit(s[i]) || s[i] == '.'
  }

  lemma StartsNumber(sign: string, s: string, tail: string)
    requires (sign == "" || sign == "-") && s != "" && IsDigit(s[0])
    ensures var t := sign + s + tail;
            SkipWs(t) == t && TokenAt(t) == NumberTok(t) &&
            (IsDigit(At(t, 0)) || (At(t, 0) == '-' && IsDigit(At(t, 1)))) &&
            sign == if t[0] == '-' then "-" else ""
  {
    var t := sign + s + tail;
    assert t[0] == if sign == "" then s[0] else '-';
    assert sign == "-" ==> t[1] == s[0];
    hide NumberTok, StringTok, IdentTok;
  }

  /** What is read of a number: all of it, and a mistake exactly if it has more than one dot. */
  lemma NumberReads(sign: string, s: string, tail: string)
    requires NumberText(sign, s) && AfterNumber(tail)
    ensures Token(sign + s + tail)
         == Lexed(if Dots(s) > 0 then Flt(sign + s) else Int(StrToLL(sign + s)), tail, Dots(s) > 1)
  {
    hide *;
    var t := sign + s + tail;
    RunLength(sign, s, tail);
    StartsNumber(sign, s, tail);
    TokenIs(t);
    assert t == sign + (s + tail);
    NumberTokIs(t, sign, s + tail);
    assert (s + tail)[..|s|] == s && (s + tail)[|s|..] == tail;
  }

  lemma RunLength(sign: string, s: string, tail: string)
    requires NumberText(sign, s) && AfterNumber(tail)
    ensures (sign == "" || sign == "-") && s != "" && IsDigit(s[0]) && NumLen(s + tail, 63 - |sign|) == |s|
  {
    hide NumLen;
    NumLenIs(s, tail, 63 - |sign|);
  }

  lemma TokenIs(s: string)
    requires SkipWs(s) == s
    ensures Token(s) == TokenAt(s)
  {
    hide TokenAt;
  }

  /** The integer that digits stand for. */
  function IntOf(sign: string, s: string): int
    requires AllDigits(s)
  {
    if sign == "-" then 0 - PlaceValue(s) else PlaceValue(s)
  }

  lemma LimitsAre(sign: string, s: string)
    requires AllDigits(s) && s != "" && (sign == "" || sign == "-")
    ensures StrToLL(sign + s) == Nearest64(IntOf(sign, s))
  {
    DecimalIsPlaces(s);
    assert sign == "-" ==> (sign + s)[0] == '-' && (sign + s)[1..] == s;
    assert sign == "" ==> sign + s == s && s[0] != '-';
    hide Decimal, PlaceValue;
  }

  /** A run of digits reads as the value of its places, cut to the nearest 64-bit integer. */
  lemma IntegerReads(sign: string, s: string, tail: string)
    requires AllDigits(s) && s != "" && (sign == "" || sign == "-") && |sign| + |s| <= 63 && AfterNumber(tail)
    ensures Token(sign + s + tail) == Lexed(Int(Nearest64(IntOf(sign, s))), tail, false)
  {
    hide Token, Nearest64, StrToLL, PlaceValue, Dots;
    NumberReads(sign, s, tail);
    DigitsHaveNoDots(s);
    LimitsAre(sign, s);
  }

  lemma {:induction false} NumLenFills(s: string, tail: string, room: nat)
    requires AllDigits(s) && room <= |s|
    ensures NumLen(s + tail, room) == room
  {
    if room > 0 {
      NumLenFills(s[1..], tail, room - 1);
      assert (s + tail)[1..] == s[1..] + tail;
    }
  }

  /** A longer run of digits is cut behind 63 characters, and what is left is the next token. */
  lemma LongIntegerIsCut(sign: string, s: string, tail: string)
    requires AllDigits(s) && s != "" && (sign == "" || sign == "-") && |sign| + |s| > 63
    ensures var n := 63 - |sign|;
            Token(sign + s + tail) == Lexed(Int(Nearest64(IntOf(sign, s[..n]))), s[n..] + tail, false)
  {
    hide *;
    var t, n := sign + s + tail, 63 - |sign|;
    SplitDigits(s, n);
    StartsNumber(sign, s, tail);
    TokenIs(t);
    NumLenFills(s, tail, n);
    assert t == sign + (s + tail);
    NumberTokIs(t, sign, s + tail);
    DigitsHaveNoDots(s[..n]);
    LimitsAre(sign, s[..n]);
    assert (s + tail)[..n] == s[..n] && (s + tail)[n..] == s[n..] + tail;
  }

  lemma SplitDigits(s: string, n: nat)
    requires AllDigits(s) && 0 < n <= |s|
    ensures AllDigits(s[..n]) && s[..n] != "" && IsDigit(s[0])
  {
  }

  lemma OneDot()
    ensures Dots(".") == 1
  {
    assert "."[..0] == "";
  }

  /** Digits with one dot among them are a float, and keep their text. */
  lemma FloatReads(sign: string, a: string, b: string, tail: string)
    requires AllDigits(a) && AllDigits(b) && a != "" && (sign == "" || sign == "-")
    requires |sign| + |a| + |b| + 1 <= 63 && AfterNumber(tail)
    ensures Token(sign + (a + "." + b) + tail) == Lexed(Flt(sign + (a + "." + b)), tail, false)
  {
    hide Token, StrToLL, Dots;
    var s := a + "." + b;
    DigitsHaveNoDots(a);
    DigitsHaveNoDots(b);
    OneDot();
    DotsTogether(a, ".");
    DotsTogether(a + ".", b);
    NumberReads(sign, s, tail);
  }

  /** A second dot is a mistake. */
  lemma TwoDotsFail(sign: string, a: string, b: string, c: string, tail: string)
    requires AllDigits(a) && AllDigits(b) && AllDigits(c) && a != "" && (sign == "" || sign == "-")
    requires |sign| + |a| + |b| + |c| + 2 <= 63 && AfterNumber(tail)
    ensures var t := Token(sign + (a + "." + b + "." + c) + tail); t.bad && t.rest == tail
  {
    hide Token, StrToLL, Dots;
    OneDot();
    DigitsHaveNoDots(a);
    DigitsHaveNoDots(b);
    DotsTogether(a, ".");
    DotsTogether(a + ".", b);
    DotsTogether(a + "." + b, ".");
    DotsTogether(a + "." + b + ".", c);
    NumberReads(sign, a + "." + b + "." + c, tail);
  }

  // ---------- Integers as they print ----------

  lemma {:induction false} Printed(n: nat)
    ensures AllDigits(DecimalOf(n)) && PlaceValue(DecimalOf(n)) == n
  {
    var c := "0123456789"[n % 10];
    assert '0' <= c <= '9' && DigitValue(c) == n % 10;
    if n < 10 {
      PlaceValueSnoc("", c);
      assert "" + [c] == DecimalOf(n);
    } else {
      Printed(n / 10);
      PlaceValueSnoc(DecimalOf(n / 10), c);
    }
  }

  lemma {:induction false} PrintedLength(n: nat, k: nat)
    requires 0 < k && n < Power10(k)
    ensures |DecimalOf(n)| <= k
    decreases k
  {
    if n >= 10 {
      assert k > 1;
      PrintedLength(n / 10, k - 1);
    }
  }

  lemma Power19()
    ensures Power10(19) == 10_000_000_000_000_000_000
  {
    assert Power10(6) == 1_000_000;
    assert Power10(12) == 1_000_000_000_000;
  }

  /** Every 64-bit integer, as it prints, reads back. */
  lemma IntReadsBack(i: int, fmt: Format, tail: string)
    requires -0x8000_0000_0000_0000 <= i <= 0x7fff_ffff_ffff_ffff && AfterNumber(tail)
    ensures Token(Show(VInt(i), fmt) + tail) == Lexed(Int(i), tail, false)
  {
    hide Token, PlaceValue, DecimalOf;
    var n, sign := if i < 0 then 0 - i else i, if i < 0 then "-" else "";
    Printed(n);
    Power19();
    PrintedLength(n, 19);
    IntegerReads(sign, DecimalOf(n), tail);
    assert Show(VInt(i), fmt) == sign + DecimalOf(n);
  }

  // ---------- Strings ----------

  /** A character inside quotes. */
  function Escape(c: char): string {
    if c == '\n' then "\\n" else if c == '\t' then "\\t"
    else if c == '"' then "\\\"" else if c == '\\' then "\\\\" else [c]
  }

  function Escapes(s: string): string {
    if s == "" then "" else Escape(s[0]) + Escapes(s[1..])
  }

  /** s in quotes, with newline, tab, quote and backslash escaped. */
  function Quoted(s: string): string {
    "\"" + Escapes(s) + "\""
  }

  /** Where the body of a string literal has one more character. */
  lemma EscapeReads(c: char, rest: string, room: nat)
    requires c != '\0' && room > 0
    ensures var (text, left) := StrBody(rest, room - 1);
            StrBody(Escape(c) + rest, room) == ([c] + text, left)
  {
    var t := Escape(c) + rest;
    if |Escape(c)| == 2 {
      assert t[0] == '\\' && t[1] == Escape(c)[1] && t[2..] == rest;
    } else {
      assert t[0] == c && t[1..] == rest;
    }
  }

  lemma EscapesStep(s: string, tail: string)
    requires s != ""
    ensures Escapes(s) + tail == Escape(s[0]) + (Escapes(s[1..]) + tail)
  {
    hide Escape;
  }

  lemma NoBody(tail: string, room: nat)
    requires At(tail, 0) == '"' || At(tail, 0) == '\0'
    ensures Escapes("") + tail == tail && StrBody(tail, room) == ("", tail)
  {
  }

  lemma {:induction false} BodyReads(s: string, tail: string, room: nat)
    requires |s| <= room && '\0' !in s && (At(tail, 0) == '"' || At(tail, 0) == '\0')
    ensures StrBody(Escapes(s) + tail, room) == (s, tail)
  {
    hide *;
    if s == "" {
      NoBody(tail, room);
    } else {
      BodyReads(s[1..], tail, room - 1);
      EscapesStep(s, tail);
      EscapeReads(s[0], Escapes(s[1..]) + tail, room);
      assert [s[0]] + s[1..] == s;
    }
  }

  lemma QuoteStarts(body: string)
    ensures SkipWs("\"" + body) == "\"" + body && TokenAt("\"" + body) == StringTok(body)
  {
    assert ("\"" + body)[1..] == body;
    hide StringTok, NumberTok, IdentTok;
  }

  lemma ClosedReads(body: string, s: string, tail: string)
    requires StrBody(body, 511) == (s, "\"" + tail)
    ensures Token("\"" + body) == Lexed(Str(s), tail, false)
  {
    QuoteStarts(body);
    assert ("\"" + tail)[1..] == tail;
    hide StrBody;
  }

  /** Every string of at most 511 characters, in quotes, reads back. */
  lemma StringReadsBack(s: string, tail: string)
    requires |s| <= 511 && '\0' !in s
    ensures Token(Quoted(s) + tail) == Lexed(Str(s), tail, false)
  {
    var body := Escapes(s) + ("\"" + tail);
    assert Quoted(s) + tail == "\"" + body;
    BodyReads(s, "\"" + tail, 511);
    ClosedReads(body, s, tail);
    hide StrBody, Escapes, Token;
  }

  /** A string without its closing quote ends with the line, and that is a mistake. */
  lemma OpenStringReads(s: string)
    requires |s| <= 511 && '\0' !in s
    ensures Token("\"" + Escapes(s)) == Lexed(Str(s), "", true)
  {
    assert Escapes(s) + "" == Escapes(s);
    BodyReads(s, "", 511);
    QuoteStarts(Escapes(s));
    hide StrBody, Escapes;
  }

  lemma BackslashReads(c: char, s: string, rest: string, left: string, room: nat)
    requires c != 'n' && c != 't' && c != '\0' && room > 0 && StrBody(rest, room - 1) == (s, left)
    ensures StrBody("\\" + ([c] + rest), room) == ([c] + s, left)
  {
    var body := "\\" + ([c] + rest);
    assert body[0] == '\\' && body[1] == c && body[2..] == rest;
  }

  /** A backslash before any other character stands for this character. */
  lemma OtherEscapes(c: char, s: string, tail: string)
    requires c != 'n' && c != 't' && c != '\0' && |s| <= 510 && '\0' !in s
    ensures Token("\"" + ("\\" + ([c] + (Escapes(s) + ("\"" + tail))))) == Lexed(Str([c] + s), tail, false)
  {
    hide *;
    var rest := Escapes(s) + ("\"" + tail);
    QuoteEnds(tail);
    BodyReads(s, "\"" + tail, 510);
    BackslashReads(c, s, rest, "\"" + tail, 511);
    ClosedReads("\\" + ([c] + rest), [c] + s, tail);
  }

  lemma QuoteEnds(tail: string)
    ensures At("\"" + tail, 0) == '"'
  {
  }

  lemma NoRoom(rest: string)
    ensures StrBody(rest, 0) == ("", rest)
  {
  }

  lemma {:induction false} BodyFills(s: string, tail: string, room: nat)
    requires room < |s| && '\0' !in s
    ensures StrBody(Escapes(s) + tail, room) == (s[..room], Escapes(s[room..]) + tail)
  {
    hide *;
    if room == 0 {
      NoRoom(Escapes(s) + tail);
      assert s[..0] == "" && s[0..] == s;
    } else {
      BodyFills(s[1..], tail, room - 1);
      EscapesStep(s, tail);
      EscapeReads(s[0], Escapes(s[1..]) + tail, room);
      assert [s[0]] + s[1..][..room - 1] == s[..room] && s[1..][room - 1..] == s[room..];
    }
  }

  lemma NoBareQuote(s: string, tail: string)
    requires s != ""
    ensures At(Escapes(s) + tail, 0) != '"'
  {
    assert (Escapes(s) + tail)[0] == Escape(s[0])[0];
  }

  /** A longer one is cut behind 511 characters, and that is a mistake. */
  lemma StringIsCut(s: string, tail: string)
    requires |s| > 511 && '\0' !in s
    ensures Token(Quoted(s) + tail).tok == Str(s[..511]) && Token(Quoted(s) + tail).bad
  {
    var body := Escapes(s) + ("\"" + tail);
    assert Quoted(s) + tail == "\"" + body;
    BodyFills(s, "\"" + tail, 511);
    NoBareQuote(s[511..], "\"" + tail);
    QuoteStarts(body);
    hide StrBody, Escapes;
  }

  // ---------- Blanks, words and comments ----------

  /** Blanks, tabs and carriage returns in front of a token do not count. */
  lemma BlanksSkipped(c: char, s: string)
    requires c == ' ' || c == '\t' || c == '\r'
    ensures Token([c] + s) == Token(s)
  {
    assert ([c] + s)[1..] == s;
    hide TokenAt;
  }

  /** A word of letters, digits and underscores that starts with no digit, of at most 511 characters. */
  predicate IsName(w: string) {
    0 < |w| <= 511 && IsLetter(w[0]) && forall i :: 0 <= i < |w| ==> IsLetter(w[i]) || '0' <= w[i] <= '9'
  }

  predicate IsLetter(c: char) {
    'A' <= c <= 'Z' || 'a' <= c <= 'z' || c == '_'
  }

  lemma WordReads(w: string, tail: string)
    requires IsName(w) && !IsWord(At(tail, 0))
    ensures Token(w + tail) == Lexed(Ident(w), tail, false)
  {
    var s := w + tail;
    WordLenIs(w, tail, 511);
    assert s[..|w|] == w && s[|w|..] == tail && s[0] == w[0];
    assert SkipWs(s) == s;
    hide WordLen;
  }

  lemma {:induction false} WordLenFills(w: string, tail: string, room: nat)
    requires room <= |w| && forall i :: 0 <= i < |w| ==> IsLetter(w[i]) || '0' <= w[i] <= '9'
    ensures WordLen(w + tail, room) == room
  {
    if room > 0 {
      WordLenFills(w[1..], tail, room - 1);
      assert (w + tail)[1..] == w[1..] + tail;
    }
  }

  /** A longer word is cut, and what is left is the next token. */
  lemma LongWordIsCut(w: string, tail: string)
    requires |w| > 511 && IsLetter(w[0]) && forall i :: 0 <= i < |w| ==> IsLetter(w[i]) || '0' <= w[i] <= '9'
    ensures Token(w + tail) == Lexed(Ident(w[..511]), w[511..] + tail, false)
  {
    var s := w + tail;
    WordLenFills(w, tail, 511);
    assert s[..511] == w[..511] && s[511..] == w[511..] + tail && s[0] == w[0];
    assert SkipWs(s) == s;
    hide WordLen;
  }

  /** The signs, and the comment that ends a line. */
  lemma SignsRead(s: string)
    ensures Token("[" + s) == Lexed(LBracket, s, false) && Token("]" + s) == Lexed(RBracket, s, false)
    ensures Token("," + s) == Lexed(Comma, s, false) && Token("#" + s) == Lexed(Hash, s, false)
    ensures Token("+=" + s) == Lexed(PlusEq, s, false) && Token("=" + s) == Lexed(Eq, s, false)
    ensures At(s, 0) != '=' ==> Token("+" + s) == Lexed(Plus, s, false)
  {
    hide StringTok, NumberTok, IdentTok;
    assert ("[" + s)[1..] == s && ("]" + s)[1..] == s && ("," + s)[1..] == s && ("#" + s)[1..] == s;
    assert ("+=" + s)[2..] == s && ("=" + s)[1..] == s && ("+" + s)[1..] == s;
  }

  /** c begins no token: it is no blank, sign, quote, letter or digit, and no minus before a digit. */
  predicate BeginsNothing(c: char, next: char) {
    c != ' ' && c != '\t' && c != '\r' && c != '\n' && c != '\0' && c != '#' && c != '"' && c != '+' && c != '=' &&
    c != '[' && c != ']' && c != ',' && !IsLetter(c) && !('0' <= c <= '9') &&
    (c == '-' ==> !('0' <= next <= '9'))
  }

  /** Such a character ends what is read, as the end of the line does. */
  lemma OtherCharacters(c: char, s: string)
    requires BeginsNothing(c, At(s, 0))
    ensures Token([c] + s) == Lexed(Eof, s, false)
  {
    assert ([c] + s)[1..] == s && SkipWs([c] + s) == [c] + s && At([c] + s, 1) == At(s, 0);
    hide StringTok, NumberTok, IdentTok;
  }

  lemma NothingLeft()
    ensures Token("") == Lexed(Eof, "", false)
  {
  }
}
