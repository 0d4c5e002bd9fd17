/**
  The tokeniser of cfg_parser.c. A position in a line is the text still to be read; a NUL character
  ends the text, and so does its end.
*/
module CfgLex {

  const MAX_TOK := 512  // CFG_MAX_TOK: a token holds one character less

  const INT64_MAX := 0x7fff_ffff_ffff_ffff
  const INT64_MIN := -0x8000_0000_0000_0000

  /** tok_t. A float keeps its text: what strtod makes of it is not modelled. */
  datatype Tok =
    | Eof | Ident(name: string) | Str(text: string) | Int(val: int) | Flt(digits: string)
    | Eq | PlusEq | Plus | LBracket | RBracket | Comma | Hash

  /** A token, the text behind it, and whether reading it set l->error. */
  datatype Lexed = Lexed(tok: Tok, rest: string, bad: bool)

  function At(s: string, i: nat): char {
    if i < |s| then s[i] else '\0'
  }

  predicate IsBlank(c: char) {
    c == ' ' || c == '\t' || c == '\r'
  }

  predicate IsDigit(c: char) {
    '0' <= c <= '9'
  }

  predicate IsAlpha(c: char) {
    'a' <= c <= 'z' || 'A' <= c <= 'Z' || c == '_'
  }

  predicate IsWord(c: char) {
    IsAlpha(c) || IsDigit(c)
  }

  /** s is what is left of t after some reading. */
  ghost predicate Suffix(s: string, t: string) {
    |s| <= |t| && s == t[|t| - |s|..]
  }

  function SkipWs(s: string): (r: string)
    ensures |r| <= |s| && (At(r, 0) == At(s, 0) || |r| < |s|)
    ensures !IsBlank(At(r, 0))
  {
    if IsBlank(At(s, 0)) then SkipWs(s[1..]) else s
  }

  /** What a backslash and c stand for. */
  function Escaped(c: char): char {
    if c == 'n' then '\n' else if c == 't' then '\t' else c
  }

  /** The characters of a string literal, at most room of them, and the text behind them. */
  function StrBody(s: string, room: nat): (r: (string, string))
    ensures |r.0| <= room && |r.1| <= |s|
  {
    if room == 0 || At(s, 0) == '\0' || At(s, 0) == '"' then ("", s)
    else if At(s, 0) == '\\' && At(s, 1) != '\0' then
      var (text, rest) := StrBody(s[2..], room - 1);
      ([Escaped(s[1])] + text, rest)
    else
      var (text, rest) := StrBody(s[1..], room - 1);
      ([s[0]] + text, rest)
  }

  /** How many of the first characters, at most room, are digits or dots. */
  function NumLen(s: string, room: nat): (n: nat)
    ensures n <= room && n <= |s|
    ensures room > 0 && IsDigit(At(s, 0)) ==> n > 0
  {
    if room > 0 && (IsDigit(At(s, 0)) || At(s, 0) == '.') then 1 + NumLen(s[1..], room - 1) else 0
  }

  function WordLen(s: string, room: nat): (n: nat)
    ensures n <= room && n <= |s|
    ensures room > 0 && IsWord(At(s, 0)) ==> n > 0
  {
    if room > 0 && IsWord(At(s, 0)) then 1 + WordLen(s[1..], room - 1) else 0
  }

  function Dots(s: string): nat {
    if s == "" then 0 else Dots(s[..|s| - 1]) + if s[|s| - 1] == '.' then 1 else 0
  }

  /** The value of a run of digits. */
  function Decimal(s: string): nat {
    if s == "" then 0
    else 10 * Decimal(s[..|s| - 1]) + if IsDigit(s[|s| - 1]) then (s[|s| - 1] - '0') as nat else 0
  }

  /** strtoll of an optional sign and digits: out-of-range values are cut to the nearest limit. */
  function StrToLL(s: string): (i: int)
    ensures INT64_MIN <= i <= INT64_MAX
  {
    var v := if At(s, 0) == '-' then 0 - Decimal(s[1..]) else Decimal(s);
    if v < INT64_MIN then INT64_MIN else if v > INT64_MAX then INT64_MAX else v
  }

  function StringTok(s: string): (r: Lexed)
    ensures |r.rest| <= |s| && r.tok.Str?
  {
    var (text, rest) := StrBody(s, MAX_TOK - 1);
    if At(rest, 0) == '"' then Lexed(Str(text), rest[1..], false) else Lexed(Str(text), rest, true)
  }

  function NumberTok(s: string): (r: Lexed)
    requires IsDigit(At(s, 0)) || (At(s, 0) == '-' && IsDigit(At(s, 1)))
    ensures |r.rest| < |s| && !r.tok.Eof?
  {
    var sign := if s[0] == '-' then 1 else 0;
    var n := sign + NumLen(s[sign..], 63 - sign);
    var text := s[..n];
    Lexed(if Dots(text) > 0 then Flt(text) else Int(StrToLL(text)), s[n..], Dots(text) > 1)
  }

  function IdentTok(s: string): (r: Lexed)
    requires IsAlpha(At(s, 0))
    ensures |r.rest| < |s| && !r.tok.Eof?
  {
    var n := WordLen(s, MAX_TOK - 1);
    Lexed(Ident(s[..n]), s[n..], false)
  }

  /** The token at the start of s, which is not blank. */
  function TokenAt(s: string): (r: Lexed)
    ensures |r.rest| <= |s|
    ensures r.tok.Eof? || |r.rest| < |s|
  {
    var c := At(s, 0);
    if c == '\0' || c == '\n' then Lexed(Eof, s, false)
    else if c == '#' then Lexed(Hash, s[1..], false)
    else if c == '"' then StringTok(s[1..])
    else if c == '+' && At(s, 1) == '=' then Lexed(PlusEq, s[2..], false)
    else if c == '+' then Lexed(Plus, s[1..], false)
    else if c == '=' then Lexed(Eq, s[1..], false)
    else if c == '[' then Lexed(LBracket, s[1..], false)
    else if c == ']' then Lexed(RBracket, s[1..], false)
    else if c == ',' then Lexed(Comma, s[1..], false)
    else if IsDigit(c) || (c == '-' && IsDigit(At(s, 1))) then NumberTok(s)
    else if IsAlpha(c) then IdentTok(s)
    else Lexed(Eof, s[1..], false)
  }

  /** next_tok. */
  function Token(s: string): (r: Lexed)
    ensures |r.rest| <= |s|
    ensures r.tok.Eof? || |r.rest| < |s|
  {
    TokenAt(SkipWs(s))
  }

  // ---------- What reading a token leaves ----------

  lemma SuffixStep(s: string, t: string, n: nat)
    requires Suffix(s, t) && n <= |s|
    ensures Suffix(s[n..], t)
  {
  }

  lemma {:induction false} SkipWsSuffix(s: string, t: string)
    requires Suffix(s, t)
    ensures Suffix(SkipWs(s), t)
  {
    if IsBlank(At(s, 0)) {
      SuffixStep(s, t, 1);
      SkipWsSuffix(s[1..], t);
    }
  }

  lemma {:induction false} StrBodySuffix(s: string, room: nat, t: string)
    requires Suffix(s, t)
    ensures Suffix(StrBody(s, room).1, t)
  {
    if room == 0 || At(s, 0) == '\0' || At(s, 0) == '"' {
    } else if At(s, 0) == '\\' && At(s, 1) != '\0' {
      SuffixStep(s, t, 2);
      StrBodySuffix(s[2..], room - 1, t);
    } else {
      SuffixStep(s, t, 1);
      StrBodySuffix(s[1..], room - 1, t);
    }
  }

  lemma StringTokSuffix(s: string, t: string)
    requires Suffix(s, t)
    ensures Suffix(StringTok(s).rest, t)
  {
    StrBodySuffix(s, MAX_TOK - 1, t);
    var rest := StrBody(s, MAX_TOK - 1).1;
    if rest != "" {
      SuffixStep(rest, t, 1);
    }
    hide StrBody;
  }

  lemma NumberTokSuffix(s: string, t: string)
    requires Suffix(s, t) && (IsDigit(At(s, 0)) || (At(s, 0) == '-' && IsDigit(At(s, 1))))
    ensures Suffix(NumberTok(s).rest, t)
  {
    SuffixStep(s, t, |s| - |NumberTok(s).rest|);
  }

  lemma IdentTokSuffix(s: string, t: string)
    requires Suffix(s, t) && IsAlpha(At(s, 0))
    ensures Suffix(IdentTok(s).rest, t)
  {
    SuffixStep(s, t, |s| - |IdentTok(s).rest|);
  }

  lemma TokenAtSuffix(s: string, t: string)
    requires Suffix(s, t)
    ensures Suffix(TokenAt(s).rest, t)
    ensures At(s, 0) != '\0' && At(s, 0) != '\n' ==> |TokenAt(s).rest| < |s|
  {
    hide StringTok, NumberTok, IdentTok, Suffix;
    var c := At(s, 0);
    if c == '\0' || c == '\n' {
    } else {
      SuffixStep(s, t, 1);
      if c == '"' {
        StringTokSuffix(s[1..], t);
      } else if c == '+' && At(s, 1) == '=' {
        SuffixStep(s, t, 2);
      } else if IsDigit(c) || (c == '-' && IsDigit(At(s, 1))) {
        NumberTokSuffix(s, t);
      } else if IsAlpha(c) {
        IdentTokSuffix(s, t);
      } else {
        assert TokenAt(s).rest == s[1..];
      }
    }
  }

  /**
    next_tok only moves forward within the text: it stops at a terminator, and consumes at least one
    character of anything else, known or not.
  */
  lemma TokenAdvances(s: string)
    ensures Suffix(Token(s).rest, s)
    ensures var c := At(SkipWs(s), 0);
            if c == '\0' || c == '\n' then Token(s) == Lexed(Eof, SkipWs(s), false) else |Token(s).rest| < |s|
  {
    SkipWsSuffix(s, s);
    TokenAtSuffix(SkipWs(s), s);
  }

  /** The loop over digits has read line[q..p] behind a sign into buf. */
  ghost predicate InDigits(line: string, sign: string, q: nat, p: nat, buf: string, dots: nat) {
    q <= p <= |line| && |buf| <= 63 && |sign| < 63 && buf == sign + line[q..p] && dots == Dots(line[q..p]) &&
    NumLen(line[q..], 63 - |sign|) == p - q + NumLen(line[p..], 63 - |buf|)
  }

  lemma DigitsStep(line: string, sign: string, q: nat, p: nat, buf: string, dots: nat)
    requires InDigits(line, sign, q, p, buf, dots) && |buf| < 63
    requires IsDigit(At(line, p)) || At(line, p) == '.'
    ensures p < |line|
    ensures InDigits(line, sign, q, p + 1, buf + [line[p]], if line[p] == '.' then dots + 1 else dots)
  {
    hide NumLen, Dots;
    NumLenStep(line[p..], 63 - |buf|);
    DotsStep(line[q..p], line[p]);
    assert line[p..][1..] == line[p + 1..];
    assert line[q..p + 1] == line[q..p] + [line[p]];
  }

  lemma NumLenStep(s: string, room: nat)
    ensures room > 0 && (IsDigit(At(s, 0)) || At(s, 0) == '.') ==>
              |s| > 0 && NumLen(s, room) == 1 + NumLen(s[1..], room - 1)
    ensures !(room > 0 && (IsDigit(At(s, 0)) || At(s, 0) == '.')) ==> NumLen(s, room) == 0
  {
  }

  lemma DotsStep(s: string, c: char)
    ensures Dots(s + [c]) == Dots(s) + if c == '.' then 1 else 0
  {
    assert (s + [c])[..|s|] == s;
  }

  lemma DigitsEnd(line: string, sign: string, q: nat, p: nat, buf: string, dots: nat)
    requires InDigits(line, sign, q, p, buf, dots)
    requires !((IsDigit(At(line, p)) || At(line, p) == '.') && |buf| < 63)
    ensures var s, n := line[q..], NumLen(line[q..], 63 - |sign|);
            buf == sign + s[..n] && line[p..] == s[n..] && dots == Dots(s[..n])
  {
    NumLenStep(line[p..], 63 - |buf|);
    hide NumLen, Dots, IsDigit;
    assert NumLen(line[q..], 63 - |sign|) == p - q;
    assert line[q..][..p - q] == line[q..p] && line[q..][p - q..] == line[p..];
  }

  /** The loop over a word has read line[q..p]. */
  ghost predicate InWord(line: string, q: nat, p: nat, name: string) {
    q <= p <= |line| && |name| <= MAX_TOK - 1 && name == line[q..p] &&
    WordLen(line[q..], MAX_TOK - 1) == p - q + WordLen(line[p..], MAX_TOK - 1 - |name|)
  }

  lemma WordStep(line: string, q: nat, p: nat, name: string)
    requires InWord(line, q, p, name) && |name| < MAX_TOK - 1 && IsWord(At(line, p))
    ensures p < |line| && InWord(line, q, p + 1, name + [line[p]])
  {
    assert line[p..][1..] == line[p + 1..];
  }

  lemma WordEnd(line: string, q: nat, p: nat, name: string)
    requires InWord(line, q, p, name) && !(IsWord(At(line, p)) && |name| < MAX_TOK - 1)
    ensures var s, n := line[q..], WordLen(line[q..], MAX_TOK - 1);
            name == s[..n] && line[p..] == s[n..]
  {
    assert line[q..][..p - q] == line[q..p] && line[q..][p - q..] == line[p..];
  }

  /** The loop over a string literal has read line[q..p] and decoded text from it. */
  ghost predicate InString(line: string, q: nat, p: nat, text: string) {
    q <= p <= |line| && |text| <= MAX_TOK - 1 &&
    StrBody(line[q..], MAX_TOK - 1) == (text + StrBody(line[p..], MAX_TOK - 1 - |text|).0,
                                        StrBody(line[p..], MAX_TOK - 1 - |text|).1)
  }

  lemma StringStep(line: string, q: nat, p: nat, text: string)
    requires InString(line, q, p, text) && |text| < MAX_TOK - 1 && At(line, p) != '\0' && At(line, p) != '"'
    ensures p < |line|
    ensures if line[p] == '\\' && At(line, p + 1) != '\0' then InString(line, q, p + 2, text + [Escaped(line[p + 1])])
            else InString(line, q, p + 1, text + [line[p]])
  {
    var s := line[p..];
    assert s[1..] == line[p + 1..] && (p + 2 <= |line| ==> s[2..] == line[p + 2..]);
    StrBodyStep(s, MAX_TOK - 1 - |text|, text);
    hide StrBody;
  }

  lemma StringEnd(line: string, q: nat, p: nat, text: string)
    requires InString(line, q, p, text)
    requires !(At(line, p) != '\0' && At(line, p) != '"' && |text| < MAX_TOK - 1)
    ensures At(line, p) == '"' ==> p < |line| && StringTok(line[q..]) == Lexed(Str(text), line[p + 1..], false)
    ensures At(line, p) != '"' ==> p <= |line| && StringTok(line[q..]) == Lexed(Str(text), line[p..], true)
  {
    assert StrBody(line[p..], MAX_TOK - 1 - |text|) == ("", line[p..]) && text + "" == text;
    hide StrBody;
    assert p < |line| ==> line[p..][1..] == line[p + 1..];
  }

  lemma StringStart(line: string, p: nat)
    requires p <= |line|
    ensures InString(line, p, p, "")
  {
    assert "" + StrBody(line[p..], MAX_TOK - 1).0 == StrBody(line[p..], MAX_TOK - 1).0;
    hide StrBody;
  }

  lemma NumberTokIs(s: string, sign: string, u: string)
    requires IsDigit(At(s, 0)) || (At(s, 0) == '-' && IsDigit(At(s, 1)))
    requires s == sign + u && sign == if s[0] == '-' then "-" else ""
    ensures var k := NumLen(u, 63 - |sign|);
            NumberTok(s) == Lexed(if Dots(u[..k]) > 0 then Flt(sign + u[..k]) else Int(StrToLL(sign + u[..k])),
                                  u[k..], Dots(u[..k]) > 1)
  {
    hide NumLen, Dots, StrToLL, Decimal;
    var k := NumLen(u, 63 - |sign|);
    assert s[|sign|..] == u && s[..|sign| + k] == sign + u[..k] && s[|sign| + k..] == u[k..];
    DotsConcat(sign, u[..k]);
    NoDots(sign);
  }

  /** What the loop over digits behind a sign has read is the number. */
  lemma NumberRead(s: string, sign: string, u: string, buf: string, dots: nat, rest: string)
    requires IsDigit(At(s, 0)) || (At(s, 0) == '-' && IsDigit(At(s, 1)))
    requires s == sign + u && sign == if s[0] == '-' then "-" else ""
    requires var n := NumLen(u, 63 - |sign|); buf == sign + u[..n] && rest == u[n..] && dots == Dots(u[..n])
    ensures NumberTok(s) == Lexed(if dots > 0 then Flt(buf) else Int(StrToLL(buf)), rest, dots > 1)
  {
    hide *;
    NumberTokIs(s, sign, u);
  }

  /** A number with its sign split off. */
  lemma SignThenRest(line: string, p: nat)
    requires p <= |line| && (IsDigit(At(line[p..], 0)) || (At(line[p..], 0) == '-' && IsDigit(At(line[p..], 1))))
    ensures p < |line| && line[p..][0] == line[p]
    ensures line[p..] == if line[p] == '-' then "-" + line[p + 1..] else "" + line[p..]
  {
  }

  lemma NoDots(sign: string)
    requires sign == "" || sign == "-"
    ensures Dots(sign) == 0
  {
    assert sign == "-" ==> sign[..0] == "";
  }

  // ---------- lex_t ----------

  /** One turn of the loop over a string literal. */
  lemma StrBodyStep(s: string, room: nat, text: string)
    requires room > 0 && At(s, 0) != '\0' && At(s, 0) != '"'
    ensures var escape := At(s, 0) == '\\' && At(s, 1) != '\0';
            var c, rest := if escape then Escaped(s[1]) else s[0], if escape then s[2..] else s[1..];
            StrBody(s, room).1 == StrBody(rest, room - 1).1 &&
            text + StrBody(s, room).0 == (text + [c]) + StrBody(rest, room - 1).0
  {
    var escape := At(s, 0) == '\\' && At(s, 1) != '\0';
    var c, rest := if escape then Escaped(s[1]) else s[0], if escape then s[2..] else s[1..];
    assert text + ([c] + StrBody(rest, room - 1).0) == (text + [c]) + StrBody(rest, room - 1).0;
  }

  lemma {:induction false} DotsConcat(s: string, t: string)
    requires s == "" || s == "-"
    ensures Dots(s + t) == Dots(t)
  {
    if t == "" {
      assert s + t == s;
    } else {
      DotsConcat(s, t[..|t| - 1]);
      assert (s + t)[..|s + t| - 1] == s + t[..|t| - 1];
    }
  }

  /** A token of one character; the end of the text for any character that begins no token. */
  function Sign(c: char): Tok {
    if c == '#' then Hash else if c == '+' then Plus else if c == '=' then Eq
    else if c == '[' then LBracket else if c == ']' then RBracket else if c == ',' then Comma
    else Eof
  }

  /** The token at position p of a line, case by case. */
  lemma TokenCases(line: string, p: nat)
    requires p <= |line|
    ensures var c, d, t := At(line, p), At(line, p + 1), TokenAt(line[p..]);
            var number := IsDigit(c) || (c == '-' && IsDigit(d));
            if c == '\0' || c == '\n' then t == Lexed(Eof, line[p..], false)
            else if c == '"' then p < |line| && t == StringTok(line[p + 1..])
            else if c == '+' && d == '=' then p + 2 <= |line| && t == Lexed(PlusEq, line[p + 2..], false)
            else if number then
              (IsDigit(At(line[p..], 0)) || (At(line[p..], 0) == '-' && IsDigit(At(line[p..], 1)))) &&
              p < |line| && t == NumberTok(line[p..])
            else if IsAlpha(c) then IsAlpha(At(line[p..], 0)) && t == IdentTok(line[p..])
            else p < |line| && t == Lexed(Sign(c), line[p + 1..], false)
  {
    hide StringTok, NumberTok, IdentTok;
    var s := line[p..];
    assert |s| > 0 ==> line[p + 1..] == s[1..];
    assert |s| > 1 ==> line[p + 2..] == s[2..];
  }

  class Lexer {
    const line: string
    var p: nat
    var error: bool

    constructor (line: string)
      ensures this.line == line && p == 0 && !error
    {
      this.line := line;
      p, error := 0, false;
    }

    ghost predicate Valid()
      reads this
    {
      p <= |line|
    }

    function Rest(): string
      requires Valid()
      reads this
    {
      line[p..]
    }

    method SkipBlanks()
      requires Valid()
      modifies this`p
      ensures Valid() && Rest() == SkipWs(old(Rest()))
    {
      while IsBlank(At(line, p))
        invariant Valid() && SkipWs(Rest()) == SkipWs(old(Rest()))
        decreases |line| - p
      {
        assert line[p..][1..] == line[p + 1..];
        p := p + 1;
      }
    }

    /** The inner loop for string literals. */
    method ReadString() returns (text: string)
      requires Valid()
      modifies this`p, this`error
      ensures Valid() && var r := StringTok(old(Rest()));
              Str(text) == r.tok && Rest() == r.rest && error == (old(error) || r.bad)
    {
      ghost var q := p;
      text := "";
      StringStart(line, p);
      hide InString, StringTok, Escaped;
      while At(line, p) != '\0' && At(line, p) != '"' && |text| < MAX_TOK - 1
        invariant Valid() && InString(line, q, p, text) && error == old(error)
        decreases |line| - p
      {
        StringStep(line, q, p, text);
        if At(line, p) == '\\' && At(line, p + 1) != '\0' {
          p := p + 1;
          text := text + [Escaped(line[p])];
        } else {
          text := text + [line[p]];
        }
        p := p + 1;
      }
      StringEnd(line, q, p, text);
      if At(line, p) == '"' {
        p := p + 1;
      } else {
        error := true;
      }
    }

    /** The inner loop for numbers, which starts behind a sign. */
    method ReadDigits(sign: string) returns (buf: string, dots: nat)
      requires Valid() && |sign| < 63
      modifies this`p
      ensures Valid()
      ensures var s, n := old(Rest()), NumLen(old(Rest()), 63 - |sign|);
              buf == sign + s[..n] && Rest() == s[n..] && dots == Dots(s[..n])
    {
      ghost var q := p;
      buf, dots := sign, 0;
      assert InDigits(line, sign, q, p, buf, dots);
      hide InDigits, NumLen, Dots;
      while (IsDigit(At(line, p)) || At(line, p) == '.') && |buf| < 63
        invariant Valid() && InDigits(line, sign, q, p, buf, dots)
        decreases |line| - p
      {
        DigitsStep(line, sign, q, p, buf, dots);
        if line[p] == '.' {
          dots := dots + 1;
        }
        buf := buf + [line[p]];
        p := p + 1;
      }
      DigitsEnd(line, sign, q, p, buf, dots);
    }

    method ReadNumber() returns (t: Tok)
      requires Valid() && (IsDigit(At(Rest(), 0)) || (At(Rest(), 0) == '-' && IsDigit(At(Rest(), 1))))
      modifies this`p, this`error
      ensures Valid() && var r := NumberTok(old(Rest()));
              t == r.tok && Rest() == r.rest && error == (old(error) || r.bad)
    {
      ghost var s := Rest();
      SignThenRest(line, p);
      hide NumberTok, IsDigit, At;
      var sign := "";
      if line[p] == '-' {
        sign := "-";
        p := p + 1;
      }
      t := ReadSigned(sign, s);
    }

    /** The digits and dots of the number s behind its sign. */
    method ReadSigned(sign: string, ghost s: string) returns (t: Tok)
      requires Valid() && (IsDigit(At(s, 0)) || (At(s, 0) == '-' && IsDigit(At(s, 1))))
      requires s == sign + Rest() && sign == if s[0] == '-' then "-" else ""
      modifies this`p, this`error
      ensures Valid() && var r := NumberTok(s); t == r.tok && Rest() == r.rest && error == (old(error) || r.bad)
    {
      hide NumberTok, NumLen, Dots, StrToLL, IsDigit, At;
      ghost var u := Rest();
      var buf, dots := ReadDigits(sign);
      NumberRead(s, sign, u, buf, dots, Rest());
      if dots > 1 {
        error := true;
      }
      t := if dots > 0 then Flt(buf) else Int(StrToLL(buf));
    }

    method ReadIdent() returns (t: Tok)
      requires Valid() && IsAlpha(At(Rest(), 0))
      modifies this`p
      ensures Valid() && t == IdentTok(old(Rest())).tok && Rest() == IdentTok(old(Rest())).rest
    {
      ghost var q := p;
      var name := "";
      assert InWord(line, q, p, name);
      hide InWord, WordLen;
      while IsWord(At(line, p)) && |name| < MAX_TOK - 1
        invariant Valid() && InWord(line, q, p, name)
        decreases |line| - p
      {
        WordStep(line, q, p, name);
        name := name + [line[p]];
        p := p + 1;
      }
      WordEnd(line, q, p, name);
      t := Ident(name);
    }

    method NextTok() returns (t: Tok)
      requires Valid()
      modifies this`p, this`error
      ensures Valid() && var r := Token(old(Rest()));
              t == r.tok && Rest() == r.rest && error == (old(error) || r.bad)
    {
      SkipBlanks();
      hide TokenAt, SkipWs;
      t := ReadTok();
    }

    /** The part of next_tok behind the blanks. */
    method ReadTok() returns (t: Tok)
      requires Valid()
      modifies this`p, this`error
      ensures Valid() && var r := TokenAt(old(Rest()));
              t == r.tok && Rest() == r.rest && error == (old(error) || r.bad)
    {
      TokenCases(line, p);
      hide TokenAt, StringTok, NumberTok, IdentTok, IsDigit, IsAlpha, At;
      var c := At(line, p);
      if c == '\0' || c == '\n' {
        return Eof;
      }
      if c == '"' {
        p := p + 1;
        var text := ReadString();
        return Str(text);
      }
      if c == '+' && At(line, p + 1) == '=' {
        p := p + 2;
        return PlusEq;
      }
      if IsDigit(c) || (c == '-' && IsDigit(At(line, p + 1))) {
        t := ReadNumber();
        return;
      }
      if IsAlpha(c) {
        t := ReadIdent();
        return;
      }
      p := p + 1;
      t := Sign(c);
    }

    /** Leaves the position, but not the error flag, as it was. */
    method PeekTok() returns (t: Tok)
      requires Valid()
      modifies this`p, this`error
      ensures p == old(p) && t == Token(Rest()).tok && error == (old(error) || Token(Rest()).bad)
    {
      var saved := p;
      t := NextTok();
      p := saved;
    }
  }
}
