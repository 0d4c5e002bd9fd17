/**
  Literals: a value without floats, written as a configuration file has it, is what the evaluator
  reads; elements of lists; and what a value prints as.
*/
module CfgLiterals {
  import opened CfgEval
  import opened CfgLex
  import opened CfgText

  /** A value that can be written as a literal: no floats, 64-bit integers, strings that fit a token. */
  predicate Plain(v: Value) {
    match v
    case VNull => true
    case VBool(_) => true
    case VInt(i) => -0x8000_0000_0000_0000 <= i <= 0x7fff_ffff_ffff_ffff
    case VFloat(_) => false
    case VStr(s) => |s| <= 511 && '\0' !in s
    case VArr(items) => AllPlain(items)
  }

  predicate AllPlain(items: seq<Value>) {
    items == [] || (Plain(items[0]) && AllPlain(items[1..]))
  }

  /** The literal for a value. */
  function Write(v: Value, fmt: Format): (s: string)
    ensures s != "" || v.VFloat?
  {
    match v
    case VNull => "null"
    case VBool(b) => if b then "true" else "false"
    case VInt(i) => Show(v, fmt)
    case VFloat(_) => ""
    case VStr(s) => Quoted(s)
    case VArr(items) => "[" + (WriteItems(items, fmt) + "]")
  }

  /** The items, each but the last followed by a comma and a blank. */
  function WriteItems(items: seq<Value>, fmt: Format): string {
    if items == [] then ""
    else if |items| == 1 then Write(items[0], fmt)
    else Write(items[0], fmt) + (", " + WriteItems(items[1..], fmt))
  }

  // ---------- One value ----------

  /** The value at the start of a text is v, and the rest follows it. */
  ghost predicate Reads(s: string, v: Value, rest: string, env: Env) {
    var t := Token(s);
    StartsValue(t.tok) && !t.bad && Atom(t.tok, t.rest, env) == Out(v, rest, false)
  }

  lemma WordsRead(tail: string, env: Env)
    requires Stops(tail)
    ensures Reads("null" + tail, VNull, tail, env)
    ensures Reads("true" + tail, VBool(true), tail, env) && Reads("false" + tail, VBool(false), tail, env)
  {
    hide Token, Variable, Items;
    WordReads("null", tail);
    WordReads("true", tail);
    WordReads("false", tail);
  }

  lemma IntReads(i: int, fmt: Format, tail: string, env: Env)
    requires -0x8000_0000_0000_0000 <= i <= 0x7fff_ffff_ffff_ffff && Stops(tail)
    ensures Reads(Show(VInt(i), fmt) + tail, VInt(i), tail, env)
  {
    hide Token, Variable, Items, Show;
    IntReadsBack(i, fmt, tail);
  }

  lemma StrReads(s: string, tail: string, env: Env)
    requires |s| <= 511 && '\0' !in s
    ensures Reads(Quoted(s) + tail, VStr(s), tail, env)
  {
    hide Token, Variable, Items, Quoted;
    StringReadsBack(s, tail);
  }

  lemma ListReads(items: seq<Value>, body: string, tail: string, env: Env)
    requires Items(body, env) == Out(items, tail, false)
    ensures Reads("[" + body, VArr(items), tail, env)
  {
    hide Token, Variable, Items;
    SignsRead(body);
  }

  /** A literal of a plain value reads as this value, whatever comes behind it. */
  lemma {:induction false} LiteralReads(v: Value, fmt: Format, tail: string, env: Env)
    requires Plain(v) && Stops(tail)
    ensures Reads(Write(v, fmt) + tail, v, tail, env)
    decreases |Write(v, fmt)|, 0
  {
    hide Reads, Show, Quoted, Stops, Items, WriteItems, AllPlain;
    match v
    case VNull => WordsRead(tail, env);
    case VBool(b) => WordsRead(tail, env);
    case VInt(i) => IntReads(i, fmt, tail, env);
    case VStr(s) => StrReads(s, tail, env);
    case VArr(items) =>
      ItemsRead(items, fmt, tail, env);
      ListReads(items, WriteItems(items, fmt) + ("]" + tail), tail, env);
      assert "[" + (WriteItems(items, fmt) + "]") + tail == "[" + (WriteItems(items, fmt) + ("]" + tail));
  }

  lemma SeparatorsStop(rest: string)
    ensures Stops(", " + rest) && Stops("]" + rest) && Stops("")
  {
  }

  /** An item, and the items behind it. */
  lemma ItemThenItems(s: string, v: Value, rest: string, env: Env)
    requires Reads(s, v, rest, env)
    ensures var r := Items(rest, env); Items(s, env) == Out([v] + r.val, r.rest, r.bad)
  {
    hide Token, Atom;
  }

  lemma CommaSkipped(s: string, env: Env)
    requires StartsValue(Token(s).tok)
    ensures Items(", " + s, env) == Items(s, env)
  {
    hide TokenAt, SkipWs, Atom;
    SignsRead(" " + s);
    BlanksSkipped(' ', s);
    assert ", " + s == "," + (" " + s) && " " + s == [' '] + s;
    SameToken(" " + s, s, env);
    hide Token;
  }

  /** What is read does not depend on the blanks before the first token. */
  lemma SameToken(s: string, t: string, env: Env)
    requires Token(s) == Token(t) && StartsValue(Token(s).tok)
    ensures Items(s, env) == Items(t, env)
  {
    hide Token, Atom;
  }

  lemma BracketEnds(tail: string, env: Env)
    ensures Items("]" + tail, env) == Out([], tail, false)
  {
    hide Token, Atom;
    SignsRead(tail);
  }

  /** A written list of plain values, up to its bracket, is read item by item. */
  lemma {:induction false} ItemsRead(items: seq<Value>, fmt: Format, tail: string, env: Env)
    requires AllPlain(items)
    ensures Items(WriteItems(items, fmt) + ("]" + tail), env) == Out(items, tail, false)
    ensures items != [] ==> StartsValue(Token(WriteItems(items, fmt) + ("]" + tail)).tok)
    decreases |WriteItems(items, fmt)|, 2
  {
    hide Reads, Items, Token, Stops, Write;
    if items == [] {
      BracketEnds(tail, env);
      assert "" + ("]" + tail) == "]" + tail;
    } else if |items| == 1 {
      FirstItem(items, fmt, "]" + tail, env);
      BracketEnds(tail, env);
      ItemThenItems(Write(items[0], fmt) + ("]" + tail), items[0], "]" + tail, env);
      assert [items[0]] + [] == items;
    } else {
      var rest := WriteItems(items[1..], fmt) + ("]" + tail);
      FirstItem(items, fmt, ", " + rest, env);
      ItemsRead(items[1..], fmt, tail, env);
      CommaSkipped(rest, env);
      ItemThenItems(Write(items[0], fmt) + (", " + rest), items[0], ", " + rest, env);
      assert WriteItems(items, fmt) + ("]" + tail) == Write(items[0], fmt) + (", " + rest);
      assert [items[0]] + items[1..] == items;
    }
  }

  lemma FirstItem(items: seq<Value>, fmt: Format, tail: string, env: Env)
    requires items != [] && AllPlain(items) && (tail != "" && (tail[0] == ',' || tail[0] == ']'))
    ensures Reads(Write(items[0], fmt) + tail, items[0], tail, env)
    ensures StartsValue(Token(Write(items[0], fmt) + tail).tok)
    decreases |WriteItems(items, fmt)|, 1
  {
    hide Items, Token, Atom;
    LiteralReads(items[0], fmt, tail, env);
  }

  /** Items that are written out, and whatever else the list holds: a mistake there is a mistake of the list. */
  lemma {:induction false} ItemsThen(items: seq<Value>, rest: string, env: Env, fmt: Format)
    requires AllPlain(items) && items != [] && StartsValue(Token(rest).tok)
    ensures var s, r := WriteItems(items, fmt) + (", " + rest), Items(rest, env);
            Items(s, env) == Out(items + r.val, r.rest, r.bad) && StartsValue(Token(s).tok)
  {
    hide Reads, Items, Token, Stops, Write;
    var r := Items(rest, env);
    var next := if |items| == 1 then rest else WriteItems(items[1..], fmt) + (", " + rest);
    FirstItem(items, fmt, ", " + next, env);
    if |items| > 1 {
      ItemsThen(items[1..], rest, env, fmt);
    }
    CommaSkipped(next, env);
    ItemThenItems(Write(items[0], fmt) + (", " + next), items[0], ", " + next, env);
    assert WriteItems(items, fmt) + (", " + rest) == Write(items[0], fmt) + (", " + next);
    assert items + r.val == [items[0]] + (items[1..] + r.val) && (|items| == 1 ==> items[1..] + r.val == r.val);
  }

  // ---------- Right-hand sides ----------

  lemma RhsReads(s: string, v: Value, rest: string, env: Env, fmt: Format)
    requires Reads(s, v, rest, env) && !Token(rest).tok.Plus?
    ensures Rhs(s, env, fmt) == Out(v, rest, Token(rest).bad)
  {
    hide Token, Atom, Show, Concat;
  }

  /** A literal as a right-hand side: the value, whatever follows, a comment for instance, unless it is a plus. */
  lemma RhsOfLiteral(v: Value, tail: string, env: Env, fmt: Format)
    requires Plain(v) && Stops(tail) && !Token(tail).tok.Plus?
    ensures Rhs(Write(v, fmt) + tail, env, fmt) == Out(v, tail, Token(tail).bad)
  {
    hide *;
    LiteralReads(v, fmt, tail, env);
    RhsReads(Write(v, fmt) + tail, v, tail, env, fmt);
  }

  /** What a plain value prints as. */
  function PrintsAs(v: Value, fmt: Format): string {
    match v
    case VNull => "null"
    case VBool(b) => if b then "true" else "false"
    case VStr(s) => s
    case VArr(_) => "[array]"
    case _ => Write(v, fmt)
  }

  /** A concatenation behind its first value. */
  function WriteTerms(vs: seq<Value>, fmt: Format): string {
    if vs == [] then "" else " + " + (Write(vs[0], fmt) + WriteTerms(vs[1..], fmt))
  }

  function PrintAll(vs: seq<Value>, fmt: Format): string {
    if vs == [] then "" else PrintsAs(vs[0], fmt) + PrintAll(vs[1..], fmt)
  }

  lemma TermsStop(vs: seq<Value>, fmt: Format)
    ensures Stops(WriteTerms(vs, fmt))
    ensures vs != [] ==> Token(WriteTerms(vs, fmt)).tok.Plus? && !Token(WriteTerms(vs, fmt)).bad
  {
    if vs != [] {
      PlusToken(Write(vs[0], fmt) + WriteTerms(vs[1..], fmt));
    }
    hide Token, Write;
  }

  lemma TermThenTerms(s: string, v: Value, rest: string, vs: seq<Value>, left: string, env: Env)
    requires Reads(s, v, rest, env) && Terms(rest, env) == Out(vs, left, false)
    ensures Terms(" + " + s, env) == Out([v] + vs, left, false)
  {
    PlusToken(s);
    BlankToken(s);
    hide Token, Atom;
  }

  lemma NoTerms(env: Env)
    ensures Terms("", env) == Out([], "", false)
  {
    NothingLeft();
    hide Token;
  }

  lemma {:induction false} TermsRead(vs: seq<Value>, env: Env, fmt: Format)
    requires AllPlain(vs)
    ensures Terms(WriteTerms(vs, fmt), env) == Out(vs, "", false)
  {
    hide Reads, Terms, Token, Stops, Write;
    if vs == [] {
      NoTerms(env);
    } else {
      var rest := WriteTerms(vs[1..], fmt);
      TermsRead(vs[1..], env, fmt);
      TermsStop(vs[1..], fmt);
      LiteralReads(vs[0], fmt, rest, env);
      TermThenTerms(Write(vs[0], fmt) + rest, vs[0], rest, vs[1..], "", env);
      assert [vs[0]] + vs[1..] == vs;
    }
  }

  lemma RhsAndTerms(s: string, v: Value, rest: string, r: seq<Value>, env: Env, fmt: Format)
    requires Reads(s, v, rest, env) && Token(rest).tok.Plus? && Terms(rest, env) == Out(r, "", false)
    ensures Rhs(s, env, fmt) == Out(VStr(Show(v, fmt) + Concat(r, fmt)), "", false)
  {
    hide Token, Atom, Show, Concat, Terms;
  }

  lemma {:induction false} ConcatPrints(vs: seq<Value>, fmt: Format)
    requires AllPlain(vs)
    ensures Concat(vs, fmt) == PrintAll(vs, fmt)
  {
    if vs != [] {
      ShowsAs(vs[0], fmt);
      ConcatPrints(vs[1..], fmt);
    }
    hide Show, PrintsAs;
  }

  /** Literals with a plus between them: one string, what they print as from left to right. */
  lemma ChainReads(v: Value, vs: seq<Value>, env: Env, fmt: Format)
    requires Plain(v) && AllPlain(vs) && vs != []
    ensures Rhs(Write(v, fmt) + WriteTerms(vs, fmt), env, fmt)
         == Out(VStr(PrintsAs(v, fmt) + PrintAll(vs, fmt)), "", false)
  {
    hide *;
    TermsStop(vs, fmt);
    TermsRead(vs, env, fmt);
    LiteralReads(v, fmt, WriteTerms(vs, fmt), env);
    RhsAndTerms(Write(v, fmt) + WriteTerms(vs, fmt), v, WriteTerms(vs, fmt), vs, env, fmt);
    ShowsAs(v, fmt);
    ConcatPrints(vs, fmt);
  }

  lemma LonePlus(env: Env)
    ensures Stops(" +") && Token(" +").tok.Plus? && Terms(" +", env) == Out([], "", false)
  {
    SignsRead("");
    NothingLeft();
    assert "+" + "" == "+" && [' '] + "+" == " +";
    BlanksSkipped(' ', "+");
    hide Token;
  }

  /** A plus with nothing behind it is no mistake: the value becomes the string that it prints as. */
  lemma LonePlusReads(v: Value, env: Env, fmt: Format)
    requires Plain(v)
    ensures Rhs(Write(v, fmt) + " +", env, fmt) == Out(VStr(PrintsAs(v, fmt)), "", false)
  {
    hide Token, Atom, Terms, Rhs, Reads, Write;
    LonePlus(env);
    LiteralReads(v, fmt, " +", env);
    RhsAndTerms(Write(v, fmt) + " +", v, " +", [], env, fmt);
    ShowsAs(v, fmt);
    assert PrintsAs(v, fmt) + "" == PrintsAs(v, fmt);
  }

  lemma ShowsAs(v: Value, fmt: Format)
    requires Plain(v)
    ensures Show(v, fmt) == PrintsAs(v, fmt)
  {
  }

  // ---------- Variables and elements ----------

  /** A name that is none of the three words. */
  predicate IsVariable(w: string) {
    IsName(w) && w != "true" && w != "false" && w != "null"
  }

  function ValueOf(env: Env, w: string): Value {
    if w in env then env[w] else VNull
  }

  /** A variable is its value, and null if it is not defined. */
  lemma VariableReads(w: string, env: Env, fmt: Format)
    requires IsVariable(w)
    ensures Rhs(w, env, fmt) == Out(ValueOf(env, w), "", false)
  {
    assert w + "" == w;
    WordReads(w, "");
    NothingLeft();
    hide Token, Items;
    assert Reads(w, ValueOf(env, w), "", env);
    RhsReads(w, ValueOf(env, w), "", env, fmt);
  }

  /** An index behind a variable. */
  lemma IndexTokens(w: string, i: int, fmt: Format, tail: string)
    requires IsVariable(w) && -0x8000_0000_0000_0000 <= i <= 0x7fff_ffff_ffff_ffff && AfterNumber(tail)
    ensures Token(w + ("[" + (Show(VInt(i), fmt) + tail)))
         == Lexed(Ident(w), "[" + (Show(VInt(i), fmt) + tail), false)
    ensures Token("[" + (Show(VInt(i), fmt) + tail)) == Lexed(LBracket, Show(VInt(i), fmt) + tail, false)
    ensures Token(Show(VInt(i), fmt) + tail) == Lexed(Int(i), tail, false)
  {
    hide Token, Show;
    WordReads(w, "[" + (Show(VInt(i), fmt) + tail));
    SignsRead(Show(VInt(i), fmt) + tail);
    IntReadsBack(i, fmt, tail);
  }

  /** For a variable that holds a list, the i-th item counted from zero, and null outside the list. */
  lemma ElementReads(w: string, i: int, items: seq<Value>, env: Env, fmt: Format)
    requires IsVariable(w) && w in env && env[w] == VArr(items)
    requires -0x8000_0000_0000_0000 <= i <= 0x7fff_ffff_ffff_ffff
    ensures Rhs(w + ("[" + (Show(VInt(i), fmt) + "]")), env, fmt)
         == Out(if 0 <= i < |items| then items[i] else VNull, "", false)
  {
    hide Token, Items, Show;
    var v := if 0 <= i < |items| then items[i] else VNull;
    IndexTokens(w, i, fmt, "]");
    SignsRead("");
    NothingLeft();
    assert "]" + "" == "]";
    assert Reads(w + ("[" + (Show(VInt(i), fmt) + "]")), v, "", env);
    RhsReads(w + ("[" + (Show(VInt(i), fmt) + "]")), v, "", env, fmt);
  }

  /** An index without its closing bracket is a mistake. */
  lemma IndexMustClose(w: string, i: int, env: Env, fmt: Format)
    requires IsVariable(w) && -0x8000_0000_0000_0000 <= i <= 0x7fff_ffff_ffff_ffff
    ensures Rhs(w + ("[" + (Show(VInt(i), fmt) + "")), env, fmt) == Out(VNull, "", true)
  {
    IndexTokens(w, i, fmt, "");
    NothingLeft();
    hide Token, Items, Show, Concat;
  }

  /** And so is one that is no integer. */
  lemma IndexMustBeInt(w: string, s: string, env: Env, fmt: Format)
    requires IsVariable(w) && |s| <= 511 && '\0' !in s
    ensures Rhs(w + ("[" + (Quoted(s) + "]")), env, fmt) == Out(VNull, "", true)
  {
    hide Token, Items, Show, Concat, Quoted;
    WordReads(w, "[" + (Quoted(s) + "]"));
    SignsRead(Quoted(s) + "]");
    StringReadsBack(s, "]");
    SignsRead("");
    NothingLeft();
    assert "]" + "" == "]";
  }

  /** What is no list, or is not defined, has no elements. */
  lemma NoElement(w: string, i: int, env: Env, fmt: Format)
    requires IsVariable(w) && !ValueOf(env, w).VArr?
    requires -0x8000_0000_0000_0000 <= i <= 0x7fff_ffff_ffff_ffff
    ensures Rhs(w + ("[" + (Show(VInt(i), fmt) + "]")), env, fmt) == Out(VNull, "", false)
  {
    hide Token, Items, Show;
    IndexTokens(w, i, fmt, "]");
    SignsRead("");
    NothingLeft();
    assert "]" + "" == "]";
    assert Reads(w + ("[" + (Show(VInt(i), fmt) + "]")), VNull, "", env);
    RhsReads(w + ("[" + (Show(VInt(i), fmt) + "]")), VNull, "", env, fmt);
  }

  // ---------- Floats ----------

  /** A float keeps its text, and prints as the format of this text. */
  lemma FloatPrints(sign: string, a: string, b: string, env: Env, fmt: Format)
    requires AllDigits(a) && AllDigits(b) && a != "" && (sign == "" || sign == "-") && |sign| + |a| + |b| + 1 <= 63
    ensures var t := sign + (a + "." + b);
            Rhs(t, env, fmt) == Out(VFloat(t), "", false) &&
            Rhs(t + " +", env, fmt) == Out(VStr(fmt(t)), "", false)
  {
    hide Token, Terms, Variable, Items, Rhs;
    var t := sign + (a + "." + b);
    FloatReads(sign, a, b, "");
    FloatReads(sign, a, b, " +");
    NothingLeft();
    LonePlus(env);
    assert t + "" == t && Show(VFloat(t), fmt) + Concat([], fmt) == fmt(t);
    RhsReads(t, VFloat(t), "", env, fmt);
    RhsAndTerms(t + " +", VFloat(t), " +", [], env, fmt);
  }

  // ---------- What is not well formed ----------

  /** A sign where a value should be is read as null, without a word. */
  lemma SignIsNull(s: string, env: Env, fmt: Format)
    requires !Token(s).tok.Plus?
    ensures Rhs("]" + s, env, fmt) == Out(VNull, s, Token(s).bad)
    ensures Rhs("," + s, env, fmt) == Out(VNull, s, Token(s).bad)
    ensures Rhs("=" + s, env, fmt) == Out(VNull, s, Token(s).bad)
    ensures Rhs("+=" + s, env, fmt) == Out(VNull, s, Token(s).bad)
    ensures At(s, 0) != '=' ==> Rhs("+" + s, env, fmt) == Out(VNull, s, Token(s).bad)
  {
    SignsRead(s);
    hide Token, Show, Concat, Items, Variable;
  }

  /** A string without its closing quote is a mistake as a value, as an item and behind a plus. */
  lemma OpenStrings(s: string, env: Env, fmt: Format)
    requires |s| <= 511 && '\0' !in s
    ensures Rhs("\"" + Escapes(s), env, fmt) == Out(VStr(s), "", true)
    ensures Items("\"" + Escapes(s), env) == Out([VStr(s)], "", true)
    ensures Terms(" + " + ("\"" + Escapes(s)), env) == Out([VStr(s)], "", true)
  {
    OpenStringReads(s);
    NothingLeft();
    PlusToken("\"" + Escapes(s));
    BlankToken("\"" + Escapes(s));
    NoItems(env);
    NoTerms(env);
    assert [VStr(s)] + [] == [VStr(s)];
    hide Token, Escapes, Show, Concat;
  }



  /** A mistake at the end of a list is one of the value, and of every list that the list is an item of. */
  lemma MistakeInside(body: string, items: seq<Value>, env: Env, fmt: Format)
    requires Items(body, env) == Out(items, "", true)
    ensures Rhs("[" + body, env, fmt) == Out(VArr(items), "", true)
    ensures Items("[" + body, env) == Out([VArr(items)], "", true)
  {
    hide Token, Show, Concat;
    SignsRead(body);
    NothingLeft();
    NoItems(env);
    assert Atom(LBracket, body, env) == Out(VArr(items), "", true);
    assert [VArr(items)] + [] == [VArr(items)];
  }

  lemma {:induction false} OpenItemsRead(items: seq<Value>, fmt: Format, env: Env)
    requires AllPlain(items)
    ensures Items(WriteItems(items, fmt), env) == Out(items, "", false)
    ensures items != [] ==> StartsValue(Token(WriteItems(items, fmt)).tok)
    decreases |items|
  {
    hide Reads, Token, Stops, Write, Items;
    NoItems(env);
    if |items| == 1 {
      LastItem(items, fmt, env);
      ItemThenItems(Write(items[0], fmt), items[0], "", env);
      assert [items[0]] + [] == items;
    } else if |items| > 1 {
      var rest := WriteItems(items[1..], fmt);
      FirstItem(items, fmt, ", " + rest, env);
      OpenItemsRead(items[1..], fmt, env);
      CommaSkipped(rest, env);
      ItemThenItems(Write(items[0], fmt) + (", " + rest), items[0], ", " + rest, env);
      assert [items[0]] + items[1..] == items;
    }
  }

  lemma NoItems(env: Env)
    ensures Items("", env) == Out([], "", false)
  {
    NothingLeft();
    hide Token;
  }

  lemma LastItem(items: seq<Value>, fmt: Format, env: Env)
    requires |items| == 1 && AllPlain(items)
    ensures Reads(Write(items[0], fmt), items[0], "", env) && StartsValue(Token(Write(items[0], fmt)).tok)
  {
    hide Token, Atom, Write;
    SeparatorsStop("");
    LiteralReads(items[0], fmt, "", env);
    assert Write(items[0], fmt) + "" == Write(items[0], fmt);
  }

  /** A list that is not closed ends with the line, and that is no mistake. */
  lemma OpenListReads(items: seq<Value>, env: Env, fmt: Format)
    requires AllPlain(items)
    ensures Rhs("[" + WriteItems(items, fmt), env, fmt) == Out(VArr(items), "", false)
  {
    hide *;
    OpenItemsRead(items, fmt, env);
    ListReads(items, WriteItems(items, fmt), "", env);
    NothingLeft();
    RhsReads("[" + WriteItems(items, fmt), VArr(items), "", env, fmt);
  }

  /** A sign that begins no item is passed over, and is a mistake. */
  lemma StraySign(items: seq<Value>, tail: string, env: Env, fmt: Format)
    requires AllPlain(items)
    ensures Items("= " + (WriteItems(items, fmt) + ("]" + tail)), env) == Out(items, tail, true)
  {
    var rest := WriteItems(items, fmt) + ("]" + tail);
    hide TokenAt, SkipWs, Atom;
    ItemsRead(items, fmt, tail, env);
    SignsRead(" " + rest);
    BlanksSkipped(' ', rest);
    assert "= " + rest == "=" + (" " + rest) && " " + rest == [' '] + rest;
    BlankItems(rest, env);
    hide Token, WriteItems;
    assert Items("= " + rest, env) == Out(Items(" " + rest, env).val, Items(" " + rest, env).rest, true);
  }

  lemma BlankItems(s: string, env: Env)
    requires Token(" " + s) == Token(s) && !Token(s).tok.Eof? && !Token(s).tok.Hash?
    ensures Items(" " + s, env) == Items(s, env)
  {
    hide Token, Atom;
  }
}
