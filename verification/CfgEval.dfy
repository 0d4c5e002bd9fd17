/**
  What a line of a configuration file means, on values: the atoms and concatenations that eval_rhs
  reads, and the two assignments. Reading goes from a text to the text behind it.
*/
module CfgEval {
  import opened CfgLex

  datatype Value =
    | VNull | VInt(i: int) | VFloat(digits: string) | VBool(b: bool) | VStr(s: string) | VArr(items: seq<Value>)

  type Env = map<string, Value>

  /** How the text of a float literal comes out of strtod and the %g format. */
  type Format = string -> string

  datatype Out<T> = Out(val: T, rest: string, bad: bool)

  // ---------- String forms ----------

  function DecimalOf(n: nat): (s: string)
    ensures |s| > 0
  {
    (if n < 10 then "" else DecimalOf(n / 10)) + ["0123456789"[n % 10]]
  }

  /** var_to_str. */
  function Show(v: Value, fmt: Format): string {
    match v
    case VNull => "null"
    case VInt(i) => if i < 0 then "-" + DecimalOf(0 - i) else DecimalOf(i)
    case VFloat(digits) => fmt(digits)
    case VBool(b) => if b then "true" else "false"
    case VStr(s) => s
    case VArr(_) => "[array]"
  }

  function Concat(vs: seq<Value>, fmt: Format): string {
    if vs == [] then "" else Show(vs[0], fmt) + Concat(vs[1..], fmt)
  }

  // ---------- Atoms ----------

  predicate StartsValue(t: Tok) {
    t.Str? || t.Int? || t.Flt? || t.Ident? || t.LBracket?
  }

  /** var_get: null outside the array, and for anything that is no array. */
  function Element(v: Value, i: int): Value {
    if v.VArr? && 0 <= i < |v.items| then v.items[i] else VNull
  }

  /** A variable, or an element of one; an undefined variable is null. */
  function Variable(name: string, s: string, env: Env): (r: Out<Value>)
    ensures |r.rest| <= |s|
  {
    var pk := Token(s);
    if pk.tok.LBracket? then
      var idx := Token(pk.rest);
      var rb := Token(idx.rest);
      if !rb.tok.RBracket? || !idx.tok.Int? then Out(VNull, rb.rest, true)
      else Out(if name in env then Element(env[name], idx.tok.val) else VNull, rb.rest, idx.bad || rb.bad)
    else
      Out(if name in env then env[name] else VNull, s, pk.bad)
  }

  /** eval_atom: the value that begins with the token tok, which is already read. */
  function Atom(tok: Tok, s: string, env: Env): (r: Out<Value>)
    ensures |r.rest| <= |s|
    decreases |s|, 1
  {
    match tok
    case Str(text) => Out(VStr(text), s, false)
    case Int(i) => Out(VInt(i), s, false)
    case Flt(digits) => Out(VFloat(digits), s, false)
    case Ident(name) =>
      if name == "true" then Out(VBool(true), s, false)
      else if name == "false" then Out(VBool(false), s, false)
      else if name == "null" then Out(VNull, s, false)
      else Variable(name, s, env)
    case LBracket =>
      var r := Items(s, env);
      Out(VArr(r.val), r.rest, r.bad)
    case _ => Out(VNull, s, false)
  }

  /** The items of an array literal, up to its bracket or the end of the line. */
  function Items(s: string, env: Env): (r: Out<seq<Value>>)
    ensures |r.rest| <= |s|
    decreases |s|, 0
  {
    var pk := Token(s);
    if pk.tok.RBracket? then Out([], pk.rest, false)
    else if pk.tok.Eof? || pk.tok.Hash? then Out([], s, false)
    else if pk.tok.Comma? then Items(pk.rest, env)
    else if !StartsValue(pk.tok) then
      var r := Items(pk.rest, env);
      Out(r.val, r.rest, true)
    else
      var a := Atom(pk.tok, pk.rest, env);
      var r := Items(a.rest, env);
      Out([a.val] + r.val, r.rest, pk.bad || a.bad || r.bad)
  }

  // ---------- Right-hand sides ----------

  /** The further atoms of a concatenation, each behind a plus; a plus before the end is ignored. */
  function Terms(s: string, env: Env): (r: Out<seq<Value>>)
    ensures |r.rest| <= |s|
    decreases |s|
  {
    var pk := Token(s);
    if !pk.tok.Plus? then Out([], s, pk.bad)
    else
      var t := Token(pk.rest);
      if t.tok.Eof? || t.tok.Hash? then Out([], t.rest, t.bad)
      else
        var a := Atom(t.tok, t.rest, env);
        var r := Terms(a.rest, env);
        Out([a.val] + r.val, r.rest, t.bad || a.bad || r.bad)
  }

  /** eval_rhs. */
  function Rhs(s: string, env: Env, fmt: Format): Out<Value> {
    var t := Token(s);
    if t.tok.Eof? || t.tok.Hash? then Out(VNull, t.rest, t.bad)
    else
      var a := Atom(t.tok, t.rest, env);
      var r := Terms(a.rest, env);
      Out(if Token(a.rest).tok.Plus? then VStr(Show(a.val, fmt) + Concat(r.val, fmt)) else a.val,
          r.rest, t.bad || a.bad || r.bad)
  }

  /** KEY = RHS: the new variables and whether there was an error. */
  function SetTo(key: string, s: string, env: Env, fmt: Format): (Env, bool) {
    var r := Rhs(s, env, fmt);
    (env[key := r.val], r.bad)
  }

  /** KEY += RHS. */
  function AppendTo(key: string, s: string, env: Env, fmt: Format): (Env, bool) {
    var r := Rhs(s, env, fmt);
    (env[key := VStr((if key in env then Show(env[key], fmt) else "") + Show(r.val, fmt))], r.bad)
  }

  // ---------- KEY += RHS and KEY = KEY + RHS ----------

  /** A key that reads back as the variable of this name. */
  predicate IsKey(key: string) {
    0 < |key| < MAX_TOK && IsAlpha(key[0]) && (forall i :: 0 <= i < |key| ==> IsWord(key[i])) &&
    key != "true" && key != "false" && key != "null"
  }

  lemma {:induction false} WordLenIs(key: string, tail: string, room: nat)
    requires |key| <= room && !IsWord(At(tail, 0))
    requires forall i :: 0 <= i < |key| ==> IsWord(key[i])
    ensures WordLen(key + tail, room) == |key|
  {
    if key == "" {
      assert key + tail == tail;
    } else {
      WordLenIs(key[1..], tail, room - 1);
      assert (key + tail)[1..] == key[1..] + tail;
    }
  }

  lemma KeyToken(key: string, tail: string)
    requires IsKey(key) && !IsWord(At(tail, 0))
    ensures Token(key + tail) == Lexed(Ident(key), tail, false)
  {
    var s := key + tail;
    WordLenIs(key, tail, MAX_TOK - 1);
    assert s[..|key|] == key && s[|key|..] == tail && s[0] == key[0];
    assert SkipWs(s) == s;
    hide WordLen;
  }

  lemma BlankToken(s: string)
    ensures Token(" " + s) == Token(s)
  {
    assert (" " + s)[1..] == s;
    assert SkipWs(" " + s) == SkipWs(s);
  }

  lemma PlusToken(s: string)
    ensures Token(" + " + s) == Lexed(Plus, " " + s, false) && At(" + " + s, 0) == ' '
  {
    var t := "+ " + s;
    assert " + " + s == " " + t;
    BlankToken(t);
    assert SkipWs(t) == t && t[1..] == " " + s;
  }

  /** Reading KEY + RHS: the old value of KEY, and then what RHS reads. */
  lemma ConcatReads(key: string, s: string, env: Env, fmt: Format)
    requires IsKey(key) && StartsValue(Token(s).tok)
    ensures var r, was := Rhs(s, env, fmt), if key in env then env[key] else VNull;
            Rhs(key + (" + " + s), env, fmt) == Out(VStr(Show(was, fmt) + Show(r.val, fmt)), r.rest, r.bad)
  {
    hide *;
    var t := Token(s);
    var a := Atom(t.tok, t.rest, env);
    var r := Terms(a.rest, env);
    TermsBehindPlus(s, env);
    PlusToken(s);
    RhsOfKey(key, " + " + s, env, fmt);
    ConcatStep(a.val, r.val, fmt);
    RhsParts(s, env, fmt);
  }

  /** What Rhs reads, seen as a sequence of atoms. */
  lemma RhsParts(s: string, env: Env, fmt: Format)
    requires StartsValue(Token(s).tok)
    ensures var t := Token(s);
            var a := Atom(t.tok, t.rest, env);
            var r, x := Terms(a.rest, env), Rhs(s, env, fmt);
            x.rest == r.rest && x.bad == (t.bad || a.bad || r.bad) &&
            Show(x.val, fmt) == Show(a.val, fmt) + Concat(r.val, fmt)
  {
    hide Token, Atom;
    var t := Token(s);
    var a := Atom(t.tok, t.rest, env);
    if !Token(a.rest).tok.Plus? {
      assert Terms(a.rest, env).val == [];
      assert Show(a.val, fmt) + "" == Show(a.val, fmt);
    }
  }

  /** Behind a plus, the terms are the atoms that Rhs reads. */
  lemma TermsBehindPlus(s: string, env: Env)
    requires StartsValue(Token(s).tok)
    ensures var t := Token(s);
            var a := Atom(t.tok, t.rest, env);
            var r := Terms(a.rest, env);
            Terms(" + " + s, env) == Out([a.val] + r.val, r.rest, t.bad || a.bad || r.bad)
  {
    PlusToken(s);
    BlankToken(s);
    hide Token, Atom;
  }

  /** KEY with a concatenation behind it. */
  lemma RhsOfKey(key: string, tail: string, env: Env, fmt: Format)
    requires IsKey(key) && At(tail, 0) == ' ' && Token(tail).tok.Plus?
    ensures var r, was := Terms(tail, env), if key in env then env[key] else VNull;
            Rhs(key + tail, env, fmt) == Out(VStr(Show(was, fmt) + Concat(r.val, fmt)), r.rest, r.bad)
  {
    KeyToken(key, tail);
    hide Token, Terms, Concat;
  }

  lemma ConcatStep(v: Value, vs: seq<Value>, fmt: Format)
    ensures Concat([v] + vs, fmt) == Show(v, fmt) + Concat(vs, fmt)
  {
    assert ([v] + vs)[1..] == vs;
    hide Show;
  }

  /**
    For a right-hand side that starts with a value, appending to a key is the same as assigning the
    concatenation of the key and the right-hand side, exactly if the key is defined.
  */
  lemma AppendIsConcat(key: string, s: string, env: Env, fmt: Format)
    requires IsKey(key) && StartsValue(Token(s).tok)
    ensures AppendTo(key, s, env, fmt) == SetTo(key, key + (" + " + s), env, fmt) <==> key in env
  {
    ConcatReads(key, s, env, fmt);
    var r := Rhs(s, env, fmt);
    hide Rhs;
    if key !in env {
      var x, y := Show(r.val, fmt), AppendTo(key, s, env, fmt).0;
      var z := SetTo(key, key + (" + " + s), env, fmt).0;
      assert y[key] == VStr("" + x) && z[key] == VStr("null" + x);
      assert |"" + x| != |"null" + x|;
    }
  }
}
