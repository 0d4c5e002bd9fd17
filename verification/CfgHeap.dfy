/**
  The evaluator of cfg_parser.c as it runs: values are var_t nodes that share one another, an array
  literal grows node by node, and concatenation fills a buffer. The ghost field value of a node is
  the value it stands for; allocations succeed here.
*/
module CfgHeap {
  import opened CfgLex
  import opened CfgEval

  const ARRAY_INIT_CAP := 8
  const CONCAT_INIT_CAP := 1024

  /** The tagged union in var_t, as far as configuration values use it. */
  datatype Cell =
    | CNull | CInt(i: int) | CFloat(digits: string) | CBool(b: bool) | CStr(s: string)
    | CArray(items: seq<Var>, cap: nat)

  function Children(c: Cell): seq<Var> {
    if c.CArray? then c.items else []
  }

  class Var {
    var cell: Cell
    ghost var value: Value

    constructor (cell: Cell, ghost value: Value)
      ensures this.cell == cell && this.value == value
    {
      this.cell, this.value := cell, value;
    }

    /** The node stands for its value, if its children stand for theirs. */
    ghost predicate Good()
      reads this, Children(cell)
    {
      match cell
      case CNull => value == VNull
      case CInt(i) => value == VInt(i)
      case CFloat(digits) => value == VFloat(digits)
      case CBool(b) => value == VBool(b)
      case CStr(s) => value == VStr(s)
      case CArray(items, cap) =>
        |items| <= cap && value.VArr? && |value.items| == |items| &&
        forall i :: 0 <= i < |items| ==> items[i].value == value.items[i]
    }

    /** var_push: doubles the capacity when it is used up. */
    method Push(item: Var)
      requires cell.CArray? && cell.cap > 0 && Good() && item != this && this !in cell.items
      modifies this
      ensures cell.CArray? && cell.cap > 0 && Good() && cell.items == old(cell.items) + [item]
      ensures cell.cap == if |old(cell.items)| == old(cell.cap) then 2 * old(cell.cap) else old(cell.cap)
      ensures value == VArr(old(value.items) + [item.value])
    {
      var items, cap := cell.items, cell.cap;
      if |items| == cap {
        cap := cap * 2;
      }
      cell := CArray(items + [item], cap);
      value := VArr(value.items + [item.value]);
    }
  }

  /** A set of nodes that is closed under the links in arrays, all of them good. */
  ghost predicate AllGood(pool: set<Var>)
    reads pool
  {
    forall v :: v in pool ==> (forall i :: 0 <= i < |Children(v.cell)| ==> Children(v.cell)[i] in pool) && v.Good()
  }

  // ---------- What the ghost values mean ----------

  /** Walking the links from v reads the value val. */
  ghost predicate Denotes(pool: set<Var>, v: Var, val: Value)
    reads pool
    decreases val
  {
    v in pool &&
    match v.cell
    case CNull => val == VNull
    case CInt(i) => val == VInt(i)
    case CFloat(digits) => val == VFloat(digits)
    case CBool(b) => val == VBool(b)
    case CStr(s) => val == VStr(s)
    case CArray(items, _) =>
      val.VArr? && |val.items| == |items| &&
      forall i :: 0 <= i < |items| ==> Denotes(pool, items[i], val.items[i])
  }

  lemma {:induction false} NodesDenote(pool: set<Var>, v: Var)
    requires AllGood(pool) && v in pool
    ensures Denotes(pool, v, v.value)
    decreases v.value
  {
    if v.cell.CArray? {
      forall i | 0 <= i < |v.cell.items|
        ensures Denotes(pool, v.cell.items[i], v.value.items[i])
      {
        assert Children(v.cell)[i] in pool;
        NodesDenote(pool, v.cell.items[i]);
      }
    }
  }

  function Height(v: Value): nat {
    if v.VArr? then 1 + MaxHeight(v.items) else 0
  }

  function MaxHeight(vs: seq<Value>): nat {
    if vs == [] then 0
    else
      var h, m := Height(vs[0]), MaxHeight(vs[1..]);
      if h > m then h else m
  }

  lemma {:induction false} MaxHeightIs(vs: seq<Value>, i: nat)
    requires i < |vs|
    ensures Height(vs[i]) <= MaxHeight(vs)
  {
    if i > 0 {
      MaxHeightIs(vs[1..], i - 1);
    }
  }

  /** path goes from node to child. */
  ghost predicate IsPath(pool: set<Var>, path: seq<Var>)
    reads pool
  {
    (forall i :: 0 <= i < |path| ==> path[i] in pool) &&
    forall i :: 0 <= i < |path| - 1 ==> path[i + 1] in Children(path[i].cell)
  }

  /** No path comes back: the graph of values is acyclic. */
  lemma {:induction false} NoCycles(pool: set<Var>, path: seq<Var>)
    requires AllGood(pool) && IsPath(pool, path) && |path| >= 2
    ensures Height(path[|path| - 1].value) < Height(path[0].value) && path[|path| - 1] != path[0]
  {
    var n := |path| - 1;
    var v, c := path[n - 1], path[n - 1 + 1];
    assert v in pool && c in Children(v.cell);
    var i :| 0 <= i < |v.cell.items| && v.cell.items[i] == c;
    MaxHeightIs(v.value.items, i);
    if n > 1 {
      assert IsPath(pool, path[..n]);
      NoCycles(pool, path[..n]);
    }
  }

  // ---------- Evaluation ----------

  /** The variables stand for env; they and all that they lead to are good nodes of the pool. */
  ghost predicate Stands(vars: map<string, Var>, env: Env, pool: set<Var>)
    reads pool
  {
    AllGood(pool) && vars.Keys == env.Keys && forall k :: k in vars ==> vars[k] in pool && vars[k].value == env[k]
  }

  /** l stands behind what r has read, and remembers errors. */
  ghost predicate HasRead<T>(l: Lexer, r: Out<T>, error: bool)
    reads l
  {
    l.Valid() && l.Rest() == r.rest && l.error == (error || r.bad)
  }

  /** var_null, var_int and so on. */
  method NewVar(cell: Cell, ghost value: Value, ghost vars: map<string, Var>, ghost env: Env, ghost pool: set<Var>)
    returns (v: Var, ghost pool2: set<Var>)
    requires Stands(vars, env, pool) && (forall i :: 0 <= i < |Children(cell)| ==> Children(cell)[i] in pool)
    requires match cell
             case CNull => value == VNull
             case CInt(i) => value == VInt(i)
             case CFloat(digits) => value == VFloat(digits)
             case CBool(b) => value == VBool(b)
             case CStr(s) => value == VStr(s)
             case CArray(items, cap) => false
    ensures pool2 == pool + {v} && fresh(v) && Stands(vars, env, pool2) && v.value == value
  {
    v := new Var(cell, value);
    pool2 := pool + {v};
  }

  /** v is the result of reading r with l, and the pool is in order. */
  ghost predicate Yields(l: Lexer, v: Var, r: Out<Value>, error: bool, vars: map<string, Var>, env: Env, pool: set<Var>)
    reads l, pool, v
  {
    HasRead(l, r, error) && Stands(vars, env, pool) && v in pool && v.value == r.val
  }

  method NewNull(ghost vars: map<string, Var>, ghost env: Env, ghost pool: set<Var>)
    returns (v: Var, ghost pool2: set<Var>)
    requires Stands(vars, env, pool)
    ensures pool2 == pool + {v} && fresh(v) && Stands(vars, env, pool2) && v.value == VNull
  {
    v, pool2 := NewVar(CNull, VNull, vars, env, pool);
  }

  /** var_get, or a null when there is no such element. */
  method GetElement(v: Var, i: int, ghost vars: map<string, Var>, ghost env: Env, ghost pool: set<Var>)
    returns (e: Var, ghost pool2: set<Var>)
    requires Stands(vars, env, pool) && v in pool
    ensures pool <= pool2 && fresh(pool2 - pool) && Stands(vars, env, pool2)
    ensures e in pool2 && e.value == Element(v.value, i)
  {
    if v.cell.CArray? && 0 <= i < |v.cell.items| {
      e, pool2 := v.cell.items[i], pool;
      assert e == Children(v.cell)[i];
    } else {
      e, pool2 := NewNull(vars, env, pool);
    }
  }

  /** The value of a variable, or a null when it is undefined. */
  method GetVariable(name: string, vars: map<string, Var>, ghost env: Env, ghost pool: set<Var>)
    returns (v: Var, ghost pool2: set<Var>)
    requires Stands(vars, env, pool)
    ensures pool <= pool2 && fresh(pool2 - pool) && Stands(vars, env, pool2)
    ensures v in pool2 && v.value == if name in env then env[name] else VNull
  {
    if name in vars {
      v, pool2 := vars[name], pool;
    } else {
      v, pool2 := NewNull(vars, env, pool);
    }
  }

  /** The part of eval_atom behind the opening bracket of an index. */
  method EvalIndex(l: Lexer, name: string, vars: map<string, Var>, ghost env: Env, ghost pool: set<Var>)
    returns (v: Var, ghost pool2: set<Var>)
    requires l.Valid() && Stands(vars, env, pool)
    modifies l`p, l`error
    ensures var idx := Token(old(l.Rest()));
            var rb := Token(idx.rest);
            Yields(l, v, if !rb.tok.RBracket? || !idx.tok.Int? then Out(VNull, rb.rest, true)
                         else Out(if name in env then Element(env[name], idx.tok.val) else VNull, rb.rest,
                                  idx.bad || rb.bad),
                   old(l.error), vars, env, pool2)
    ensures pool <= pool2 && fresh(pool2 - pool)
  {
    hide Token, AllGood, Element;
    var idx := l.NextTok();
    var rb := l.NextTok();
    if !rb.RBracket? || !idx.Int? {
      l.error := true;
      v, pool2 := NewNull(vars, env, pool);
    } else if name in vars {
      v, pool2 := GetElement(vars[name], idx.val, vars, env, pool);
    } else {
      v, pool2 := NewNull(vars, env, pool);
    }
  }

  method EvalVariable(l: Lexer, name: string, vars: map<string, Var>, ghost env: Env, ghost pool: set<Var>)
    returns (v: Var, ghost pool2: set<Var>)
    requires l.Valid() && Stands(vars, env, pool)
    modifies l`p, l`error
    ensures Yields(l, v, Variable(name, old(l.Rest()), env), old(l.error), vars, env, pool2)
    ensures pool <= pool2 && fresh(pool2 - pool)
  {
    hide Token, AllGood, Element, Stands;
    var pk := l.PeekTok();
    if pk.LBracket? {
      assert !Token(l.Rest()).bad by {
        BracketIsGood(l.Rest());
      }
      var bracket := l.NextTok();
      v, pool2 := EvalIndex(l, name, vars, env, pool);
    } else {
      v, pool2 := GetVariable(name, vars, env, pool);
    }
  }

  lemma BracketIsGood(s: string)
    ensures Token(s).tok.LBracket? ==> !Token(s).bad
  {
  }

  // ---------- Array literals ----------

  lemma ItemsUnfold(s: string, env: Env)
    ensures var pk, r := Token(s), Items(s, env);
            if pk.tok.RBracket? then r == Out([], pk.rest, false) && !pk.bad
            else if pk.tok.Eof? || pk.tok.Hash? then r == Out([], s, false) && !pk.bad
            else if pk.tok.Comma? then r == Items(pk.rest, env) && !pk.bad
            else if !StartsValue(pk.tok) then r == Items(pk.rest, env).(bad := true)
            else
              var a := Atom(pk.tok, pk.rest, env);
              var q := Items(a.rest, env);
              r == Out([a.val] + q.val, q.rest, pk.bad || a.bad || q.bad)
  {
  }

  /** In the loop of an array literal that began at s0: arr holds the items read so far. */
  ghost predicate Building(l: Lexer, arr: Var, s0: string, error0: bool, vars: map<string, Var>, env: Env,
                           pool: set<Var>)
    reads l, arr, pool, Children(arr.cell)
  {
    l.Valid() && |l.Rest()| <= |s0| && Stands(vars, env, pool) && arr !in pool &&
    arr.cell.CArray? && arr.cell.cap > 0 && arr.Good() &&
    (forall i :: 0 <= i < |arr.cell.items| ==> arr.cell.items[i] in pool) &&
    var r, q := Items(s0, env), Items(l.Rest(), env);
    r.val == arr.value.items + q.val && r.rest == q.rest && (error0 || r.bad) == (l.error || q.bad)
  }

  /** Looks at the next token of an array literal. */
  method PeekItem(l: Lexer, ghost arr: Var, ghost s0: string, ghost error0: bool, ghost vars: map<string, Var>,
                  ghost env: Env, ghost pool: set<Var>) returns (t: Tok)
    requires Building(l, arr, s0, error0, vars, env, pool)
    modifies l`p, l`error
    ensures Building(l, arr, s0, error0, vars, env, pool) && l.Valid() && l.p == old(l.p) && t == Token(l.Rest()).tok
  {
    ItemsUnfold(l.Rest(), env);
    hide Token, Items, Stands, Var.Good;
    t := l.PeekTok();
  }

  /** Skips a token of an array literal that is no item; all but commas are errors. */
  method SkipTok(l: Lexer, ghost arr: Var, ghost s0: string, ghost error0: bool, ghost vars: map<string, Var>,
                 ghost env: Env, ghost pool: set<Var>)
    requires Building(l, arr, s0, error0, vars, env, pool)
    requires var pk := Token(l.Rest()).tok; !StartsValue(pk) && !pk.RBracket? && !pk.Eof? && !pk.Hash?
    modifies l`p, l`error
    ensures Building(l, arr, s0, error0, vars, env, pool) && l.p > old(l.p)
  {
    ItemsUnfold(l.Rest(), env);
    hide Token, Items, Stands, Var.Good, StartsValue;
    var t := l.NextTok();
    if !t.Comma? {
      l.error := true;
    }
  }

  /** Pushes an item that has just been read. */
  method PushItem(l: Lexer, arr: Var, item: Var, ghost s0: string, ghost error0: bool, ghost vars: map<string, Var>,
                  ghost env: Env, ghost pool: set<Var>, ghost vals: seq<Value>)
    requires l.Valid() && |l.Rest()| <= |s0| && Stands(vars, env, pool) && arr !in pool && item in pool
    requires arr.cell.CArray? && arr.cell.cap > 0 && arr.Good() && vals == arr.value.items
    requires forall i :: 0 <= i < |arr.cell.items| ==> arr.cell.items[i] in pool
    requires var r, q := Items(s0, env), Items(l.Rest(), env);
             r.val == vals + ([item.value] + q.val) && r.rest == q.rest && (error0 || r.bad) == (l.error || q.bad)
    modifies arr
    ensures Building(l, arr, s0, error0, vars, env, pool)
  {
    hide Token, Items;
    assert item != arr && arr !in arr.cell.items;
    assert vals + ([item.value] + Items(l.Rest(), env).val) == (vals + [item.value]) + Items(l.Rest(), env).val;
    arr.Push(item);
    assert forall i :: 0 <= i < |arr.cell.items| ==> arr.cell.items[i] in pool;
  }

  /** Reads one item of an array literal and pushes it. */
  method EvalItem(l: Lexer, arr: Var, ghost s0: string, ghost error0: bool, vars: map<string, Var>, ghost env: Env,
                  ghost pool: set<Var>) returns (ghost pool2: set<Var>)
    requires Building(l, arr, s0, error0, vars, env, pool) && StartsValue(Token(l.Rest()).tok)
    modifies l`p, l`error, arr
    ensures Building(l, arr, s0, error0, vars, env, pool2) && l.p > old(l.p)
    ensures pool <= pool2 && fresh(pool2 - pool)
    decreases |l.line| - l.p, 1
  {
    ItemsUnfold(l.Rest(), env);
    hide Token, Items, Stands, Atom;
    var t := l.NextTok();
    var item;
    item, pool2 := EvalAtom(l, t, vars, env, pool);
    PushItem(l, arr, item, s0, error0, vars, env, pool2, arr.value.items);
  }

  /** Consumes the bracket, if there is one; from here on the array is one of the nodes. */
  method CloseArray(l: Lexer, arr: Var, ghost s0: string, ghost error0: bool, ghost vars: map<string, Var>,
                    ghost env: Env, ghost pool: set<Var>)
    requires Building(l, arr, s0, error0, vars, env, pool)
    requires var pk := Token(l.Rest()).tok; pk.RBracket? || pk.Eof? || pk.Hash?
    modifies l`p, l`error
    ensures Yields(l, arr, Atom(LBracket, s0, env), error0, vars, env, pool + {arr})
  {
    ItemsUnfold(l.Rest(), env);
    assert arr.value.items + [] == arr.value.items;
    AddNode(arr, vars, env, pool);
    hide Token, Items, AllGood, Var.Good;
    var pk := l.PeekTok();
    if pk.RBracket? {
      pk := l.NextTok();
    }
  }

  lemma AddNode(v: Var, vars: map<string, Var>, env: Env, pool: set<Var>)
    requires Stands(vars, env, pool) && v.Good()
    requires forall i :: 0 <= i < |Children(v.cell)| ==> Children(v.cell)[i] in pool
    ensures Stands(vars, env, pool + {v})
  {
  }

  /** One turn of the loop, and the look at the token behind it. */
  method EvalTurn(l: Lexer, arr: Var, pk: Tok, ghost s0: string, ghost error0: bool, vars: map<string, Var>,
                  ghost env: Env, ghost pool: set<Var>) returns (pk2: Tok, ghost pool2: set<Var>)
    requires Building(l, arr, s0, error0, vars, env, pool) && pk == Token(l.Rest()).tok
    requires !pk.RBracket? && !pk.Eof? && !pk.Hash?
    modifies l`p, l`error, arr
    ensures Building(l, arr, s0, error0, vars, env, pool2) && pk2 == Token(l.Rest()).tok
    ensures l.Valid() && old(l.p) < l.p <= |l.line| && pool <= pool2 && fresh(pool2 - pool)
    decreases |l.line| - l.p, 2
  {
    hide Token, Stands, AllGood, Items, Var.Good;
    pool2 := pool;
    if StartsValue(pk) {
      pool2 := EvalItem(l, arr, s0, error0, vars, env, pool);
    } else {
      SkipTok(l, arr, s0, error0, vars, env, pool);
    }
    pk2 := PeekItem(l, arr, s0, error0, vars, env, pool2);
  }

  /** var_array. */
  method StartArray(ghost l: Lexer, ghost vars: map<string, Var>, ghost env: Env, ghost pool: set<Var>)
    returns (arr: Var)
    requires l.Valid() && Stands(vars, env, pool)
    ensures l.Valid() && Building(l, arr, l.Rest(), l.error, vars, env, pool) && fresh(arr)
    ensures l.Rest() == old(l.Rest())
  {
    arr := new Var(CArray([], ARRAY_INIT_CAP), VArr([]));
    assert [] + Items(l.Rest(), env).val == Items(l.Rest(), env).val;
    hide Items, AllGood;
  }

  method EvalArray(l: Lexer, vars: map<string, Var>, ghost env: Env, ghost pool: set<Var>)
    returns (arr: Var, ghost pool2: set<Var>)
    requires l.Valid() && Stands(vars, env, pool)
    modifies l`p, l`error
    ensures Yields(l, arr, Atom(LBracket, old(l.Rest()), env), old(l.error), vars, env, pool2)
    ensures pool <= pool2 && fresh(pool2 - pool)
    decreases |l.line| - l.p, 3
  {
    hide *;
    InLine(l);
    ghost var s0, error0 := l.Rest(), l.error;
    arr := StartArray(l, vars, env, pool);
    pool2 := pool;
    var pk := PeekItem(l, arr, s0, error0, vars, env, pool2);
    while !pk.RBracket? && !pk.Eof? && !pk.Hash?
      invariant old(l.p) <= l.p <= |l.line| && Building(l, arr, s0, error0, vars, env, pool2)
      invariant l.Valid() && pk == Token(l.Rest()).tok
      invariant pool <= pool2 && fresh(pool2 - pool)
      decreases |l.line| - l.p
    {
      pk, pool2 := EvalTurn(l, arr, pk, s0, error0, vars, env, pool2);
    }
    CloseArray(l, arr, s0, error0, vars, env, pool2);
    pool2 := pool2 + {arr};
  }

  /** eval_atom. It changes the position in the line and new nodes, and no others. */
  method EvalAtom(l: Lexer, tok: Tok, vars: map<string, Var>, ghost env: Env, ghost pool: set<Var>)
    returns (v: Var, ghost pool2: set<Var>)
    requires l.Valid() && Stands(vars, env, pool)
    modifies l`p, l`error
    ensures Yields(l, v, Atom(tok, old(l.Rest()), env), old(l.error), vars, env, pool2)
    ensures pool <= pool2 && fresh(pool2 - pool)
    decreases |l.line| - l.p, 4
  {
    match tok
    case Str(text) => v, pool2 := NewVar(CStr(text), VStr(text), vars, env, pool);
    case Int(i) => v, pool2 := NewVar(CInt(i), VInt(i), vars, env, pool);
    case Flt(digits) => v, pool2 := NewVar(CFloat(digits), VFloat(digits), vars, env, pool);
    case Ident(name) =>
      if name == "true" {
        v, pool2 := NewVar(CBool(true), VBool(true), vars, env, pool);
      } else if name == "false" {
        v, pool2 := NewVar(CBool(false), VBool(false), vars, env, pool);
      } else if name == "null" {
        v, pool2 := NewNull(vars, env, pool);
      } else {
        v, pool2 := EvalVariable(l, name, vars, env, pool);
      }
    case LBracket => v, pool2 := EvalArray(l, vars, env, pool);
    case _ => v, pool2 := NewNull(vars, env, pool);
  }

  // ---------- Concatenation ----------

  /** var_to_str. */
  method VarToStr(v: Var, fmt: Format) returns (s: string)
    requires v.Good()
    ensures s == Show(v.value, fmt)
  {
    s := match v.cell
      case CNull => "null"
      case CInt(i) => if i < 0 then "-" + DecimalOf(0 - i) else DecimalOf(i)
      case CFloat(digits) => fmt(digits)
      case CBool(b) => if b then "true" else "false"
      case CStr(text) => text
      case CArray(_, _) => "[array]";
  }

  /** The buffer holds the text, with its terminator. */
  ghost predicate Holds(buf: array<char>, len: nat, text: string)
    reads buf
  {
    len + 1 <= buf.Length && buf[..len] == text && buf[len] == '\0'
  }

  /** ta_realloc. */
  method Realloc(buf: array<char>, cap: nat) returns (b: array<char>)
    requires cap >= buf.Length
    ensures fresh(b) && b.Length == cap && b[..buf.Length] == buf[..]
  {
    b := new char[cap];
    forall i | 0 <= i < buf.Length {
      b[i] := buf[i];
    }
  }

  /** memcpy of a string and its terminator to the position len. */
  method CopyTo(buf: array<char>, len: nat, text: string)
    requires len + |text| + 1 <= buf.Length
    modifies buf
    ensures buf[..len] == old(buf[..len]) && Holds(buf, len + |text|, old(buf[..len]) + text)
  {
    forall i | 0 <= i <= |text| {
      buf[len + i] := if i < |text| then text[i] else '\0';
    }
    assert forall i :: 0 <= i < |text| ==> buf[..len + |text|][len + i] == text[i];
  }

  /** Appends a string to the buffer, which doubles until the string fits. */
  method AddText(buf: array<char>, len: nat, more: string, ghost text: string) returns (b: array<char>, len2: nat)
    requires Holds(buf, len, text)
    modifies buf
    ensures (b == buf || fresh(b)) && Holds(b, len2, text + more)
  {
    b := buf;
    var cap := buf.Length;
    if len + |more| + 1 > cap {
      while cap < len + |more| + 1
        invariant cap >= buf.Length
      {
        cap := cap * 2;
      }
      b := Realloc(buf, cap);
      assert b[..len] == b[..buf.Length][..len] == buf[..len];
    }
    len2 := len + |more|;
    CopyTo(b, len, more);
  }

  lemma TermsUnfold(s: string, env: Env, fmt: Format)
    ensures var pk, r := Token(s), Terms(s, env);
            if !pk.tok.Plus? then r == Out([], s, pk.bad) && Concat(r.val, fmt) == ""
            else
              !pk.bad && var t := Token(pk.rest);
              if t.tok.Eof? || t.tok.Hash? then r == Out([], t.rest, t.bad) && Concat(r.val, fmt) == ""
              else
                var a := Atom(t.tok, t.rest, env);
                var q := Terms(a.rest, env);
                r.rest == q.rest && r.bad == (t.bad || a.bad || q.bad) &&
                Concat(r.val, fmt) == Show(a.val, fmt) + Concat(q.val, fmt)
  {
    PlusIsGood(s);
    hide Token, Atom, Show;
    var pk := Token(s);
    if pk.tok.Plus? {
      var t := Token(pk.rest);
      if !t.tok.Eof? && !t.tok.Hash? {
        var a := Atom(t.tok, t.rest, env);
        var q := Terms(a.rest, env);
        assert ([a.val] + q.val)[1..] == q.val;
        assert Terms(s, env).val == [a.val] + q.val;
      }
    }
  }

  lemma PlusIsGood(s: string)
    ensures Token(s).tok.Plus? ==> !Token(s).bad
  {
  }

  /** In the loop of eval_rhs over the terms that began at s0 behind text0: text is read so far. */
  ghost predicate Chaining(l: Lexer, text: string, more: bool, s0: string, text0: string, error0: bool, env: Env,
                           fmt: Format)
    reads l
  {
    l.Valid() &&
    var r := Terms(s0, env);
    if more then
      Token(l.Rest()).tok.Plus? && var q := Terms(l.Rest(), env);
      text0 + Concat(r.val, fmt) == text + Concat(q.val, fmt) && r.rest == q.rest &&
      (error0 || r.bad) == (l.error || q.bad)
    else
      text == text0 + Concat(r.val, fmt) && HasRead(l, r, error0)
  }

  /** Peeks at what follows the terms so far. */
  method PeekPlus(l: Lexer, ghost text: string, ghost s0: string, ghost text0: string, ghost error0: bool,
                  ghost env: Env, ghost fmt: Format) returns (more: bool)
    requires l.Valid()
    requires var r, q := Terms(s0, env), Terms(l.Rest(), env);
             text0 + Concat(r.val, fmt) == text + Concat(q.val, fmt) && r.rest == q.rest &&
             (error0 || r.bad) == (l.error || q.bad)
    modifies l`p, l`error
    ensures l.Valid() && Chaining(l, text, more, s0, text0, error0, env, fmt) && l.p == old(l.p)
  {
    TermsUnfold(l.Rest(), env, fmt);
    assert text + "" == text;
    hide Token, Terms;
    var pk := l.PeekTok();
    more := pk.Plus?;
  }

  lemma GoodNode(v: Var, vars: map<string, Var>, env: Env, pool: set<Var>)
    requires Stands(vars, env, pool) && v in pool
    ensures v.Good()
  {
  }

  /** eval_atom and var_to_str of its value. */
  method EvalText(l: Lexer, t: Tok, fmt: Format, vars: map<string, Var>, ghost env: Env, ghost pool: set<Var>)
    returns (s: string, ghost pool2: set<Var>)
    requires l.Valid() && Stands(vars, env, pool)
    modifies l`p, l`error
    ensures HasRead(l, Atom(t, old(l.Rest()), env), old(l.error)) && Stands(vars, env, pool2)
    ensures s == Show(Atom(t, old(l.Rest()), env).val, fmt)
    ensures pool <= pool2 && fresh(pool2 - pool)
  {
    hide Token, Atom, AllGood, Var.Good, Stands, HasRead;
    var v;
    v, pool2 := EvalAtom(l, t, vars, env, pool);
    GoodNode(v, vars, env, pool2);
    s := VarToStr(v, fmt);
  }

  /** After a term behind a plus: what is left of the loop. */
  lemma AfterTerm(text: string, s: string, q: string)
    ensures text + (s + q) == (text + s) + q
    ensures text + "" == text
  {
  }

  /** One turn of the loop: a plus and the term behind it, unless the line ends there. */
  method EvalTerm(l: Lexer, buf: array<char>, len: nat, fmt: Format, vars: map<string, Var>, ghost env: Env,
                  ghost pool: set<Var>, ghost text: string, ghost s0: string, ghost text0: string, ghost error0: bool)
    returns (b: array<char>, len2: nat, more: bool, ghost text2: string, ghost pool2: set<Var>)
    requires Chaining(l, text, true, s0, text0, error0, env, fmt) && Holds(buf, len, text) && Stands(vars, env, pool)
    modifies l`p, l`error, buf
    ensures Chaining(l, text2, more, s0, text0, error0, env, fmt) && Holds(b, len2, text2) && Stands(vars, env, pool2)
    ensures (b == buf || fresh(b)) && pool <= pool2 && fresh(pool2 - pool) && l.Valid() && old(l.p) < l.p <= |l.line|
  {
    hide *;
    TermStart(l, text, s0, text0, error0, env, fmt);
    ghost var s1 := l.Rest();
    TermsUnfold(s1, env, fmt);
    var plus := l.NextTok();
    ghost var s2 := l.Rest();
    var t := l.NextTok();
    ghost var s3, e3 := l.Rest(), l.error;
    if !t.Eof? && !t.Hash? {
      var s;
      s, pool2 := EvalText(l, t, fmt, vars, env, pool);
      NowAt(l, Atom(t, s3, env), e3);
      Advanced(l, s1);
      b, len2 := AddText(buf, len, s, text);
      text2 := text + s;
      AfterTerm(text, s, Concat(Terms(l.Rest(), env).val, fmt));
      more := PeekPlus(l, text2, s0, text0, error0, env, fmt);
    } else {
      AfterTerm(text, "", "");
      b, len2, more, text2, pool2 := buf, len, false, text, pool;
      TermStop(l, text, s0, text0, error0, env, fmt);
      Advanced(l, s1);
    }
  }

  lemma TermStart(l: Lexer, text: string, s0: string, text0: string, error0: bool, env: Env, fmt: Format)
    requires Chaining(l, text, true, s0, text0, error0, env, fmt)
    ensures l.Valid() && Token(l.Rest()).tok.Plus? && |l.Rest()| == |l.line| - l.p
    ensures var r, q := Terms(s0, env), Terms(l.Rest(), env);
            text0 + Concat(r.val, fmt) == text + Concat(q.val, fmt) && r.rest == q.rest &&
            (error0 || r.bad) == (l.error || q.bad)
  {
    hide Token, Terms, Concat;
  }

  lemma TermStop(l: Lexer, text: string, s0: string, text0: string, error0: bool, env: Env, fmt: Format)
    requires l.Valid() && text == text0 + Concat(Terms(s0, env).val, fmt)
    requires l.Rest() == Terms(s0, env).rest && l.error == (error0 || Terms(s0, env).bad)
    ensures Chaining(l, text, false, s0, text0, error0, env, fmt)
  {
    hide Token, Terms, Concat;
  }

  lemma NowAt<T>(l: Lexer, r: Out<T>, error: bool)
    requires HasRead(l, r, error)
    ensures l.Valid() && l.Rest() == r.rest && l.error == (error || r.bad) && |r.rest| == |l.line| - l.p
  {
  }

  lemma Advanced(l: Lexer, s: string)
    requires l.Valid() && |l.Rest()| < |s|
    ensures |l.line| - l.p < |s| && l.p <= |l.line|
  {
  }

  /** The buffer that a concatenation starts with. */
  method StartBuffer(text: string) returns (buf: array<char>)
    ensures fresh(buf) && Holds(buf, |text|, text)
  {
    var cap := CONCAT_INIT_CAP;
    buf := new char[cap];
    if |text| + 1 > cap {
      cap := |text| + 1;
      buf := Realloc(buf, cap);
    }
    CopyTo(buf, 0, text);
    assert [] + text == text;
  }

  /** What eval_rhs makes of its first value and the terms behind it. */
  function Joined(v: Value, s: string, env: Env, fmt: Format): Out<Value> {
    var r := Terms(s, env);
    Out(VStr(Show(v, fmt) + Concat(r.val, fmt)), r.rest, r.bad)
  }

  /** The second half of eval_rhs: the buffer holds exactly what has been read, and always fits. */
  method EvalChain(l: Lexer, first: string, fmt: Format, vars: map<string, Var>, ghost env: Env, ghost pool: set<Var>,
                   ghost val: Value) returns (v: Var, ghost pool2: set<Var>)
    requires l.Valid() && Token(l.Rest()).tok.Plus? && Stands(vars, env, pool) && first == Show(val, fmt)
    modifies l`p, l`error
    ensures Yields(l, v, Joined(val, old(l.Rest()), env, fmt), old(l.error), vars, env, pool2)
    ensures pool <= pool2 && fresh(pool2 - pool)
  {
    hide *;
    InLine(l);
    ghost var s0, error0, text := l.Rest(), l.error, first;
    var len: nat := |first|;
    var buf := StartBuffer(first);
    pool2 := pool;
    var more := PeekPlus(l, text, s0, first, error0, env, fmt);
    while more
      invariant l.Valid() && l.p <= |l.line| && Chaining(l, text, more, s0, first, error0, env, fmt)
      invariant Holds(buf, len, text) && fresh(buf) && Stands(vars, env, pool2)
      invariant pool <= pool2 && fresh(pool2 - pool)
      decreases |l.line| - l.p
    {
      buf, len, more, text, pool2 := EvalTerm(l, buf, len, fmt, vars, env, pool2, text, s0, first, error0);
    }
    v, pool2 := FromBuffer(buf, len, text, vars, env, pool2);
    FinishChain(l, v, text, s0, first, error0, env, fmt, vars, pool2, val);
  }

  lemma InLine(l: Lexer)
    requires l.Valid()
    ensures l.p <= |l.line|
  {
  }

  lemma FinishChain(l: Lexer, v: Var, text: string, s0: string, text0: string, error0: bool, env: Env, fmt: Format,
                    vars: map<string, Var>, pool: set<Var>, val: Value)
    requires Chaining(l, text, false, s0, text0, error0, env, fmt) && text0 == Show(val, fmt)
    requires Stands(vars, env, pool) && v in pool && v.value == VStr(text)
    ensures Yields(l, v, Joined(val, s0, env, fmt), error0, vars, env, pool)
  {
    hide Terms, Show, Concat, Stands;
  }

  /** var_str of the finished buffer. */
  method FromBuffer(buf: array<char>, len: nat, ghost text: string, ghost vars: map<string, Var>, ghost env: Env,
                    ghost pool: set<Var>) returns (v: Var, ghost pool2: set<Var>)
    requires Holds(buf, len, text) && Stands(vars, env, pool)
    ensures pool2 == pool + {v} && fresh(v) && Stands(vars, env, pool2) && v in pool2 && v.value == VStr(text)
  {
    v, pool2 := NewVar(CStr(buf[..len]), VStr(text), vars, env, pool);
  }

  /** eval_rhs. */
  method EvalRhs(l: Lexer, fmt: Format, vars: map<string, Var>, ghost env: Env, ghost pool: set<Var>)
    returns (v: Var, ghost pool2: set<Var>)
    requires l.Valid() && Stands(vars, env, pool)
    modifies l`p, l`error
    ensures Yields(l, v, Rhs(old(l.Rest()), env, fmt), old(l.error), vars, env, pool2)
    ensures pool <= pool2 && fresh(pool2 - pool)
  {
    hide Token, Atom, Show, Concat, AllGood, Var.Good;
    var t := l.NextTok();
    if t.Eof? || t.Hash? {
      v, pool2 := NewNull(vars, env, pool);
    } else {
      v, pool2 := EvalAtom(l, t, vars, env, pool);
      TermsUnfold(l.Rest(), env, fmt);
      hide Terms;
      var pk := l.PeekTok();
      if pk.Plus? {
        GoodNode(v, vars, env, pool2);
        var first := VarToStr(v, fmt);
        v, pool2 := EvalChain(l, first, fmt, vars, env, pool2, v.value);
      }
    }
  }
}
