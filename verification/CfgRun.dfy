/**
  Configuration contexts as they run: parse_line and cfg_load_depth over nodes that share one
  another. Only the context itself and newly allocated nodes ever change.
*/
module CfgRun {
  import opened CfgLex
  import opened CfgEval
  import opened CfgHeap
  import opened CfgLoad

  /** kfl_cfg_t; vars is the map that the dictionary refines. */
  class Cfg {
    var vars: map<string, Var>
    ghost var pool: set<Var>  // the nodes that the variables may lead to

    /** kfl_cfg_new. */
    constructor ()
      ensures Is(map[]) && fresh(pool)
    {
      vars, pool := map[], {};
    }

    /** The variables stand for env. */
    ghost predicate Is(env: Env)
      reads this, pool
    {
      Stands(vars, env, pool)
    }

    /** dict_set. */
    method Store(key: string, v: Var, ghost env: Env, ghost pool2: set<Var>)
      requires Stands(vars, env, pool2) && v in pool2
      modifies this
      ensures Is(env[key := v.value]) && pool == pool2
    {
      vars, pool := vars[key := v], pool2;
    }

    /** kfl_cfg_get. */
    method Get(key: string, ghost env: Env) returns (v: Var?)
      requires Is(env)
      ensures if key in env then v != null && v in pool && v.value == env[key] else v == null
    {
      v := if key in vars then vars[key] else null;
    }
  }

  /** KEY = RHS. */
  method RunAssign(l: Lexer, key: string, fmt: Format, cfg: Cfg, ghost env: Env)
    requires l.Valid() && cfg.Is(env)
    modifies l`p, l`error, cfg
    ensures cfg.Is(SetTo(key, old(l.Rest()), env, fmt).0)
    ensures l.error == (old(l.error) || SetTo(key, old(l.Rest()), env, fmt).1)
    ensures old(cfg.pool) <= cfg.pool && fresh(cfg.pool - old(cfg.pool))
  {
    hide Rhs, AllGood;
    var v;
    ghost var pool2;
    v, pool2 := EvalRhs(l, fmt, cfg.vars, env, cfg.pool);
    cfg.Store(key, v, env, pool2);
  }

  /** The string of a variable; an undefined one is empty. */
  method KeyText(key: string, fmt: Format, cfg: Cfg, ghost env: Env) returns (es: string)
    requires cfg.Is(env)
    ensures es == if key in env then Show(env[key], fmt) else ""
  {
    hide AllGood, Var.Good, Show;
    es := "";
    if key in cfg.vars {
      GoodNode(cfg.vars[key], cfg.vars, env, cfg.pool);
      es := VarToStr(cfg.vars[key], fmt);
    }
  }

  /** The string of a right-hand side. */
  method RhsText(l: Lexer, fmt: Format, cfg: Cfg, ghost env: Env) returns (rs: string, ghost pool2: set<Var>)
    requires l.Valid() && cfg.Is(env)
    modifies l`p, l`error
    ensures var r := Rhs(old(l.Rest()), env, fmt); rs == Show(r.val, fmt) && l.error == (old(l.error) || r.bad)
    ensures cfg.pool <= pool2 && fresh(pool2 - cfg.pool) && Stands(cfg.vars, env, pool2)
  {
    hide Rhs, AllGood, Var.Good, Show, Stands;
    var v;
    v, pool2 := EvalRhs(l, fmt, cfg.vars, env, cfg.pool);
    GoodNode(v, cfg.vars, env, pool2);
    rs := VarToStr(v, fmt);
  }

  /** KEY += RHS: the string of the old value, then the string of the right-hand side. */
  method RunAppend(l: Lexer, key: string, fmt: Format, cfg: Cfg, ghost env: Env)
    requires l.Valid() && cfg.Is(env)
    modifies l`p, l`error, cfg
    ensures cfg.Is(AppendTo(key, old(l.Rest()), env, fmt).0)
    ensures l.error == (old(l.error) || AppendTo(key, old(l.Rest()), env, fmt).1)
    ensures old(cfg.pool) <= cfg.pool && fresh(cfg.pool - old(cfg.pool))
  {
    hide Rhs, AllGood, Show, Stands;
    var es := KeyText(key, fmt, cfg, env);
    var rs;
    ghost var pool2;
    rs, pool2 := RhsText(l, fmt, cfg, env);
    var v;
    v, pool2 := NewVar(CStr(es + rs), VStr(es + rs), cfg.vars, env, pool2);
    cfg.Store(key, v, env, pool2);
  }

  lemma GoodTokens(s: string)
    ensures var t := Token(s); t.tok.Ident? || t.tok.Eq? || t.tok.PlusEq? ==> !t.bad
  {
  }

  /** What a line that is not too long does, by its first token. */
  lemma LineIs(w: World, raw: string, dir: string, depth: nat, env: Env)
    requires depth <= MAX_DEPTH && |raw| <= MAX_LINE - 2
    ensures var first, r := Token(Trim(Cut(raw, MAX_LINE - 1))), Line(w, raw, dir, depth, env);
            if first.tok.Eof? || first.tok.Hash? then r == Res(env, 0)
            else if !first.tok.Ident? then r == Res(env, -1)
            else r == WordLine(w, first.tok.name, first.rest, dir, depth, env)
  {
    hide Load, SetTo, AppendTo, Rhs, Resolve, Token, Trim, SkipWs;
  }

  /** What a line that begins with this word does. */
  function WordLine(w: World, word: string, s: string, dir: string, depth: nat, env: Env): Res
    requires depth <= MAX_DEPTH
  {
    if word == "include" then
      var name := Unquoted(Trim(Cut(SkipWs(s), MAX_TOK - 1)));
      if name == "" then Res(env, -1) else Load(w, Resolve(dir, name), depth + 1, env)
    else if word == "display" then Res(env, Status(Rhs(s, env, w.fmt).bad))
    else KeyLine(w, word, s, env)
  }

  /** What the text behind a key does. */
  function KeyLine(w: World, key: string, s: string, env: Env): Res {
    var op := Token(s);
    if op.tok.Eq? then Outcome(SetTo(key, op.rest, env, w.fmt))
    else if op.tok.PlusEq? then Outcome(AppendTo(key, op.rest, env, w.fmt))
    else Res(env, -1)
  }

  /** The part of parse_line behind a key. */
  method RunKey(w: World, l: Lexer, key: string, cfg: Cfg, ghost env: Env) returns (rc: int)
    requires l.Valid() && !l.error && cfg.Is(env)
    modifies l`p, l`error, cfg
    ensures cfg.Is(KeyLine(w, key, old(l.Rest()), env).env) && rc == KeyLine(w, key, old(l.Rest()), env).rc
    ensures old(cfg.pool) <= cfg.pool && fresh(cfg.pool - old(cfg.pool))
  {
    GoodTokens(l.Rest());
    hide Token, SetTo, AppendTo, Stands, AllGood;
    var op := l.NextTok();
    if op.Eq? {
      RunAssign(l, key, w.fmt, cfg, env);
      rc := if l.error then -1 else 0;
    } else if op.PlusEq? {
      RunAppend(l, key, w.fmt, cfg, env);
      rc := if l.error then -1 else 0;
    } else {
      rc := -1;
    }
  }

  /** The display directive, without its output. */
  method RunDisplay(w: World, l: Lexer, cfg: Cfg, ghost env: Env) returns (rc: int)
    requires l.Valid() && !l.error && cfg.Is(env)
    modifies l`p, l`error
    ensures rc == Status(Rhs(old(l.Rest()), env, w.fmt).bad)
  {
    hide Rhs, Stands, AllGood;
    var v;
    ghost var pool2;
    v, pool2 := EvalRhs(l, w.fmt, cfg.vars, env, cfg.pool);
    rc := if l.error then -1 else 0;
  }

  /** parse_line. */
  method ParseLine(w: World, raw: string, dir: string, depth: nat, cfg: Cfg, ghost env: Env) returns (rc: int)
    requires depth <= MAX_DEPTH && |raw| <= MAX_LINE - 2 && cfg.Is(env)
    modifies cfg
    ensures cfg.Is(Line(w, raw, dir, depth, env).env) && rc == Line(w, raw, dir, depth, env).rc
    ensures old(cfg.pool) <= cfg.pool && fresh(cfg.pool - old(cfg.pool))
    decreases MAX_DEPTH + 1 - depth, 2
  {
    LineIs(w, raw, dir, depth, env);
    hide Line, Token, WordLine, Stands, Trim, Cut;
    var l := new Lexer(Trim(Cut(raw, MAX_LINE - 1)));
    assert l.Rest() == l.line;
    GoodTokens(l.line);
    var first := l.NextTok();
    if first.Ident? {
      rc := RunWord(w, l, first.name, dir, depth, cfg, env);
    } else {
      rc := if first.Eof? || first.Hash? then 0 else -1;
    }
  }

  /** The part of parse_line behind the first word. */
  method RunWord(w: World, l: Lexer, word: string, dir: string, depth: nat, cfg: Cfg, ghost env: Env) returns (rc: int)
    requires depth <= MAX_DEPTH && l.Valid() && !l.error && cfg.Is(env)
    modifies l`p, l`error, cfg
    ensures cfg.Is(WordLine(w, word, old(l.Rest()), dir, depth, env).env)
    ensures rc == WordLine(w, word, old(l.Rest()), dir, depth, env).rc
    ensures old(cfg.pool) <= cfg.pool && fresh(cfg.pool - old(cfg.pool))
    decreases MAX_DEPTH + 1 - depth, 1
  {
    hide Load, KeyLine, Rhs, Stands, Trim, SkipWs, Cut, Unquoted, Resolve;
    if word == "include" {
      rc := RunInclude(w, l, dir, depth, cfg, env);
    } else if word == "display" {
      rc := RunDisplay(w, l, cfg, env);
    } else {
      rc := RunKey(w, l, word, cfg, env);
    }
  }

  /** The include directive. */
  method RunInclude(w: World, l: Lexer, dir: string, depth: nat, cfg: Cfg, ghost env: Env) returns (rc: int)
    requires depth <= MAX_DEPTH && l.Valid() && cfg.Is(env)
    modifies l`p, cfg
    ensures var name := Unquoted(Trim(Cut(SkipWs(old(l.Rest())), MAX_TOK - 1)));
            var r := if name == "" then Res(env, -1) else Load(w, Resolve(dir, name), depth + 1, env);
            cfg.Is(r.env) && rc == r.rc
    ensures old(cfg.pool) <= cfg.pool && fresh(cfg.pool - old(cfg.pool))
    decreases MAX_DEPTH + 1 - depth, 0
  {
    hide Load, Stands, Trim, SkipWs, Cut, Unquoted, Resolve;
    l.SkipBlanks();
    var name := Unquoted(Trim(Cut(l.Rest(), MAX_TOK - 1)));
    if name == "" {
      return -1;
    }
    rc := LoadFile(w, Resolve(dir, name), depth + 1, cfg, env);
  }

  lemma OneMoreLine(w: World, lines: seq<string>, dir: string, depth: nat, env: Env, i: nat)
    requires depth <= MAX_DEPTH && i < |lines|
    ensures var init := Lines(w, lines[..i], dir, depth, env);
            var last := Line(w, lines[i], dir, depth, init.env);
            Lines(w, lines[..i + 1], dir, depth, env) == Res(last.env, if last.rc < 0 then -1 else init.rc)
  {
    hide Line;
    assert lines[..i + 1][..i] == lines[..i];
  }

  lemma TooLong(w: World, raw: string, dir: string, depth: nat, env: Env)
    requires depth <= MAX_DEPTH && |raw| > MAX_LINE - 2
    ensures Line(w, raw, dir, depth, env) == Res(env, -1)
  {
    hide Parse, Load;
  }

  /** cfg_load_depth. Every line is read, whatever went wrong before; no stored value ever changes. */
  method LoadFile(w: World, path: string, depth: nat, cfg: Cfg, ghost env: Env) returns (rc: int)
    requires depth <= MAX_DEPTH + 1 && cfg.Is(env)
    modifies cfg
    ensures cfg.Is(Load(w, path, depth, env).env) && rc == Load(w, path, depth, env).rc
    ensures old(cfg.pool) <= cfg.pool && fresh(cfg.pool - old(cfg.pool))
    ensures forall v :: v in old(cfg.pool) ==> v.cell == old(v.cell) && v.value == old(v.value)
    decreases MAX_DEPTH + 1 - depth, 3
  {
    hide Line, Lines, Stands;
    if depth > MAX_DEPTH {
      return -1;
    }
    if path !in w.files {
      return -1;
    }
    var lines, dir := w.files[path], w.dirOf(path);
    rc := 0;
    ghost var e := env;
    assert Lines(w, lines[..0], dir, depth, env) == Res(env, 0) by {
      NoLines(w, lines[..0], dir, depth, env);
    }
    for i := 0 to |lines|
      invariant cfg.Is(e) && Lines(w, lines[..i], dir, depth, env) == Res(e, rc)
      invariant old(cfg.pool) <= cfg.pool && fresh(cfg.pool - old(cfg.pool))
    {
      OneMoreLine(w, lines, dir, depth, env, i);
      if |lines[i]| > MAX_LINE - 2 {
        TooLong(w, lines[i], dir, depth, e);
        rc := -1;
      } else {
        var r := ParseLine(w, lines[i], dir, depth, cfg, e);
        e := Line(w, lines[i], dir, depth, e).env;
        if r < 0 {
          rc := -1;
        }
      }
    }
    assert lines[..|lines|] == lines;
  }

  lemma NoLines(w: World, lines: seq<string>, dir: string, depth: nat, env: Env)
    requires depth <= MAX_DEPTH && lines == []
    ensures Lines(w, lines, dir, depth, env) == Res(env, 0)
  {
  }
}
