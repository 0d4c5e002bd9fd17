/**
  Loading configuration files: lines, include directives and the depth limit. The file system is a
  map from paths to the lines of a file, without their newlines.
*/
module CfgLoad {
  import opened CfgLex
  import opened CfgEval

  const MAX_LINE := 1024  // CFG_MAX_LINE
  const MAX_DEPTH := 16   // CFG_MAX_DEPTH

  /** dirOf is dirname; fmt says how a float literal prints. */
  datatype World = World(files: map<string, seq<string>>, dirOf: string -> string, fmt: Format)

  // ---------- One line ----------

  predicate IsSpace(c: char) {
    c == ' ' || '\t' <= c <= '\r'
  }

  function Cut(s: string, n: nat): string {
    if |s| <= n then s else s[..n]
  }

  function TrimRight(s: string): (r: string)
    ensures r <= s
  {
    if s != "" && IsSpace(s[|s| - 1]) then TrimRight(s[..|s| - 1]) else s
  }

  function TrimLeft(s: string): string {
    if s != "" && IsSpace(s[0]) then TrimLeft(s[1..]) else s
  }

  /** trim. */
  function Trim(s: string): string {
    TrimLeft(TrimRight(s))
  }

  /** What a line asks for. */
  datatype Stmt =
    | Nothing | Wrong | Include(name: string) | Display(rhs: string)
    | Assign(key: string, rhs: string) | Append(key: string, rhs: string)

  function Unquoted(s: string): string {
    if |s| >= 2 && s[0] == '"' && s[|s| - 1] == '"' then s[1..|s| - 1] else s
  }

  /** The first tokens of parse_line. */
  function Parse(raw: string): Stmt {
    var first := Token(Trim(Cut(raw, MAX_LINE - 1)));
    if first.tok.Eof? || first.tok.Hash? then Nothing
    else if !first.tok.Ident? then Wrong
    else if first.tok.name == "include" then
      var name := Unquoted(Trim(Cut(SkipWs(first.rest), MAX_TOK - 1)));
      if name == "" then Wrong else Include(name)
    else if first.tok.name == "display" then Display(first.rest)
    else
      var op := Token(first.rest);
      if op.tok.Eq? then Assign(first.tok.name, op.rest)
      else if op.tok.PlusEq? then Append(first.tok.name, op.rest)
      else Wrong
  }

  /** The path of an included file; a relative name counts from the directory of the including file. */
  function Resolve(dir: string, name: string): string {
    Cut(if At(name, 0) == '/' then name else dir + "/" + name, MAX_LINE - 1)
  }

  // ---------- Files ----------

  /** The result of an operation: the new variables and 0 or -1. */
  datatype Res = Res(env: Env, rc: int)

  function Status(bad: bool): int {
    if bad then -1 else 0
  }

  /** The result of an assignment. */
  function Outcome(r: (Env, bool)): Res {
    Res(r.0, Status(r.1))
  }

  /** parse_line, and before it the check for overlong lines. */
  function Line(w: World, raw: string, dir: string, depth: nat, env: Env): (r: Res)
    requires depth <= MAX_DEPTH
    ensures r.rc == 0 || r.rc == -1
    decreases MAX_DEPTH + 1 - depth, 0, 0
  {
    if |raw| > MAX_LINE - 2 then Res(env, -1)
    else
      match Parse(raw)
      case Nothing => Res(env, 0)
      case Wrong => Res(env, -1)
      case Include(name) => Load(w, Resolve(dir, name), depth + 1, env)
      case Display(rhs) => Res(env, Status(Rhs(rhs, env, w.fmt).bad))
      case Assign(key, rhs) => Outcome(SetTo(key, rhs, env, w.fmt))
      case Append(key, rhs) => Outcome(AppendTo(key, rhs, env, w.fmt))
  }

  /** The loop over the lines: it goes on after an error, and remembers it. */
  function Lines(w: World, lines: seq<string>, dir: string, depth: nat, env: Env): (r: Res)
    requires depth <= MAX_DEPTH
    ensures r.rc == 0 || r.rc == -1
    decreases MAX_DEPTH + 1 - depth, 1, |lines|
  {
    if lines == [] then Res(env, 0)
    else
      var init := Lines(w, lines[..|lines| - 1], dir, depth, env);
      var last := Line(w, lines[|lines| - 1], dir, depth, init.env);
      Res(last.env, if last.rc < 0 then -1 else init.rc)
  }

  /** cfg_load_depth; its recursion ends because only MAX_DEPTH + 1 levels are ever entered. */
  function Load(w: World, path: string, depth: nat, env: Env): (r: Res)
    requires depth <= MAX_DEPTH + 1
    ensures r.rc == 0 || r.rc == -1
    decreases MAX_DEPTH + 1 - depth, 2, 0
  {
    if depth > MAX_DEPTH || path !in w.files then Res(env, -1)
    else Lines(w, w.files[path], w.dirOf(path), depth, env)
  }

  // ---------- Errors and include cycles ----------

  /** The i-th line of the file includes the file at path. */
  predicate IncludesAt(w: World, file: string, i: nat, path: string)
    requires file in w.files && i < |w.files[file]|
  {
    var raw := w.files[file][i];
    |raw| <= MAX_LINE - 2 && Parse(raw).Include? && Resolve(w.dirOf(file), Parse(raw).name) == path
  }

  /** Every file of the set includes some file of the set, so that there is a cycle. */
  ghost predicate Cyclic(w: World, paths: set<string>) {
    forall f :: f in paths ==>
      f in w.files && exists i, g :: 0 <= i < |w.files[f]| && g in paths && IncludesAt(w, f, i, g)
  }

  /** A line that fails makes the file fail, whatever the other lines do. */
  lemma {:induction false} OneBadLine(w: World, lines: seq<string>, dir: string, depth: nat, env: Env, i: nat)
    requires depth <= MAX_DEPTH && i < |lines|
    requires forall e :: Line(w, lines[i], dir, depth, e).rc == -1
    ensures Lines(w, lines, dir, depth, env).rc == -1
  {
    hide Line;
    if i < |lines| - 1 {
      OneBadLine(w, lines[..|lines| - 1], dir, depth, env, i);
    }
  }

  lemma IncludingLine(w: World, file: string, i: nat, path: string, depth: nat, env: Env)
    requires depth <= MAX_DEPTH && file in w.files && i < |w.files[file]| && IncludesAt(w, file, i, path)
    ensures Line(w, w.files[file][i], w.dirOf(file), depth, env) == Load(w, path, depth + 1, env)
  {
    hide Parse, Resolve, Load;
  }

  lemma CycleStep(w: World, paths: set<string>, file: string) returns (i: nat, g: string)
    requires Cyclic(w, paths) && file in paths
    ensures file in w.files && i < |w.files[file]| && g in paths && IncludesAt(w, file, i, g)
  {
    hide IncludesAt;
    i, g :| 0 <= i < |w.files[file]| && g in paths && IncludesAt(w, file, i, g);
  }

  lemma OpenFile(w: World, file: string, depth: nat, env: Env)
    requires file in w.files && depth <= MAX_DEPTH + 1
    ensures if depth > MAX_DEPTH then Load(w, file, depth, env) == Res(env, -1)
            else Load(w, file, depth, env) == Lines(w, w.files[file], w.dirOf(file), depth, env)
  {
    hide Lines, Line;
  }

  /** Loading any file of an include cycle ends and reports an error. */
  lemma {:induction false} CyclesFail(w: World, paths: set<string>, file: string, depth: nat, env: Env)
    requires Cyclic(w, paths) && file in paths && depth <= MAX_DEPTH + 1
    ensures Load(w, file, depth, env).rc == -1
    decreases MAX_DEPTH + 1 - depth
  {
    hide *;
    var i, g := CycleStep(w, paths, file);
    OpenFile(w, file, depth, env);
    if depth <= MAX_DEPTH {
      forall e: Env
        ensures Line(w, w.files[file][i], w.dirOf(file), depth, e).rc == -1
      {
        IncludingLine(w, file, i, g, depth, e);
        CyclesFail(w, paths, g, depth + 1, e);
      }
      OneBadLine(w, w.files[file], w.dirOf(file), depth, env, i);
    }
  }

  /** The i-th line fails, with the variables that the lines before it leave. */
  predicate FailsAt(w: World, lines: seq<string>, dir: string, depth: nat, env: Env, i: nat)
    requires depth <= MAX_DEPTH && i < |lines|
  {
    Line(w, lines[i], dir, depth, Lines(w, lines[..i], dir, depth, env).env).rc == -1
  }

  /** A file fails exactly if one of its lines does; the lines behind that one still count. */
  lemma {:induction false} FailsIffLineFails(w: World, lines: seq<string>, dir: string, depth: nat, env: Env)
    requires depth <= MAX_DEPTH
    ensures Lines(w, lines, dir, depth, env).rc == -1 <==>
            exists i :: 0 <= i < |lines| && FailsAt(w, lines, dir, depth, env, i)
  {
    hide Line;
    if lines != [] {
      var n := |lines| - 1;
      FailsIffLineFails(w, lines[..n], dir, depth, env);
      assert Lines(w, lines, dir, depth, env).rc == -1 <==>
             FailsAt(w, lines, dir, depth, env, n) || Lines(w, lines[..n], dir, depth, env).rc == -1;
      hide Lines;
      forall i | 0 <= i < n
        ensures FailsAt(w, lines[..n], dir, depth, env, i) == FailsAt(w, lines, dir, depth, env, i)
      {
        assert lines[..n][..i] == lines[..i];
      }
      hide FailsAt;
    }
  }

  // ---------- KEY += RHS and KEY = KEY + RHS, as lines ----------

  lemma TrimKeeps(s: string)
    requires s != "" && !IsSpace(s[0]) && !IsSpace(s[|s| - 1])
    ensures Trim(s) == s
  {
  }

  lemma OpTokens(s: string)
    ensures Token(" += " + s) == Lexed(PlusEq, " " + s, false)
    ensures Token(" = " + s) == Lexed(Eq, " " + s, false)
  {
    var t, u := "+= " + s, "= " + s;
    assert " += " + s == " " + t && " = " + s == " " + u;
    BlankToken(t);
    BlankToken(u);
    assert SkipWs(t) == t && t[2..] == " " + s;
    assert SkipWs(u) == u && u[1..] == " " + s;
  }

  /** How a line KEY op RHS, of legal length and without blanks at its end, is read. */
  lemma ParseKeyLine(key: string, tail: string)
    requires IsKey(key) && key != "include" && key != "display" && |key + tail| <= MAX_LINE - 2
    requires |tail| > 0 && tail[0] == ' ' && !IsSpace(tail[|tail| - 1])
    ensures var op := Token(tail);
            Parse(key + tail) == if op.tok.Eq? then Assign(key, op.rest)
                                 else if op.tok.PlusEq? then Append(key, op.rest) else Wrong
  {
    var raw := key + tail;
    assert raw[0] == key[0] && raw[|raw| - 1] == tail[|tail| - 1];
    TrimKeeps(raw);
    KeyToken(key, tail);
    hide Token, Trim;
  }

  lemma SameAfterBlank(key: string, s: string, env: Env, fmt: Format)
    ensures SetTo(key, " " + s, env, fmt) == SetTo(key, s, env, fmt)
    ensures AppendTo(key, " " + s, env, fmt) == AppendTo(key, s, env, fmt)
  {
    BlankToken(s);
    hide Token, Atom, Terms, Show, Concat;
  }

  lemma LineOfParse(w: World, raw: string, dir: string, depth: nat, env: Env)
    requires depth <= MAX_DEPTH && |raw| <= MAX_LINE - 2
    ensures var p, r := Parse(raw), Line(w, raw, dir, depth, env);
            (p.Assign? ==> r == Outcome(SetTo(p.key, p.rhs, env, w.fmt))) &&
            (p.Append? ==> r == Outcome(AppendTo(p.key, p.rhs, env, w.fmt)))
  {
    hide Parse, SetTo, AppendTo, Rhs, Load, Resolve;
  }

  /** What the lines KEY += s and KEY = s do. */
  lemma KeyLines(w: World, key: string, s: string, dir: string, depth: nat, env: Env)
    requires IsKey(key) && key != "include" && key != "display" && depth <= MAX_DEPTH
    requires s != "" && !IsSpace(s[|s| - 1]) && |key| + |s| + 4 <= MAX_LINE - 2
    ensures Line(w, key + (" += " + s), dir, depth, env) == Outcome(AppendTo(key, s, env, w.fmt))
    ensures Line(w, key + (" = " + s), dir, depth, env) == Outcome(SetTo(key, s, env, w.fmt))
  {
    hide *;
    OpTokens(s);
    ParseKeyLine(key, " += " + s);
    ParseKeyLine(key, " = " + s);
    LineOfParse(w, key + (" += " + s), dir, depth, env);
    LineOfParse(w, key + (" = " + s), dir, depth, env);
    SameAfterBlank(key, s, env, w.fmt);
  }

  /**
    The two ways to append to a key, as whole lines: the variables and the result agree exactly if the
    key is defined.
  */
  lemma AppendLineIsConcatLine(w: World, key: string, rhs: string, dir: string, depth: nat, env: Env)
    requires IsKey(key) && key != "include" && key != "display" && depth <= MAX_DEPTH
    requires StartsValue(Token(rhs).tok) && rhs != "" && !IsSpace(rhs[|rhs| - 1])
    requires 2 * |key| + |rhs| + 7 <= MAX_LINE - 2
    ensures key in env <==>
            Line(w, key + (" += " + rhs), dir, depth, env)
            == Line(w, key + (" = " + (key + (" + " + rhs))), dir, depth, env)
  {
    var both := key + (" + " + rhs);
    assert both[|both| - 1] == rhs[|rhs| - 1];
    hide *;
    KeyLines(w, key, rhs, dir, depth, env);
    KeyLines(w, key, both, dir, depth, env);
    AppendIsConcat(key, rhs, env, w.fmt);
    SameErrors(key, rhs, env, w.fmt);
  }

  lemma SameErrors(key: string, s: string, env: Env, fmt: Format)
    requires IsKey(key) && StartsValue(Token(s).tok)
    ensures AppendTo(key, s, env, fmt).1 == SetTo(key, key + (" + " + s), env, fmt).1
  {
    ConcatReads(key, s, env, fmt);
    hide Rhs;
  }
}
