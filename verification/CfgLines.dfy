/**
  Whole lines and files: assignments of literals, comments, what an include reaches, and files that
  are moved to another directory together.
*/
module CfgLines {
  import opened CfgEval
  import opened CfgLex
  import opened CfgLiterals
  import opened CfgLoad
  import opened CfgText

  // ---------- Lines ----------

  /** A key that can be assigned and read back. */
  predicate IsSettable(key: string) {
    IsVariable(key) && key != "include" && key != "display"
  }

  lemma SettableIsKey(key: string)
    requires IsSettable(key)
    ensures IsKey(key)
  {
  }

  /** What ends a line after a literal: nothing, or a comment. */
  predicate Ending(tail: string) {
    tail == "" || (|tail| > 2 && tail[..2] == " #" && !IsSpace(tail[|tail| - 1]))
  }

  lemma EndingReads(tail: string)
    requires Ending(tail)
    ensures Stops(tail) && !Token(tail).tok.Plus? && !Token(tail).bad
  {
    if tail == "" {
      NothingLeft();
    } else {
      var c := tail[2..];
      assert tail == " " + ("#" + c) == [' '] + ("#" + c);
      BlanksSkipped(' ', "#" + c);
      SignsRead(c);
    }
    hide Token;
  }

  /** A literal does not end in a blank. */
  lemma LiteralEnds(v: Value, fmt: Format)
    requires Plain(v)
    ensures Write(v, fmt) != "" && !IsSpace(Write(v, fmt)[|Write(v, fmt)| - 1])
  {
    if v.VInt? {
      Printed(if v.i < 0 then 0 - v.i else v.i);
    }
  }

  /** KEY = literal: the key has this value and nothing else changes. */
  lemma LiteralLine(w: World, key: string, v: Value, tail: string, dir: string, depth: nat, env: Env)
    requires IsSettable(key) && Plain(v) && Ending(tail) && depth <= 16
    requires |key| + |Write(v, w.fmt)| + |tail| + 4 <= 1022
    ensures Line(w, key + (" = " + (Write(v, w.fmt) + tail)), dir, depth, env) == Res(env[key := v], 0)
  {
    hide *;
    var s := Write(v, w.fmt) + tail;
    SettableIsKey(key);
    NotReserved(key);
    EndingReads(tail);
    LiteralEnds(v, w.fmt);
    EndOf(Write(v, w.fmt), tail);
    DepthIs();
    KeyLines(w, key, s, dir, depth, env);
    RhsOfLiteral(v, tail, env, w.fmt);
    SetToIs(key, s, env, w.fmt);
  }

  /** KEY += literal: what the key printed as before, nothing if it was not defined, and what the literal does. */
  lemma AppendedLine(w: World, key: string, v: Value, tail: string, dir: string, depth: nat, env: Env)
    requires IsSettable(key) && Plain(v) && Ending(tail) && depth <= 16
    requires |key| + |Write(v, w.fmt)| + |tail| + 4 <= 1022
    ensures var was := if key in env then Show(env[key], w.fmt) else "";
            Line(w, key + (" += " + (Write(v, w.fmt) + tail)), dir, depth, env)
            == Res(env[key := VStr(was + PrintsAs(v, w.fmt))], 0)
  {
    hide *;
    var s := Write(v, w.fmt) + tail;
    SettableIsKey(key);
    NotReserved(key);
    EndingReads(tail);
    LiteralEnds(v, w.fmt);
    EndOf(Write(v, w.fmt), tail);
    DepthIs();
    KeyLines(w, key, s, dir, depth, env);
    RhsOfLiteral(v, tail, env, w.fmt);
    ShowsAs(v, w.fmt);
    AppendToIs(key, s, env, w.fmt);
  }

  lemma AppendToIs(key: string, s: string, env: Env, fmt: Format)
    ensures var was, r := if key in env then Show(env[key], fmt) else "", Rhs(s, env, fmt);
            Outcome(AppendTo(key, s, env, fmt))
            == Res(env[key := VStr(was + Show(r.val, fmt))], if r.bad then -1 else 0)
  {
    hide Rhs, Show;
  }

  lemma NotReserved(key: string)
    requires IsSettable(key)
    ensures key != "include" && key != "display"
  {
  }

  lemma DepthIs()
    ensures MAX_DEPTH == 16 && MAX_LINE == 1024 && MAX_TOK == 512
  {
  }

  lemma EndOf(s: string, tail: string)
    requires s != "" && !IsSpace(s[|s| - 1]) && Ending(tail)
    ensures s + tail != "" && !IsSpace((s + tail)[|s + tail| - 1])
  {
  }

  lemma SetToIs(key: string, s: string, env: Env, fmt: Format)
    ensures Outcome(SetTo(key, s, env, fmt))
         == Res(env[key := Rhs(s, env, fmt).val], if Rhs(s, env, fmt).bad then -1 else 0)
  {
    hide Rhs;
  }

  /** An empty line and a comment change nothing. */
  lemma CommentLine(w: World, c: string, dir: string, depth: nat, env: Env)
    requires |c| <= 1000 && depth <= 16 && (c == "" || !IsSpace(c[|c| - 1]))
    ensures Line(w, "#" + c, dir, depth, env) == Res(env, 0) && Line(w, "", dir, depth, env) == Res(env, 0)
  {
    TrimKeeps("#" + c);
    SignsRead(c);
    NothingLeft();
    assert Trim("") == "";
    hide Token, Rhs, Load, Trim;
  }

  /** A name alone is a mistake and changes nothing. */
  lemma LoneName(w: World, key: string, dir: string, depth: nat, env: Env)
    requires IsSettable(key) && depth <= 16
    ensures Line(w, key, dir, depth, env) == Res(env, -1)
  {
    assert key + "" == key && !IsSpace(key[0]) && !IsSpace(key[|key| - 1]);
    TrimKeeps(key);
    WordReads(key, "");
    NothingLeft();
    hide Token, Rhs, Load, Trim;
  }

  /** A key without a value becomes null. */
  lemma NoValue(w: World, key: string, dir: string, depth: nat, env: Env)
    requires IsSettable(key) && depth <= 16
    ensures Line(w, key + " =", dir, depth, env) == Res(env[key := VNull], 0)
  {
    SettableIsKey(key);
    SignsRead("");
    NothingLeft();
    BlanksSkipped(' ', "=");
    assert [' '] + "=" == " =" && "=" + "" == "=";
    ParseKeyLine(key, " =");
    hide Token, Parse, Load, Items, Terms;
  }

  /** Showing a literal changes nothing. */
  lemma DisplayLine(w: World, v: Value, dir: string, depth: nat, env: Env)
    requires Plain(v) && |Write(v, w.fmt)| <= 1000 && depth <= 16
    ensures Line(w, "display " + Write(v, w.fmt), dir, depth, env) == Res(env, 0)
  {
    hide *;
    LiteralEnds(v, w.fmt);
    DisplayReads(w, Write(v, w.fmt), dir, depth, env);
    NothingAdded(Write(v, w.fmt));
    EndingReads("");
    RhsOfLiteral(v, "", env, w.fmt);
  }

  lemma NothingAdded(s: string)
    ensures s + "" == s && Ending("") && !Token("").bad
  {
    NothingLeft();
    hide Token;
  }

  lemma DisplayParsed(s: string)
    requires s != "" && !IsSpace(s[|s| - 1]) && |s| <= 1000
    ensures Parse("display " + s) == Display(" " + s)
  {
    hide Token, Trim;
    var raw := "display " + s;
    assert raw == "display" + (" " + s);
    TrimKeeps(raw);
    WordReads("display", " " + s);
  }

  lemma DisplayReads(w: World, s: string, dir: string, depth: nat, env: Env)
    requires s != "" && !IsSpace(s[|s| - 1]) && |s| <= 1000 && depth <= 16
    ensures Line(w, "display " + s, dir, depth, env) == Res(env, if Rhs(s, env, w.fmt).bad then -1 else 0)
  {
    hide Parse, Rhs, Load;
    DisplayParsed(s);
    RhsAfterBlank(s, env, w.fmt);
  }

  lemma RhsAfterBlank(s: string, env: Env, fmt: Format)
    ensures Rhs(" " + s, env, fmt) == Rhs(s, env, fmt)
  {
    BlankToken(s);
    hide Token, Atom, Terms, Show, Concat;
  }

  /** A line that begins with a character of no token is passed over without a word, whatever it holds. */
  lemma StrayLine(w: World, c: char, s: string, dir: string, depth: nat, env: Env)
    requires BeginsNothing(c, At(s, 0)) && !IsSpace(c)
    requires |s| <= 1000 && (s == "" || !IsSpace(s[|s| - 1])) && depth <= 16
    ensures Line(w, [c] + s, dir, depth, env) == Res(env, 0)
  {
    TrimKeeps([c] + s);
    OtherCharacters(c, s);
    hide Trim, Rhs, Load, Token;
  }

  /** A line that begins with a sign, a quote or a number is a mistake and changes nothing. */
  lemma NoWordFirst(w: World, c: char, s: string, dir: string, depth: nat, env: Env)
    requires c == '=' || c == '+' || c == '[' || c == ']' || c == ',' || c == '"' || '0' <= c <= '9'
    requires |s| <= 1000 && (s == "" || !IsSpace(s[|s| - 1])) && depth <= 16
    ensures Line(w, [c] + s, dir, depth, env) == Res(env, -1)
  {
    var t := [c] + s;
    TrimKeeps(t);
    assert SkipWs(t) == t && t[0] == c;
    hide Trim, Rhs, Load, StrBody, NumLen, Dots, StrToLL;
  }

  lemma TrimBack(c: char, s: string)
    requires IsSpace(c)
    ensures Trim(s + [c]) == Trim(s)
  {
    assert (s + [c])[..|s|] == s;
  }

  lemma SameTrimmed(w: World, a: string, b: string, dir: string, depth: nat, env: Env)
    requires Trim(a) == Trim(b) && |a| <= 1022 && |b| <= 1022 && depth <= MAX_DEPTH
    ensures Line(w, a, dir, depth, env) == Line(w, b, dir, depth, env)
  {
    hide Trim, Token, Rhs, Load, Unquoted;
  }

  /** Blanks around a line do not count. */
  lemma BlanksAround(w: World, c: char, raw: string, dir: string, depth: nat, env: Env)
    requires (c == ' ' || '\t' <= c <= '\r') && |raw| <= 1021 && depth <= 16
    ensures Line(w, [c] + raw, dir, depth, env) == Line(w, raw, dir, depth, env)
    ensures Line(w, raw + [c], dir, depth, env) == Line(w, raw, dir, depth, env)
  {
    TrimFront(c, raw);
    TrimBack(c, raw);
    SameTrimmed(w, [c] + raw, raw, dir, depth, env);
    SameTrimmed(w, raw + [c], raw, dir, depth, env);
    hide Trim, Line;
  }

  lemma {:induction false} TrimFront(c: char, s: string)
    requires IsSpace(c)
    ensures Trim([c] + s) == Trim(s)
  {
    if s == "" {
      assert [c][..0] == "";
    } else if IsSpace(s[|s| - 1]) {
      assert ([c] + s)[..|s|] == [c] + s[..|s| - 1];
      TrimFront(c, s[..|s| - 1]);
    } else {
      assert ([c] + s)[1..] == s;
    }
  }

  /** A line of more than 1022 characters is a mistake, whatever it holds. */
  lemma LongLine(w: World, raw: string, dir: string, depth: nat, env: Env)
    requires |raw| > 1022 && depth <= 16
    ensures Line(w, raw, dir, depth, env) == Res(env, -1)
  {
    hide Parse, Rhs, Load;
  }

  /** Lines are read from the first to the last, each with the variables that those before it leave. */
  lemma {:induction false} LinesInOrder(w: World, a: seq<string>, b: seq<string>, dir: string, depth: nat, env: Env)
    requires depth <= MAX_DEPTH
    ensures var r := Lines(w, a, dir, depth, env);
            var q := Lines(w, b, dir, depth, r.env);
            Lines(w, a + b, dir, depth, env) == Res(q.env, if r.rc < 0 then -1 else q.rc)
  {
    hide Line;
    if b == [] {
      assert a + b == a;
    } else {
      LinesInOrder(w, a, b[..|b| - 1], dir, depth, env);
      assert (a + b)[..|a + b| - 1] == a + b[..|b| - 1];
    }
  }

  lemma LoadIs(w: World, path: string, depth: nat, env: Env)
    requires depth <= 17
    ensures Load(w, path, depth, env) == if depth == 17 || path !in w.files then Res(env, -1)
                                         else Lines(w, w.files[path], w.dirOf(path), depth, env)
  {
    hide Lines;
  }

  // ---------- What an include reaches ----------

  /** A name that is not changed by trimming, and is not in quotes. */
  predicate IsBareName(name: string) {
    name != "" && !IsSpace(name[0]) && !IsSpace(name[|name| - 1]) && name[0] != '"'
  }

  /** How an include directive is read. */
  lemma IncludeParsed(name: string)
    requires name != "" && !IsSpace(name[0]) && !IsSpace(name[|name| - 1]) && |name| <= 1014
    ensures Parse("include " + name) == var n := Unquoted(Trim(Cut(name, 511))); if n == "" then Wrong else Include(n)
  {
    var raw := "include " + name;
    assert raw == "include" + (" " + name) && raw[|raw| - 1] == name[|name| - 1];
    TrimKeeps(raw);
    WordReads("include", " " + name);
    BlankBefore(name);
    hide Token, Trim, Unquoted;
  }

  lemma BlankBefore(name: string)
    requires name != "" && !IsSpace(name[0])
    ensures SkipWs(" " + name) == name
  {
    assert (" " + name)[1..] == name && !IsBlank(name[0]);
  }

  lemma EmptyNames()
    ensures Unquoted(Trim(Cut("\"\"", 511))) == "" && Parse("include") == Wrong
  {
    assert "include" + "" == "include" && Trim("") == "";
    TrimKeeps("\"\"");
    TrimKeeps("include");
    WordReads("include", "");
    hide Token, Trim;
  }

  lemma WrongFails(w: World, raw: string, dir: string, depth: nat, env: Env)
    requires |raw| <= 1022 && depth <= MAX_DEPTH && Parse(raw) == Wrong
    ensures Line(w, raw, dir, depth, env) == Res(env, -1)
  {
    hide Parse, Load, Rhs;
  }

  /** An include without a name, or with an empty one in quotes, is a mistake and changes nothing. */
  lemma NoFileName(w: World, dir: string, depth: nat, env: Env)
    requires depth <= 16
    ensures Line(w, "include", dir, depth, env) == Line(w, "include \"\"", dir, depth, env) == Res(env, -1)
  {
    hide Parse, Line, Unquoted, Trim, Cut;
    EmptyNames();
    var q := "\"\"";
    assert "include " + q == "include \"\"" && !IsSpace(q[0]) && !IsSpace(q[1]);
    IncludeParsed(q);
    WrongFails(w, "include", dir, depth, env);
    WrongFails(w, "include \"\"", dir, depth, env);
  }

  /** Where a name leads from a directory, as long as the path is not too long. */
  function PathOf(dir: string, name: string): string
    requires name != ""
  {
    if name[0] == '/' then name else dir + ("/" + name)
  }

  lemma IncludeLoads(w: World, raw: string, name: string, dir: string, depth: nat, env: Env)
    requires depth <= MAX_DEPTH && |raw| <= 1022 && Parse(raw) == Include(name) && name != ""
    requires |PathOf(dir, name)| <= 1023
    ensures Line(w, raw, dir, depth, env) == Load(w, PathOf(dir, name), depth + 1, env)
  {
    assert dir + "/" + name == dir + ("/" + name);
    hide Parse, Load;
  }

  lemma BareNames(name: string)
    requires IsBareName(name) && |name| <= 511
    ensures Unquoted(Trim(Cut(name, 511))) == name
  {
    TrimKeeps(name);
    hide Trim;
  }

  lemma QuotedNames(name: string)
    requires name != "" && |name| <= 509
    ensures var q := "\"" + (name + "\""); Unquoted(Trim(Cut(q, 511))) == name
  {
    var q := "\"" + (name + "\"");
    TrimKeeps(q);
    assert q[1..|q| - 1] == name;
    hide Trim;
  }

  /** An include of an absolute name loads that very path, whatever the directory is. */
  lemma AbsoluteInclude(w: World, name: string, dir: string, depth: nat, env: Env)
    requires IsBareName(name) && name[0] == '/' && |name| <= 511 && depth <= 16
    ensures Line(w, "include " + name, dir, depth, env) == Load(w, name, depth + 1, env)
  {
    hide Parse, Unquoted, Trim, Cut, Load, Line;
    IncludeParsed(name);
    BareNames(name);
    IncludeLoads(w, "include " + name, name, dir, depth, env);
  }

  /** One of a relative name loads the file of this name in the directory of the including file. */
  lemma RelativeInclude(w: World, name: string, dir: string, depth: nat, env: Env)
    requires IsBareName(name) && name[0] != '/' && |name| <= 511 && |dir| + 1 + |name| <= 1023 && depth <= 16
    ensures Line(w, "include " + name, dir, depth, env) == Load(w, dir + ("/" + name), depth + 1, env)
  {
    hide Parse, Unquoted, Trim, Cut, Load, Line;
    IncludeParsed(name);
    BareNames(name);
    IncludeLoads(w, "include " + name, name, dir, depth, env);
  }

  /** Quotes around a name do not count, and it may then begin and end in blanks. */
  lemma QuotedInclude(w: World, name: string, dir: string, depth: nat, env: Env)
    requires name != "" && |name| <= 509 && |PathOf(dir, name)| <= 1023 && depth <= 16
    ensures Line(w, "include " + ("\"" + (name + "\"")), dir, depth, env)
         == Load(w, PathOf(dir, name), depth + 1, env)
  {
    var q := "\"" + (name + "\"");
    hide Parse, Unquoted, Trim, Cut, Load, Line, PathOf;
    assert q[0] == '"' && q[|q| - 1] == '"';
    IncludeParsed(q);
    QuotedNames(name);
    IncludeLoads(w, "include " + q, name, dir, depth, env);
  }

  /** A longer name is cut: what is loaded is another file. */
  lemma IncludeIsCut(w: World, name: string, dir: string, depth: nat, env: Env)
    requires IsBareName(name) && name[0] == '/' && 511 < |name| <= 1014 && !IsSpace(name[510]) && depth <= 16
    ensures Line(w, "include " + name, dir, depth, env) == Load(w, name[..511], depth + 1, env)
  {
    hide Parse, Unquoted, Trim, Load, Line;
    IncludeParsed(name);
    assert Cut(name, 511) == name[..511] == Cut(name[..511], 511);
    BareNames(name[..511]);
    IncludeLoads(w, "include " + name, name[..511], dir, depth, env);
  }

  // ---------- How deep files nest ----------

  /** The i-th file holds one line, which includes the next file by an absolute name. */
  predicate IncludesNext(w: World, path: seq<string>, i: nat)
    requires i + 1 < |path|
  {
    path[i] in w.files && IsBareName(path[i + 1]) && path[i + 1][0] == '/' && |path[i + 1]| <= 511 &&
    w.files[path[i]] == ["include " + path[i + 1]]
  }

  /** Files that include each other in a row. */
  ghost predicate Chain(w: World, path: seq<string>) {
    path != [] && forall i :: 0 <= i < |path| - 1 ==> IncludesNext(w, path, i)
  }

  lemma LoadOfOne(w: World, path: string, raw: string, depth: nat, env: Env)
    requires depth <= 16 && path in w.files && w.files[path] == [raw]
    ensures Load(w, path, depth, env) == Line(w, raw, w.dirOf(path), depth, env)
  {
    hide Line;
    var a := w.files[path];
    assert a[..0] == [] && Lines(w, [], w.dirOf(path), depth, env) == Res(env, 0);
    assert Lines(w, a[..0], w.dirOf(path), depth, env) == Res(env, 0);
  }

  lemma ChainAt(w: World, path: seq<string>, i: nat)
    requires Chain(w, path) && i < |path| - 1
    ensures path[i] in w.files && IsBareName(path[i + 1]) && path[i + 1][0] == '/' && |path[i + 1]| <= 511
    ensures w.files[path[i]] == ["include " + path[i + 1]]
  {
    assert IncludesNext(w, path, i);
  }

  lemma {:induction false} ChainLoads(w: World, path: seq<string>, i: nat, env: Env)
    requires Chain(w, path) && i < |path| && i <= 16
    ensures var n := |path| - 1;
            Load(w, path[i], i, env) == if n <= 16 then Load(w, path[n], n, env) else Res(env, -1)
    decreases |path| - i
  {
    hide *;
    if i < |path| - 1 {
      var name := path[i + 1];
      ChainAt(w, path, i);
      LoadOfOne(w, path[i], "include " + name, i, env);
      AbsoluteInclude(w, name, w.dirOf(path[i]), i, env);
      if i < 16 {
        ChainLoads(w, path, i + 1, env);
      } else {
        LoadIs(w, name, 17, env);
      }
    }
  }

  /** Of n + 1 files that include each other in a row the last is read exactly if it is there and n is at most 16. */
  lemma NestingDepth(w: World, path: seq<string>, env: Env)
    requires path != [] && Chain(w, path)
    ensures var n := |path| - 1;
            Load(w, path[0], 0, env)
            == if n <= 16 && path[n] in w.files then Lines(w, w.files[path[n]], w.dirOf(path[n]), n, env)
               else Res(env, -1)
  {
    hide *;
    var n := |path| - 1;
    ChainLoads(w, path, 0, env);
    if n <= 16 {
      LoadIs(w, path[n], n, env);
    }
  }

  // ---------- Files that are moved together ----------

  /** A path below a directory. */
  predicate Below(t: string) {
    t != "" && t[0] == '/'
  }

  /** The files below e are those below d: the same lines, and their directories moved with them. */
  ghost predicate Moved(w: World, d: string, v: World, e: string, sub: string -> string) {
    v.fmt == w.fmt && forall t :: Below(t) ==>
      (d + t in w.files <==> e + t in v.files) &&
      (d + t in w.files ==>
        w.files[d + t] == v.files[e + t] && w.dirOf(d + t) == d + sub(t) && v.dirOf(e + t) == e + sub(t) &&
        (sub(t) == "" || Below(sub(t))))
  }

  /** The line includes nothing, or a relative name whose path from the directory is not too long. */
  predicate StaysInside(raw: string, dir: string) {
    |raw| <= 1022 && Parse(raw).Include? ==>
      Parse(raw).name != "" && Parse(raw).name[0] != '/' && |dir| + 1 + |Parse(raw).name| <= 1023
  }

  /** All files below d include each other by relative names only. */
  ghost predicate Closed(w: World, d: string) {
    forall t, i :: Below(t) && d + t in w.files && 0 <= i < |w.files[d + t]| ==>
      StaysInside(w.files[d + t][i], w.dirOf(d + t))
  }

  lemma MovedAt(w: World, d: string, v: World, e: string, sub: string -> string, t: string)
    requires Moved(w, d, v, e, sub) && Below(t)
    ensures v.fmt == w.fmt && (d + t in w.files <==> e + t in v.files)
    ensures d + t in w.files ==>
              w.files[d + t] == v.files[e + t] && w.dirOf(d + t) == d + sub(t) && v.dirOf(e + t) == e + sub(t) &&
              (sub(t) == "" || Below(sub(t)))
  {
  }

  lemma IncludedBelow(s: string, name: string)
    requires (s == "" || Below(s)) && name != ""
    ensures Below(s + ("/" + name))
  {
  }

  lemma IncludesInside(w: World, d: string, t: string, i: nat, s: string, depth: nat, env: Env)
    requires Closed(w, d) && Below(t) && d + t in w.files && i < |w.files[d + t]| && w.dirOf(d + t) == d + s
    requires |w.files[d + t][i]| <= 1022 && Parse(w.files[d + t][i]).Include? && depth <= MAX_DEPTH
    ensures var name := Parse(w.files[d + t][i]).name;
            name != "" &&
            Line(w, w.files[d + t][i], d + s, depth, env) == Load(w, d + (s + ("/" + name)), depth + 1, env)
  {
    hide Parse, Line, Load;
    var raw := w.files[d + t][i];
    var name := Parse(raw).name;
    assert StaysInside(raw, w.dirOf(d + t));
    IncludeLoads(w, raw, name, d + s, depth, env);
    assert d + s + ("/" + name) == d + (s + ("/" + name));
  }

  /** A line that includes nothing does not depend on where its file is. */
  lemma SameElsewhere(w: World, v: World, raw: string, dir: string, dir2: string, depth: nat, env: Env)
    requires depth <= MAX_DEPTH && v.fmt == w.fmt && !(|raw| <= 1022 && Parse(raw).Include?)
    ensures Line(w, raw, dir, depth, env) == Line(v, raw, dir2, depth, env)
  {
    hide Parse, Rhs, Load;
  }

  lemma {:induction false} MovedLines(w: World, d: string, v: World, e: string, sub: string -> string, t: string,
                                      n: nat, depth: nat, env: Env)
    requires Moved(w, d, v, e, sub) && Closed(w, d) && Closed(v, e) && Below(t) && depth <= MAX_DEPTH
    requires d + t in w.files && e + t in v.files && n <= |w.files[d + t]| == |v.files[e + t]|
    ensures Lines(w, w.files[d + t][..n], w.dirOf(d + t), depth, env)
         == Lines(v, v.files[e + t][..n], v.dirOf(e + t), depth, env)
    decreases MAX_DEPTH + 1 - depth, 1, n
  {
    hide Moved, Closed, Line, StaysInside, Below;
    MovedAt(w, d, v, e, sub, t);
    if n > 0 {
      MovedLines(w, d, v, e, sub, t, n - 1, depth, env);
      var a := w.files[d + t];
      assert a[..n][..n - 1] == a[..n - 1];
      MovedLine(w, d, v, e, sub, t, n - 1, depth, Lines(w, a[..n - 1], w.dirOf(d + t), depth, env).env);
    }
  }

  lemma {:induction false} MovedLine(w: World, d: string, v: World, e: string, sub: string -> string, t: string,
                                     i: nat, depth: nat, env: Env)
    requires Moved(w, d, v, e, sub) && Closed(w, d) && Closed(v, e) && Below(t) && depth <= MAX_DEPTH
    requires d + t in w.files && e + t in v.files && i < |w.files[d + t]| && w.files[d + t] == v.files[e + t]
    ensures Line(w, w.files[d + t][i], w.dirOf(d + t), depth, env)
         == Line(v, v.files[e + t][i], v.dirOf(e + t), depth, env)
    decreases MAX_DEPTH + 1 - depth, 0
  {
    hide *;
    var raw, s := w.files[d + t][i], sub(t);
    MovedAt(w, d, v, e, sub, t);
    if |raw| <= 1022 && Parse(raw).Include? {
      var name := Parse(raw).name;
      IncludesInside(w, d, t, i, s, depth, env);
      IncludesInside(v, e, t, i, s, depth, env);
      IncludedBelow(s, name);
      Relocated(w, d, v, e, sub, s + ("/" + name), depth + 1, env);
    } else {
      SameElsewhere(w, v, raw, d + s, e + s, depth, env);
    }
  }

  /**
    Files that include each other by relative names only, moved to another directory, load to the same
    variables and the same result.
  */
  lemma {:induction false} Relocated(w: World, d: string, v: World, e: string, sub: string -> string, t: string,
                                     depth: nat, env: Env)
    requires Moved(w, d, v, e, sub) && Closed(w, d) && Closed(v, e) && Below(t) && depth <= MAX_DEPTH + 1
    ensures Load(w, d + t, depth, env) == Load(v, e + t, depth, env)
    decreases MAX_DEPTH + 1 - depth, 2
  {
    hide Moved, Closed, Line, Lines, Below;
    MovedAt(w, d, v, e, sub, t);
    if depth <= MAX_DEPTH && d + t in w.files {
      var n := |w.files[d + t]|;
      MovedLines(w, d, v, e, sub, t, n, depth, env);
      assert w.files[d + t][..n] == w.files[d + t] && v.files[e + t][..n] == v.files[e + t];
    }
  }
}
