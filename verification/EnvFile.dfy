/** cmd/hivy-appd/envfile.go: the app's environment file, printed and parsed. */
module EnvFile {
  import opened Prelude
  import opened Strings

  // ----- Names and values -----

  predicate NameStart(c: char) {
    'A' <= c <= 'Z' || 'a' <= c <= 'z' || c == '_'
  }

  /** `^[A-Za-z_][A-Za-z0-9_]*$` */
  predicate ValidName(name: string) {
    name != "" && NameStart(name[0]) &&
    forall i :: 0 <= i < |name| ==> NameStart(name[i]) || '0' <= name[i] <= '9'
  }

  predicate ValidValue(value: string) {
    '\n' !in value && '\r' !in value
  }

  predicate ValidVars(vars: map<string, string>) {
    forall name :: name in vars ==> ValidName(name) && ValidValue(vars[name])
  }

  // ----- Quoting -----

  /** `strings.ReplaceAll`: leftmost, non-overlapping replacements. */
  function ReplaceAll(s: string, from: string, to: string): string
    requires from != ""
  {
    if |s| < |from| then s
    else if s[..|from|] == from then to + ReplaceAll(s[|from|..], from, to)
    else [s[0]] + ReplaceAll(s[1..], from, to)
  }

  function Quote(value: string): string {
    ReplaceAll(ReplaceAll(value, "\\", "\\\\"), "\"", "\\\"")
  }

  function UnescapeInner(inner: string): string {
    ReplaceAll(ReplaceAll(inner, "\\\"", "\""), "\\\\", "\\")
  }

  /** `unquoteEnvValue`. */
  function Unquote(raw: string): string {
    if |raw| >= 2 && raw[0] == '"' && raw[|raw| - 1] == '"' then UnescapeInner(raw[1..|raw| - 1]) else raw
  }

  /** A match at the front is replaced, and the rest goes on behind it. */
  lemma ReplaceHit(from: string, to: string, rest: string)
    requires from != ""
    ensures ReplaceAll(from + rest, from, to) == to + ReplaceAll(rest, from, to)
  {
    assert (from + rest)[..|from|] == from && (from + rest)[|from|..] == rest;
  }

  /** Without a match at the front the first character stays. */
  lemma ReplaceMiss(c: char, rest: string, from: string, to: string, k: nat)
    requires k < |from| && (k <= |rest| ==> from[k] != ([c] + rest)[k])
    ensures ReplaceAll([c] + rest, from, to) == [c] + ReplaceAll(rest, from, to)
  {
    var s := [c] + rest;
    assert s[1..] == rest;
    if |s| >= |from| {
      assert s[..|from|][k] != from[k];
    }
  }

  function EscapedChar(c: char, quotes: bool): string {
    if c == '\\' then ['\\', '\\'] else if quotes && c == '"' then ['\\', '"'] else [c]
  }

  /** The two global replacements of the writer, as one pass over the characters. */
  function Escaped(value: string, quotes: bool): string {
    if value == "" then "" else EscapedChar(value[0], quotes) + Escaped(value[1..], quotes)
  }

  lemma {:induction false} EscapeBackslashes(value: string)
    ensures ReplaceAll(value, "\\", "\\\\") == Escaped(value, false)
  {
    if value != "" {
      EscapeBackslashes(value[1..]);
      assert value == [value[0]] + value[1..];
      if value[0] == '\\' {
        ReplaceHit("\\", "\\\\", value[1..]);
      } else {
        ReplaceMiss(value[0], value[1..], "\\", "\\\\", 0);
      }
    }
  }

  lemma {:induction false} EscapeQuotes(value: string)
    ensures ReplaceAll(Escaped(value, false), "\"", "\\\"") == Escaped(value, true)
  {
    if value != "" {
      var rest := Escaped(value[1..], false);
      EscapeQuotes(value[1..]);
      if value[0] == '"' {
        ReplaceHit("\"", "\\\"", rest);
      } else {
        ReplaceMiss(value[0], rest, "\"", "\\\"", 0);
        if value[0] == '\\' {
          TwoAtFront('\\', '\\', rest);
          TwoAtFront('\\', '\\', Escaped(value[1..], true));
          ReplaceMiss('\\', ['\\'] + rest, "\"", "\\\"", 0);
        }
      }
    }
  }

  lemma TwoAtFront(c: char, d: char, rest: string)
    ensures [c, d] + rest == [c] + ([d] + rest)
  {
  }

  lemma QuoteIsEscaped(value: string)
    ensures Quote(value) == Escaped(value, true)
  {
    EscapeBackslashes(value);
    EscapeQuotes(value);
  }

  /** No escaped text begins with a bare quote, so the first replacement only meets escapes. */
  lemma {:induction false} UnescapeQuotes(value: string)
    ensures ReplaceAll(Escaped(value, true), "\\\"", "\"") == Escaped(value, false)
  {
    if value != "" {
      var rest := Escaped(value[1..], true);
      UnescapeQuotes(value[1..]);
      if value[0] == '"' {
        ReplaceHit("\\\"", "\"", rest);
      } else if value[0] == '\\' {
        TwoAtFront('\\', '\\', rest);
        TwoAtFront('\\', '\\', Escaped(value[1..], false));
        assert rest != "" ==> rest[0] != '"';
        ReplaceMiss('\\', rest, "\\\"", "\"", 1);
        ReplaceMiss('\\', ['\\'] + rest, "\\\"", "\"", 1);
      } else {
        ReplaceMiss(value[0], rest, "\\\"", "\"", 0);
      }
    }
  }

  lemma {:induction false} UnescapeBackslashes(value: string)
    ensures ReplaceAll(Escaped(value, false), "\\\\", "\\") == value
  {
    if value != "" {
      var rest := Escaped(value[1..], false);
      UnescapeBackslashes(value[1..]);
      assert value == [value[0]] + value[1..];
      if value[0] == '\\' {
        ReplaceHit("\\\\", "\\", rest);
      } else {
        ReplaceMiss(value[0], rest, "\\\\", "\\", 0);
      }
    }
  }

  /** Undoing `\"` and then `\\` inverts the quoting, for every value. */
  lemma QuoteRoundTrip(value: string)
    ensures Unquote("\"" + Quote(value) + "\"") == value
  {
    QuoteIsEscaped(value);
    UnescapeQuotes(value);
    UnescapeBackslashes(value);
    var raw := "\"" + Quote(value) + "\"";
    assert raw[1..|raw| - 1] == Quote(value);
  }

  // ----- Lines -----

  /** `strings.Cut(line, "=")`: the index of the first `=`, or the length. */
  function EqualsAt(s: string): (k: nat)
    ensures k <= |s|
  {
    if s == "" || s[0] == '=' then 0 else 1 + EqualsAt(s[1..])
  }

  lemma {:induction false} EqualsAfterName(name: string, rest: string)
    requires '=' !in name
    ensures EqualsAt(name + "=" + rest) == |name|
  {
    var s := name + "=" + rest;
    if name != "" {
      EqualsAfterName(name[1..], rest);
      assert s[1..] == name[1..] + "=" + rest;
    }
  }

  function ParseLine(raw: string): Option<string> {
    var line := TrimSpace(raw);
    var k := EqualsAt(line);
    if line == "" || line[0] == '#' || k == |line| || !ValidName(line[..k]) then None
    else Some(line[..k] + "=" + Unquote(line[k + 1..]))
  }

  /** A line is taken exactly for its name before the first `=`, if that is a name; comments and
      blank lines have none. */
  lemma ParseLineExactly(raw: string, name: string, value: string)
    ensures '=' !in TrimSpace(raw) ==> ParseLine(raw) == None
    ensures TrimSpace(raw) == name + "=" + value && '=' !in name ==>
              ParseLine(raw) == if ValidName(name) then Some(name + "=" + Unquote(value)) else None
  {
    var line := TrimSpace(raw);
    if '=' !in line {
      NoEqualsIsEnd(line);
    } else if line == name + "=" + value && '=' !in name {
      EqualsAfterName(name, value);
      assert line[..|name|] == name && line[|name| + 1..] == value;
      assert line[0] == '#' ==> !ValidName(name);
    }
  }

  lemma {:induction false} NoEqualsIsEnd(s: string)
    requires '=' !in s
    ensures EqualsAt(s) == |s|
  {
    if s != "" { NoEqualsIsEnd(s[1..]); }
  }

  /** Letters, digits and underscores, and no digit first. */
  lemma ValidNameExactly(name: string)
    ensures ValidName(name) <==>
              name != "" && !('0' <= name[0] <= '9') &&
              forall c :: c in name ==> 'A' <= c <= 'Z' || 'a' <= c <= 'z' || '0' <= c <= '9' || c == '_'
  {
    if ValidName(name) {
      forall c | c in name ensures NameStart(c) || '0' <= c <= '9' {}
    } else if name != "" {
      assert name[0] in name;
      if NameStart(name[0]) {
        var i :| 0 <= i < |name| && !(NameStart(name[i]) || '0' <= name[i] <= '9');
        assert name[i] in name;
      }
    }
  }

  /** A value without quotes around it is taken as it is, backslashes and all. */
  lemma UnquotedStays(raw: string)
    requires |raw| < 2 || raw[0] != '"' || raw[|raw| - 1] != '"'
    ensures Unquote(raw) == raw
  {
  }

  /** The lines `f` accepts, in order, as what it makes of them. */
  function Accepted(lines: seq<string>, f: string -> Option<string>): seq<string> {
    if lines == [] then []
    else (if f(lines[0]).Some? then [f(lines[0]).value] else []) + Accepted(lines[1..], f)
  }

  function ParseText(text: string): seq<string> {
    Accepted(Split(text), ParseLine)
  }

  function RenderLine(name: string, value: string): string {
    name + "=\"" + Quote(value) + "\""
  }

  function Render(names: seq<string>, vars: map<string, string>): string
    requires forall n :: n in names ==> n in vars
  {
    if names == [] then "" else RenderLine(names[0], vars[names[0]]) + "\n" + Render(names[1..], vars)
  }

  /** What the app is meant to see: one `NAME=value` per variable. */
  function Bindings(names: seq<string>, vars: map<string, string>): seq<string>
    requires forall n :: n in names ==> n in vars
  {
    if names == [] then [] else [names[0] + "=" + vars[names[0]]] + Bindings(names[1..], vars)
  }

  lemma {:induction false} EscapedNoNewline(value: string, quotes: bool)
    requires '\n' !in value
    ensures '\n' !in Escaped(value, quotes)
  {
    if value != "" { EscapedNoNewline(value[1..], quotes); }
  }

  lemma ParseRenderedLine(name: string, value: string)
    requires ValidName(name)
    ensures ParseLine(RenderLine(name, value)) == Some(name + "=" + value)
  {
    var quoted := "\"" + Quote(value) + "\"";
    var line := RenderLine(name, value);
    assert line == name + "=" + quoted;
    assert !IsSpace(line[0]) && !IsSpace(line[|line| - 1]);
    assert TrimSpace(line) == line;
    assert '=' !in name;
    EqualsAfterName(name, quoted);
    assert line[..|name|] == name && line[|name| + 1..] == quoted;
    QuoteRoundTrip(value);
  }

  lemma {:induction false} ParseRendered(names: seq<string>, vars: map<string, string>)
    requires forall n :: n in names ==> n in vars
    requires ValidVars(vars)
    ensures ParseText(Render(names, vars)) == Bindings(names, vars)
  {
    if names == [] {
      assert Split("") == [""];
      assert Accepted([""], ParseLine) == [];
    } else {
      var name := names[0];
      var line := RenderLine(name, vars[name]);
      ParseRendered(names[1..], vars);
      QuoteIsEscaped(vars[name]);
      EscapedNoNewline(vars[name], true);
      assert '\n' !in name by {
        forall i | 0 <= i < |name| ensures name[i] != '\n' {}
      }
      SplitFirst(line, Render(names[1..], vars));
      ParseRenderedLine(name, vars[name]);
    }
  }

  /** The file the daemon writes for `vars`; what it depends on is the map alone. */
  ghost function FileFor(vars: map<string, string>): string {
    Render(SortedKeys(vars.Keys), vars)
  }

  /** Parsing the written file yields exactly NAME=value, in sorted name order. */
  lemma EnvRoundTrip(vars: map<string, string>)
    requires ValidVars(vars)
    ensures ParseText(FileFor(vars)) == Bindings(SortedKeys(vars.Keys), vars)
  {
    ParseRendered(SortedKeys(vars.Keys), vars);
  }

  lemma {:induction false} BindingsDetermineVars(names: seq<string>, vars: map<string, string>,
                                                 names': seq<string>, vars': map<string, string>)
    requires forall n :: n in names ==> n in vars && ValidName(n)
    requires forall n :: n in names' ==> n in vars' && ValidName(n)
    requires Bindings(names, vars) == Bindings(names', vars')
    ensures names == names' && forall n :: n in names ==> vars[n] == vars'[n]
  {
    if names != [] && names' != [] {
      var b := Bindings(names, vars);
      EqualsAfterName(names[0], vars[names[0]]);
      EqualsAfterName(names'[0], vars'[names'[0]]);
      assert b[0] == names[0] + "=" + vars[names[0]] && b[0] == names'[0] + "=" + vars'[names'[0]];
      assert names[0] == b[0][..EqualsAt(b[0])] && names'[0] == b[0][..EqualsAt(b[0])];
      assert vars[names[0]] == b[0][|names[0]| + 1..] && vars'[names'[0]] == b[0][|names'[0]| + 1..];
      assert Bindings(names[1..], vars) == b[1..] && Bindings(names'[1..], vars') == b[1..];
      BindingsDetermineVars(names[1..], vars, names'[1..], vars');
      assert names == [names[0]] + names[1..] && names' == [names'[0]] + names'[1..];
    }
  }

  /** No two environments share a file. */
  lemma EnvFileInjective(vars: map<string, string>, vars': map<string, string>)
    requires ValidVars(vars) && ValidVars(vars')
    requires FileFor(vars) == FileFor(vars')
    ensures vars == vars'
  {
    EnvRoundTrip(vars);
    EnvRoundTrip(vars');
    var names, names' := SortedKeys(vars.Keys), SortedKeys(vars'.Keys);
    forall n ensures (n in names ==> n in vars) && (n in names' ==> n in vars') {
      assert n in names <==> n in Elements(names);
      assert n in names' <==> n in Elements(names');
    }
    BindingsDetermineVars(names, vars, names', vars');
    assert vars.Keys == vars'.Keys;
    forall n | n in vars ensures vars[n] == vars'[n] {
      assert n in Elements(names);
    }
  }

  // ----- The environment of a child -----

  /** The list that `appendBaseEnv` puts the file's bindings after. */
  const BASE_ENV := ["PATH" + "=" + "/usr/local/sbin:/usr/local/bin:/usr/sbin:/usr/bin:/sbin:/bin", "HOME" + "=" + "/workspace"]

  function BindingName(binding: string): string {
    binding[..EqualsAt(binding)]
  }

  function BindingValue(binding: string): string {
    if EqualsAt(binding) < |binding| then binding[EqualsAt(binding) + 1..] else ""
  }

  /** What a process sees of its list of bindings: of two for one name the last counts. */
  function Environment(bindings: seq<string>): map<string, string> {
    if bindings == [] then map[] else Bind(Environment(bindings[..|bindings| - 1]), bindings[|bindings| - 1])
  }

  function Bind(env: map<string, string>, binding: string): map<string, string> {
    env[BindingName(binding) := BindingValue(binding)]
  }

  /** The environment of a child started with this env file; a missing one binds nothing. */
  function EnvOf(file: Option<string>): map<string, string> {
    Environment(BASE_ENV + if file.Some? then ParseText(file.value) else [])
  }

  /** The environment that variables are meant to give. */
  function EnvWith(vars: map<string, string>): map<string, string> {
    Environment(BASE_ENV) + vars
  }

  /** Without variables a child has a PATH and a HOME. */
  lemma BaseEnv()
    ensures EnvWith(map[]) ==
              map["PATH" := "/usr/local/sbin:/usr/local/bin:/usr/sbin:/usr/bin:/sbin:/bin", "HOME" := "/workspace"]
  {
    var path, home := "/usr/local/sbin:/usr/local/bin:/usr/sbin:/usr/bin:/sbin:/bin", "/workspace";
    TwoBindings("PATH", path, "HOME", home);
  }

  lemma TwoBindings(name: string, value: string, name': string, value': string)
    requires ValidName(name) && ValidName(name')
    ensures Environment([name + "=" + value, name' + "=" + value']) == map[name := value][name' := value']
  {
    EnvironmentAppend([name + "=" + value], [name' + "=" + value']);
    OneBinding(name, value);
    OneBinding(name', value');
  }

  lemma {:induction false} EnvironmentAppend(a: seq<string>, b: seq<string>)
    ensures Environment(a + b) == Environment(a) + Environment(b)
  {
    if b == [] {
      assert a + b == a;
    } else {
      var front, last := b[..|b| - 1], b[|b| - 1];
      EnvironmentAppend(a, front);
      assert (a + b)[..|a + b| - 1] == a + front && (a + b)[|a + b| - 1] == last;
      BindOver(Environment(a), Environment(front), last);
    }
  }

  lemma BindOver(a: map<string, string>, b: map<string, string>, binding: string)
    ensures Bind(a + b, binding) == a + Bind(b, binding)
  {
  }

  lemma OneBinding(name: string, value: string)
    requires ValidName(name)
    ensures Environment([name + "=" + value]) == map[name := value]
  {
    var b := name + "=" + value;
    assert '=' !in name;
    EqualsAfterName(name, value);
    assert b[..|name|] == name && b[|name| + 1..] == value;
    var bs: seq<string> := [b];
    assert bs[..|bs| - 1] == [];
  }

  lemma FirstBinding(names: seq<string>, vars: map<string, string>)
    requires names != [] && forall n :: n in names ==> n in vars && ValidName(n)
    ensures Environment(Bindings(names, vars)) == map[names[0] := vars[names[0]]] + Environment(Bindings(names[1..], vars))
  {
    var b := names[0] + "=" + vars[names[0]];
    OneBinding(names[0], vars[names[0]]);
    EnvironmentAppend([b], Bindings(names[1..], vars));
  }

  /** Bindings for distinct names bring back their variables. */
  lemma {:induction false} EnvironmentOfBindings(names: seq<string>, vars: map<string, string>)
    requires NoDuplicates(names) && forall n :: n in names ==> n in vars && ValidName(n)
    ensures Restricts(Environment(Bindings(names, vars)), vars, Elements(names))
  {
    if names != [] {
      EnvironmentOfBindings(names[1..], vars);
      FirstBinding(names, vars);
      assert names == [names[0]] + names[1..] && names[0] !in names[1..];
      ElementsAppend([names[0]], names[1..]);
      OneMoreName(Environment(Bindings(names[1..], vars)), vars, names[0], Elements(names[1..]));
    }
  }

  ghost predicate Restricts(env: map<string, string>, vars: map<string, string>, names: set<string>) {
    env.Keys == names && forall n :: n in names ==> n in vars && env[n] == vars[n]
  }

  lemma OneMoreName(env: map<string, string>, vars: map<string, string>, name: string, names: set<string>)
    requires Restricts(env, vars, names) && name in vars && name !in names
    ensures Restricts(map[name := vars[name]] + env, vars, {name} + names)
  {
  }

  /** A child started with the file written for `vars` has exactly these, over the base. */
  lemma WrittenEnv(vars: map<string, string>)
    requires ValidVars(vars)
    ensures EnvOf(Some(FileFor(vars))) == EnvWith(vars)
  {
    EnvRoundTrip(vars);
    EnvironmentOfVars(vars);
    EnvironmentAppend(BASE_ENV, Bindings(SortedKeys(vars.Keys), vars));
  }

  lemma EnvironmentOfVars(vars: map<string, string>)
    requires ValidVars(vars)
    ensures (forall n :: n in SortedKeys(vars.Keys) ==> n in vars)
            && Environment(Bindings(SortedKeys(vars.Keys), vars)) == vars
  {
    var names := SortedKeys(vars.Keys);
    StrictlySortedNoDuplicates(names);
    forall n ensures n in names <==> n in vars {
      assert n in names <==> n in Elements(names);
    }
    EnvironmentOfBindings(names, vars);
    assert Environment(Bindings(names, vars)).Keys == vars.Keys;
  }

  // ----- The file -----

  datatype WriteError = InvalidName(name: string) | NewlineInValue(name: string) | DiskError

  class File {
    var content: Option<string>

    constructor ()
      ensures content == None
    {
      content := None;
    }

    /** The first loop of `writeEnvFile`, over the map in any order. */
    static method CheckedNames(vars: map<string, string>) returns (names: seq<string>, err: Option<WriteError>)
      ensures err == None <==> ValidVars(vars)
      ensures err == None ==> NoDuplicates(names) && Elements(names) == vars.Keys
      ensures err != Some(DiskError)
      ensures err.Some? && err.value.InvalidName? ==> err.value.name in vars && !ValidName(err.value.name)
      ensures err.Some? && err.value.NewlineInValue? ==>
                err.value.name in vars && ValidName(err.value.name) && !ValidValue(vars[err.value.name])
    {
      names := [];
      var left := vars.Keys;
      while left != {}
        invariant left <= vars.Keys && Elements(names) == vars.Keys - left && NoDuplicates(names)
        invariant forall n :: n in vars.Keys - left ==> ValidName(n) && ValidValue(vars[n])
      {
        var name :| name in left;
        if !ValidName(name) {
          return names, Some(InvalidName(name));
        }
        if '\n' in vars[name] || '\r' in vars[name] {
          return names, Some(NewlineInValue(name));
        }
        assert name !in names by { assert name !in Elements(names); }
        ElementsAppend(names, [name]);
        names, left := names + [name], left - {name};
      }
      assert vars.Keys - left == vars.Keys;
      return names, None;
    }

    /** The second loop of `writeEnvFile`. */
    static method RenderAll(names: seq<string>, vars: map<string, string>) returns (text: string)
      requires Elements(names) == vars.Keys
      ensures (forall n :: n in names ==> n in vars) && text == Render(names, vars)
    {
      forall n | n in names ensures n in vars { assert n in Elements(names); }
      text := "";
      for i := 0 to |names|
        invariant text + Render(names[i..], vars) == Render(names, vars)
      {
        var line := RenderLine(names[i], vars[names[i]]) + "\n";
        assert names[i..][1..] == names[i + 1..];
        assert (text + line) + Render(names[i + 1..], vars) == text + (line + Render(names[i + 1..], vars));
        text := text + line;
      }
    }

    /** `writeEnvFile`: every error leaves the file as it was. `works` says whether the system calls
        for the temporary file and its rename all succeed. */
    method Write(vars: map<string, string>, works: bool) returns (err: Option<WriteError>)
      modifies this
      ensures err == None <==> ValidVars(vars) && works
      ensures err == Some(DiskError) <==> ValidVars(vars) && !works
      ensures content == if err == None then Some(FileFor(vars)) else old(content)
      ensures err.Some? && err.value.InvalidName? ==> err.value.name in vars && !ValidName(err.value.name)
      ensures err.Some? && err.value.NewlineInValue? ==>
                err.value.name in vars && ValidName(err.value.name) && !ValidValue(vars[err.value.name])
    {
      var names;
      names, err := CheckedNames(vars);
      if err.Some? {
        return;
      }
      SortIsSortedKeys(names);
      var text := RenderAll(Sort(names), vars);
      if !works {
        return Some(DiskError);
      }
      content := Some(text);
      return None;
    }

    static method Gather(lines: seq<string>, f: string -> Option<string>) returns (vars: seq<string>)
      ensures vars == Accepted(lines, f)
    {
      vars := [];
      for i := 0 to |lines|
        invariant vars + Accepted(lines[i..], f) == Accepted(lines, f)
      {
        assert lines[i..][1..] == lines[i + 1..];
        var v := f(lines[i]);
        if v.Some? {
          vars := vars + [v.value];
        }
      }
    }

    /** `parseEnvFile`: a missing file is an empty environment, one that is not `readable` an error. */
    method Parse(readable: bool) returns (vars: Option<seq<string>>)
      ensures vars == match content
                      case None => Some([])
                      case Some(text) => if readable then Some(ParseText(text)) else None
    {
      if content == None {
        return Some([]);
      }
      if !readable {
        return None;
      }
      var found := Gather(Split(content.value), ParseLine);
      return Some(found);
    }
  }
}
