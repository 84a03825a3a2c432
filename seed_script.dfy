/** The parsing helpers of the transaction seeding script
    (scripts/seed-transactions.mjs): the command-line parser, the dotenv-style
    environment file loader, `requireEnv`, the amount-list parser and the
    unwrapping of callable responses. */
module SeedScript {
  import opened Common

  // ===========================================================================
  // parseArgs

  /** A parsed option: `true`, or the token that followed it. */
  datatype ArgValue = Flag | Text(text: string)

  predicate IsOption(token: string) {
    StartsWith(token, "--")
  }

  /** Options that never take a value. */
  predicate IsSwitch(key: string) {
    key == "useEmulator" || key == "register" || key == "dryRun"
  }

  /** The value recorded for the option token at position `j`: `true` for a switch, or
      when the token is last or followed by another option; else the next token. */
  function ValueAt(argv: seq<string>, j: nat): ArgValue
    requires j < |argv| && IsOption(argv[j])
  {
    if IsSwitch(argv[j][2..]) || j + 1 == |argv| || IsOption(argv[j + 1]) then Flag
    else Text(argv[j + 1])
  }

  /** The options gathered from position `i` on, on top of those in `acc`. */
  function ParseFrom(argv: seq<string>, i: nat, acc: map<string, ArgValue>): map<string, ArgValue>
    requires i <= |argv|
    decreases |argv| - i
  {
    if i == |argv| then acc
    else if !IsOption(argv[i]) then ParseFrom(argv, i + 1, acc)
    else
      var v := ValueAt(argv, i);
      ParseFrom(argv, if v.Text? then i + 2 else i + 1, acc[argv[i][2..] := v])
  }

  /** `parseArgs(argv)`: exactly the keys of the option tokens are recorded. */
  function ParsedArgs(argv: seq<string>): (args: map<string, ArgValue>)
    ensures forall k :: k in args <==> KeyOccursFrom(argv, 0, k)
  {
    ParsedArgsKeys(argv);
    ParseFrom(argv, 0, map[])
  }

  lemma ParsedArgsKeys(argv: seq<string>)
    ensures forall k :: k in ParseFrom(argv, 0, map[]) <==> KeyOccursFrom(argv, 0, k)
  {
    forall k
      ensures k in ParseFrom(argv, 0, map[]) <==> KeyOccursFrom(argv, 0, k)
    {
      ParseFromKeys(argv, 0, map[], k);
    }
  }

  /** `k` is the key of some option token at position `i` or later. */
  predicate KeyOccursFrom(argv: seq<string>, i: nat, k: string) {
    exists j :: i <= j < |argv| && IsOption(argv[j]) && argv[j][2..] == k
  }

  /** Position `j` holds the last option token whose key is `k`. */
  predicate IsLastOccurrence(argv: seq<string>, j: int, k: string) {
    && 0 <= j < |argv| && IsOption(argv[j]) && argv[j][2..] == k
    && forall j' :: j < j' < |argv| && IsOption(argv[j']) ==> argv[j'][2..] != k
  }

  /** `parseArgs`: the index loop that skips consumed value tokens. */
  method ParseArgs(argv: seq<string>) returns (args: map<string, ArgValue>)
    ensures args == ParsedArgs(argv)
    ensures forall k :: k in args <==> KeyOccursFrom(argv, 0, k)
  {
    args := map[];
    var i := 0;
    while i < |argv|
      invariant i <= |argv|
      invariant ParseFrom(argv, i, args) == ParsedArgs(argv)
    {
      var current := argv[i];
      if !StartsWith(current, "--") {
        i := i + 1;
        continue;
      }
      var key := current[2..];
      if key == "useEmulator" || key == "register" || key == "dryRun" {
        args := args[key := Flag];
        i := i + 1;
        continue;
      }
      if i + 1 == |argv| || StartsWith(argv[i + 1], "--") {
        args := args[key := Flag];
        i := i + 1;
        continue;
      }
      args := args[key := Text(argv[i + 1])];
      i := i + 2;
    }
  }

  /** The keys gathered are those already present plus the keys of the option tokens
      from `i` on: every option is recorded, and non-option tokens never are. */
  lemma {:induction false} ParseFromKeys(argv: seq<string>, i: nat, acc: map<string, ArgValue>, k: string)
    requires i <= |argv|
    ensures k in ParseFrom(argv, i, acc) <==> k in acc || KeyOccursFrom(argv, i, k)
    decreases |argv| - i
  {
    if i < |argv| {
      if !IsOption(argv[i]) {
        ParseFromKeys(argv, i + 1, acc, k);
        if KeyOccursFrom(argv, i, k) {
          var j :| i <= j < |argv| && IsOption(argv[j]) && argv[j][2..] == k;
          assert j != i;
        }
      } else {
        var v := ValueAt(argv, i);
        var next := if v.Text? then i + 2 else i + 1;
        ParseFromKeys(argv, next, acc[argv[i][2..] := v], k);
        if KeyOccursFrom(argv, i, k) && argv[i][2..] != k {
          var j :| i <= j < |argv| && IsOption(argv[j]) && argv[j][2..] == k;
          assert j != i && (j != i + 1 || !v.Text?);
          assert next <= j;
        }
      }
    }
  }

  /** A key whose options all lie before `i` keeps the value it has in `acc`. */
  lemma {:induction false} ParseFromUntouched(argv: seq<string>, i: nat, acc: map<string, ArgValue>, k: string)
    requires i <= |argv| && k in acc && !KeyOccursFrom(argv, i, k)
    ensures k in ParseFrom(argv, i, acc) && ParseFrom(argv, i, acc)[k] == acc[k]
    decreases |argv| - i
  {
    if i < |argv| {
      if !IsOption(argv[i]) {
        ParseFromUntouched(argv, i + 1, acc, k);
      } else {
        var v := ValueAt(argv, i);
        var next := if v.Text? then i + 2 else i + 1;
        assert argv[i][2..] != k;
        ParseFromUntouched(argv, next, acc[argv[i][2..] := v], k);
      }
    }
  }

  /** From any position up to the last option for `k`, the parse ends with the value that
      last option records. */
  lemma {:induction false} ParseFromLast(argv: seq<string>, i: nat, acc: map<string, ArgValue>, j: nat, k: string)
    requires i <= j && IsLastOccurrence(argv, j, k)
    ensures k in ParseFrom(argv, i, acc) && ParseFrom(argv, i, acc)[k] == ValueAt(argv, j)
    decreases |argv| - i
  {
    if !IsOption(argv[i]) {
      ParseFromLast(argv, i + 1, acc, j, k);
    } else {
      var v := ValueAt(argv, i);
      var next := if v.Text? then i + 2 else i + 1;
      var acc' := acc[argv[i][2..] := v];
      if i == j {
        ParseFromUntouched(argv, next, acc', k);
      } else {
        assert v.Text? ==> !IsOption(argv[i + 1]) && i + 1 != j;
        ParseFromLast(argv, next, acc', j, k);
      }
    }
  }

  /** What `parseArgs` returns, completely: a key is present exactly when some `--key`
      token occurs, and its value is the one recorded by its last occurrence (a later
      occurrence overwrites an earlier one). */
  lemma ParsedArgsCharacterized(argv: seq<string>, k: string, j: nat)
    ensures k in ParsedArgs(argv) <==> KeyOccursFrom(argv, 0, k)
    ensures IsLastOccurrence(argv, j, k) ==> k in ParsedArgs(argv) && ParsedArgs(argv)[k] == ValueAt(argv, j)
  {
    ParseFromKeys(argv, 0, map[], k);
    if IsLastOccurrence(argv, j, k) {
      ParseFromLast(argv, 0, map[], j, k);
    }
  }

  /** The switches `useEmulator`, `register` and `dryRun` are always `true`, whatever
      follows them. */
  lemma SwitchesAreFlags(argv: seq<string>, k: string)
    requires IsSwitch(k) && k in ParsedArgs(argv)
    ensures ParsedArgs(argv)[k] == Flag
  {
    var j := LastOccurrence(argv, k);
    ParsedArgsCharacterized(argv, k, j);
  }

  /** The position of the last `--k` token, when there is one. */
  lemma LastOccurrence(argv: seq<string>, k: string) returns (j: nat)
    requires k in ParsedArgs(argv)
    ensures IsLastOccurrence(argv, j, k)
  {
    ParseFromKeys(argv, 0, map[], k);
    var j0 :| 0 <= j0 < |argv| && IsOption(argv[j0]) && argv[j0][2..] == k;
    j := j0;
    while j + 1 < |argv| && KeyOccursFrom(argv, j + 1, k)
      invariant j < |argv| && IsOption(argv[j]) && argv[j][2..] == k
      decreases |argv| - j
    {
      var j' :| j + 1 <= j' < |argv| && IsOption(argv[j']) && argv[j'][2..] == k;
      j := j';
    }
  }

  // ===========================================================================
  // loadEnvFile

  /** A line with one carriage return removed from its end, if it has one there. */
  function StripCR(line: string): (r: string)
    ensures '\n' !in line ==> '\n' !in r
  {
    if line != [] && line[|line| - 1] == '\r' then line[..|line| - 1] else line
  }

  /** The text with every carriage return that stands just before a line feed removed. */
  function DropCRBeforeLF(s: string): string {
    if s == [] then []
    else if |s| >= 2 && s[0] == '\r' && s[1] == '\n' then DropCRBeforeLF(s[1..])
    else [s[0]] + DropCRBeforeLF(s[1..])
  }

  /** Lines joined back with line feeds between them. */
  function JoinLines(lines: seq<string>): string
    requires |lines| >= 1
  {
    if |lines| == 1 then lines[0] else lines[0] + "\n" + JoinLines(lines[1..])
  }

  /** A piece without line feeds is left alone. */
  lemma {:induction false} DropCRPlain(t: string)
    requires '\n' !in t
    ensures DropCRBeforeLF(t) == t
  {
    if t != [] {
      assert '\n' !in t[1..];
      DropCRPlain(t[1..]);
    }
  }

  /** A line feed ends a piece: the piece loses a carriage return just before it, and the
      rest is read on its own. */
  lemma {:induction false} DropCRAtLF(t: string, rest: string)
    requires '\n' !in t
    ensures DropCRBeforeLF(t + "\n" + rest) == StripCR(t) + "\n" + DropCRBeforeLF(rest)
  {
    var s := t + "\n" + rest;
    if t == [] {
      assert s == "\n" + rest && s[1..] == rest;
    } else if t == "\r" {
      assert s[1..] == "\n" + rest;
      assert ("\n" + rest)[1..] == rest;
    } else {
      assert s[0] == t[0] && s[1..] == t[1..] + "\n" + rest;
      assert !(|s| >= 2 && s[0] == '\r' && s[1] == '\n');
      assert '\n' !in t[1..];
      DropCRAtLF(t[1..], rest);
      assert StripCR(t) == [t[0]] + StripCR(t[1..]);
    }
  }

  /** Splitting at line feeds, each optionally preceded by a carriage return: no line
      holds a line feed. */
  function SplitLines(s: string): (lines: seq<string>)
    ensures |lines| >= 1
    ensures '\n' !in s ==> lines == [s]
    ensures forall i :: 0 <= i < |lines| ==> '\n' !in lines[i]
    decreases |s|
  {
    if '\n' !in s then [s]
    else
      var k := FirstIndex(s, '\n');
      [StripCR(s[..k])] + SplitLines(s[k + 1..])
  }

  /** Joining the lines with line feeds gives the text back, without the carriage
      returns that preceded line feeds. */
  lemma {:induction false} SplitLinesJoin(s: string)
    ensures JoinLines(SplitLines(s)) == DropCRBeforeLF(s)
    decreases |s|
  {
    if '\n' !in s {
      DropCRPlain(s);
    } else {
      var k := FirstIndex(s, '\n');
      var line, rest := s[..k], s[k + 1..];
      assert s == line + "\n" + rest;
      var tail := SplitLines(rest);
      assert SplitLines(s) == [StripCR(line)] + tail;
      assert JoinLines([StripCR(line)] + tail) == StripCR(line) + "\n" + JoinLines(tail) by {
        assert ([StripCR(line)] + tail)[1..] == tail;
      }
      SplitLinesJoin(rest);
      DropCRAtLF(line, rest);
    }
  }

  /** Removal of one double quote at the start, if there is one, and then of one double
      quote at the end of what remains, if there is one. */
  function Unquote(s: string): (r: string)
    ensures (s == [] || s[0] != '"') && (s == [] || s[|s| - 1] != '"') ==> r == s
    ensures |s| >= 2 && s[0] == '"' && s[|s| - 1] == '"' ==> r == s[1..|s| - 1]
    ensures |s| >= 2 && s[0] == '"' && s[|s| - 1] != '"' ==> r == s[1..]
    ensures s != [] && s[0] != '"' && s[|s| - 1] == '"' ==> r == s[..|s| - 1]
    ensures s == "\"" ==> r == []
  {
    var s1 := if s != [] && s[0] == '"' then s[1..] else s;
    if s1 != [] && s1[|s1| - 1] == '"' then s1[..|s1| - 1] else s1
  }

  datatype Entry = Entry(key: string, value: string)

  /** The per-line rules: blank and `#` lines and lines with nothing before the first `=`
      are skipped; the key is what precedes the first `=`, the value everything after
      it (later `=` kept), trimmed and unquoted. */
  function ParseLine(line: string): (r: Option<Entry>)
    ensures r.Some? <==> var t := Trim(line); t != [] && t[0] != '#' && t[0] != '='
    ensures r.Some? ==> r.value.key != "" && '=' !in r.value.key
  {
    var trimmed := Trim(line);
    if trimmed == "" || trimmed[0] == '#' then None
    else
      var rawKey := if '=' in trimmed then trimmed[..FirstIndex(trimmed, '=')] else trimmed;
      var rawValue := if '=' in trimmed then trimmed[FirstIndex(trimmed, '=') + 1..] else "";
      if rawKey == "" then None
      else
        TrimKeepsFirst(rawKey);
        assert '=' !in rawKey;
        Some(Entry(Trim(rawKey), Unquote(Trim(rawValue))))
  }

  /** Trimming a string that starts with a non-space character keeps that character,
      and adds nothing. */
  lemma TrimKeepsFirst(s: string)
    requires s != [] && !IsWhitespace(s[0])
    ensures Trim(s) != [] && Trim(s) == s[..|Trim(s)|]
  {
    assert TrimStart(s) == s;
  }

  /** The property names `process.env` inherits from `Object.prototype`. The `in`
      operator finds them although no such variable is set. */
  const InheritedNames: set<string> := {
    "constructor", "hasOwnProperty", "isPrototypeOf", "propertyIsEnumerable",
    "toLocaleString", "toString", "valueOf", "__proto__",
    "__defineGetter__", "__defineSetter__", "__lookupGetter__", "__lookupSetter__"
  }

  /** `key in process.env`: a variable that is set, or an inherited name. */
  predicate InEnv(env: map<string, string>, key: string) {
    key in env || key in InheritedNames
  }

  /** One line applied to the environment: a key already present is never overwritten,
      and neither is a name the environment inherits. */
  function ApplyLine(env: map<string, string>, line: string): map<string, string> {
    match ParseLine(line)
    case None => env
    case Some(e) => if InEnv(env, e.key) then env else env[e.key := e.value]
  }

  /** The loop body of `loadEnvFile` on one line is `ApplyLine`. */
  lemma ApplyLineStep(env: map<string, string>, line: string, entry: Option<Entry>, env': map<string, string>)
    requires entry == ParseLine(line)
    requires env' == if entry.Some? && !InEnv(env, entry.value.key) then env[entry.value.key := entry.value.value] else env
    ensures env' == ApplyLine(env, line)
  {
  }

  /** The lines applied in order. Variables already in the environment are never
      overwritten. */
  function ApplyLines(env: map<string, string>, lines: seq<string>): (env': map<string, string>)
    ensures forall k :: k in env ==> k in env' && env'[k] == env[k]
    decreases |lines|
  {
    if lines == [] then env else ApplyLines(ApplyLine(env, lines[0]), lines[1..])
  }

  /** Applying the lines from `i` on is applying line `i`, then the rest. */
  lemma ApplyLinesUnfold(env: map<string, string>, lines: seq<string>, i: nat)
    requires i < |lines|
    ensures ApplyLines(env, lines[i..]) == ApplyLines(ApplyLine(env, lines[i]), lines[i + 1..])
  {
    assert lines[i..][0] == lines[i] && lines[i..][1..] == lines[i + 1..];
  }

  /** `loadEnvFile`: `content` is the file's text, or None when no path was given or the
      file does not exist, in which case the environment is left as it is. */
  method LoadEnvFile(content: Option<string>, env: map<string, string>) returns (env': map<string, string>)
    ensures env' == if content.None? then env else ApplyLines(env, SplitLines(content.value))
    ensures forall k :: k in env ==> k in env' && env'[k] == env[k]
  {
    env' := env;
    if content.None? {
      return;
    }
    var lines := SplitLines(content.value);
    DropNone(lines);
    for i := 0 to |lines|
      invariant ApplyLines(env', lines[i..]) == ApplyLines(env, lines)
    {
      ghost var before := env';
      var entry := ParseLine(lines[i]);
      if entry.Some? && !InEnv(env', entry.value.key) {
        env' := env'[entry.value.key := entry.value.value];
      }
      ApplyLineStep(before, lines[i], entry, env');
      ApplyLinesUnfold(before, lines, i);
    }
    DropAll(lines);
  }

  /** The value of the first line that defines `k`. */
  function FirstValue(lines: seq<string>, k: string): Option<string>
    decreases |lines|
  {
    if lines == [] then None
    else
      var e := ParseLine(lines[0]);
      if e.Some? && e.value.key == k then Some(e.value.value) else FirstValue(lines[1..], k)
  }

  /** A variable absent from the environment, and not an inherited name, is added
      exactly when some line defines it, and it takes the value of the first such line. */
  lemma {:induction false} ApplyLinesAddsFirst(env: map<string, string>, lines: seq<string>, k: string)
    requires !InEnv(env, k)
    ensures k in ApplyLines(env, lines) <==> FirstValue(lines, k).Some?
    ensures k in ApplyLines(env, lines) ==> ApplyLines(env, lines)[k] == FirstValue(lines, k).value
    decreases |lines|
  {
    if lines != [] {
      var env1 := ApplyLine(env, lines[0]);
      var e := ParseLine(lines[0]);
      if e.Some? && e.value.key == k {
        assert ApplyLines(env1, lines[1..])[k] == env1[k];
      } else {
        ApplyLinesAddsFirst(env1, lines[1..], k);
      }
    }
  }

  /** An inherited name is never written, whatever the lines define. */
  lemma {:induction false} InheritedNamesNeverWritten(env: map<string, string>, lines: seq<string>, k: string)
    requires k in InheritedNames && k !in env
    ensures k !in ApplyLines(env, lines)
    decreases |lines|
  {
    if lines != [] {
      var env1 := ApplyLine(env, lines[0]);
      assert k !in env1;
      InheritedNamesNeverWritten(env1, lines[1..], k);
    }
  }

  /** A file whose one line is `constructor=x` leaves `requireEnv('constructor')`
      failing: the line is skipped. */
  lemma InheritedLineNotLoaded(env: map<string, string>)
    requires "constructor" !in env
    ensures RequireEnv(ApplyLines(env, SplitLines("constructor=x")), "constructor").Failure?
  {
    InheritedNamesNeverWritten(env, SplitLines("constructor=x"), "constructor");
  }

  /** A well-formed key: non-empty, not a comment, with no `=` and no white space. */
  predicate PlainKey(k: string) {
    k != [] && k[0] != '#' && forall i :: 0 <= i < |k| ==> k[i] != '=' && !IsWhitespace(k[i])
  }

  /** How a trimmed, uncommented line with an `=` after a non-empty key is read. */
  lemma ParseLineSplit(line: string, p: nat)
    requires Trim(line) == line && line != [] && line[0] != '#'
    requires 0 < p < |line| && line[p] == '=' && '=' !in line[..p]
    ensures ParseLine(line) == Some(Entry(Trim(line[..p]), Unquote(Trim(line[p + 1..]))))
  {
    FirstIndexAt(line, '=', p);
    var trimmed := Trim(line);
    assert trimmed != "" && trimmed[0] != '#';
    assert '=' in trimmed;
    assert trimmed[..FirstIndex(trimmed, '=')] == line[..p];
  }

  /** A line `KEY=raw` whose raw value does not end in white space defines `KEY`, with the
      raw value trimmed and unquoted. */
  lemma ParseAssignment(k: string, raw: string)
    requires PlainKey(k)
    requires raw == [] || !IsWhitespace(raw[|raw| - 1])
    ensures ParseLine(k + "=" + raw) == Some(Entry(k, Unquote(Trim(raw))))
  {
    var line := k + "=" + raw;
    assert line[0] == k[0];
    assert line[|line| - 1] == if raw == [] then '=' else raw[|raw| - 1];
    TrimOfTrimmed(line);
    assert line[..|k|] == k;
    assert line[|k|] == '=';
    FirstIndexAt(line, '=', |k|);
    assert line[|k| + 1..] == raw;
    TrimOfTrimmed(k);
    ParseLineSplit(line, |k|);
  }

  /** Writing `KEY="value"` and reading the line back gives the pair, for every value:
      quotes, spaces and further `=` signs inside the quotes survive. */
  lemma ParseQuotedLine(k: string, v: string)
    requires PlainKey(k)
    ensures ParseLine(k + "=\"" + v + "\"") == Some(Entry(k, v))
  {
    var raw := "\"" + v + "\"";
    assert k + "=\"" + v + "\"" == k + "=" + raw;
    assert raw[0] == '"' && raw[|raw| - 1] == '"';
    ParseAssignment(k, raw);
    TrimOfTrimmed(raw);
    UnquoteQuoted(v);
  }

  /** Removing the quotes from `"v"` gives `v`. */
  lemma UnquoteQuoted(v: string)
    ensures Unquote("\"" + v + "\"") == v
  {
    var raw := "\"" + v + "\"";
    var s1 := raw[1..];
    assert s1 == v + "\"";
    assert s1[|s1| - 1] == '"';
    assert s1[..|s1| - 1] == v;
  }

  /** An unquoted value with no padding and no quote at either end reads back as written. */
  lemma ParsePlainLine(k: string, v: string)
    requires PlainKey(k)
    requires v == [] || (!IsWhitespace(v[0]) && !IsWhitespace(v[|v| - 1]) && v[0] != '"' && v[|v| - 1] != '"')
    ensures ParseLine(k + "=" + v) == Some(Entry(k, v))
  {
    ParseAssignment(k, v);
    TrimOfTrimmed(v);
    assert Unquote(v) == v;
  }

  /** Blank lines and comment lines define nothing. */
  lemma IgnoredLines(line: string)
    requires Trim(line) == [] || Trim(line)[0] == '#'
    ensures ParseLine(line).None?
  {
  }

  // ===========================================================================
  // requireEnv

  const MissingVariablePrefix: string := "Variável de ambiente obrigatória ausente: "

  /** `requireEnv`: the variable's value, or a thrown error naming it when it is missing
      or empty. An inherited name that is not set reads as a function, not a string, and
      fails like a missing variable. */
  function RequireEnv(env: map<string, string>, key: string): (r: Result<string>)
    ensures r.Success? <==> key in env && env[key] != ""
    ensures r.Success? ==> r.value == env[key]
    ensures r.Failure? ==> r.error == MissingVariablePrefix + key
  {
    if key !in env || env[key] == "" then Failure(MissingVariablePrefix + key) else Success(env[key])
  }

  /** A variable defined by an env file of one `KEY="value"` line, not set before and not
      an inherited name, is then available to `requireEnv`. */
  lemma LoadedVariableIsRequired(env: map<string, string>, k: string, v: string)
    requires PlainKey(k) && !InEnv(env, k) && v != "" && '\n' !in v
    ensures '\n' !in k + "=\"" + v + "\""
    ensures RequireEnv(ApplyLines(env, SplitLines(k + "=\"" + v + "\"")), k) == Success(v)
  {
    var line := k + "=\"" + v + "\"";
    assert forall i :: 0 <= i < |line| ==> line[i] != '\n' by {
      forall i | 0 <= i < |line|
        ensures line[i] != '\n'
      {
        if i < |k| {
          assert line[i] == k[i] && !IsWhitespace(k[i]);
        } else if |k| + 2 <= i < |k| + 2 + |v| {
          assert line[i] == v[i - |k| - 2];
        }
      }
    }
    assert SplitLines(line) == [line];
    ParseQuotedLine(k, v);
    ApplyLinesAddsFirst(env, [line], k);
  }

  // ===========================================================================
  // parseAmountList

  /** A character of the separator class `[,;\s]`. */
  predicate IsSeparator(c: char) {
    c == ',' || c == ';' || IsWhitespace(c)
  }

  predicate NoSeparators(s: string) {
    forall i :: 0 <= i < |s| ==> !IsSeparator(s[i])
  }

  function DropSeparators(s: string): (r: string)
    ensures |r| <= |s| && (r == [] || !IsSeparator(r[0]))
    ensures s != [] && IsSeparator(s[0]) ==> |r| < |s|
  {
    if s != [] && IsSeparator(s[0]) then DropSeparators(s[1..]) else s
  }

  /** `split(/[,;\s]+/)` with `cur` the part of the current token already read: a run
      of separators ends a token, and leading or trailing runs give empty tokens. */
  function SplitFrom(s: string, cur: string): (tokens: seq<string>)
    ensures |tokens| >= 1
    ensures NoSeparators(cur) ==> forall i :: 0 <= i < |tokens| ==> NoSeparators(tokens[i])
    decreases |s|
  {
    if s == [] then [cur]
    else if IsSeparator(s[0]) then [cur] + SplitFrom(DropSeparators(s), "")
    else SplitFrom(s[1..], cur + [s[0]])
  }

  /** Splitting at runs of commas, semicolons and white space: at least one token, and
      no token holds a separator. */
  function SplitAmounts(s: string): (tokens: seq<string>)
    ensures |tokens| >= 1
    ensures forall i :: 0 <= i < |tokens| ==> NoSeparators(tokens[i])
  {
    SplitFrom(s, "")
  }

  /** `Number(text)` for decimal notation: an optional sign, digits with at most one
      decimal point, or the empty string (which is 0). None stands for NaN. */
  function ToNumber(s: string): (r: Option<real>)
    ensures Trim(s) == [] ==> r == Some(0.0)
    ensures r.Some? && r.value < 0.0 ==> Trim(s)[0] == '-'
    ensures r.Some? && r.value > 0.0 ==> Trim(s)[0] != '-'
  {
    var t := Trim(s);
    if t == "" then Some(0.0)
    else if t[0] == '-' then
      var u := UnsignedNumber(t[1..]);
      if u.Some? then Some(-u.value) else None
    else if t[0] == '+' then UnsignedNumber(t[1..])
    else UnsignedNumber(t)
  }

  /** `n / 10^k`, written as `k` divisions by ten. */
  function Scaled(n: nat, k: nat): (r: real)
    ensures r >= 0.0
    ensures r > 0.0 <==> n > 0
  {
    if k == 0 then n as real else Scaled(n, k - 1) / 10.0
  }

  function UnsignedNumber(s: string): (r: Option<real>)
    ensures r.Some? ==> r.value >= 0.0
  {
    if '.' in s then
      var k := FirstIndex(s, '.');
      var whole, fraction := s[..k], s[k + 1..];
      if AllDigits(whole) && AllDigits(fraction) && |whole| + |fraction| > 0 then
        Some(DigitsValue(whole) as real + Scaled(DigitsValue(fraction), |fraction|))
      else None
    else if s != [] && AllDigits(s) then Some(DigitsValue(s) as real)
    else None
  }

  /** What one token contributes: its number when that is positive, nothing otherwise. */
  function TokenAmount(token: string): (r: seq<real>)
    ensures |r| <= 1 && forall i :: 0 <= i < |r| ==> r[i] > 0.0
  {
    var n := ToNumber(Trim(token));
    if n.Some? && n.value > 0.0 then [n.value] else []
  }

  /** Every token read as a number after trimming, keeping only the finite positive
      values, in token order. */
  function PositiveAmounts(tokens: seq<string>): (r: seq<real>)
    ensures forall i :: 0 <= i < |r| ==> r[i] > 0.0
  {
    if tokens == [] then [] else TokenAmount(tokens[0]) + PositiveAmounts(tokens[1..])
  }

  /** The text a parsed option converts to: `true` for a bare flag. */
  function ArgText(v: ArgValue): (t: string)
    ensures v.Text? ==> t == v.text
    ensures v.Flag? ==> t == "true"
  {
    if v.Flag? then "true" else v.text
  }

  /** Some token reads as a positive number. */
  ghost predicate HasAmount(tokens: seq<string>) {
    exists i, y :: 0 <= i < |tokens| && ReadsAsAmount(tokens[i], y)
  }

  /** `parseAmountList`: the fallback for a missing or empty option, or when no token
      yields a positive amount; the positive amounts otherwise. A bare `--deposits`
      flag arrives as `true` and reads as the text "true". */
  function ParseAmountList(raw: Option<ArgValue>, fallback: seq<real>): (r: seq<real>)
    ensures raw.None? || raw == Some(Text("")) ==> r == fallback
    ensures raw.Some? && raw != Some(Text("")) ==>
              var p := PositiveAmounts(SplitAmounts(ArgText(raw.value)));
              r == (if |p| > 0 then p else fallback)
    ensures r != fallback ==> |r| > 0 && forall i :: 0 <= i < |r| ==> r[i] > 0.0
  {
    if raw.None? || raw == Some(Text("")) then fallback
    else
      var text := ArgText(raw.value);
      var normalized := PositiveAmounts(SplitAmounts(text));
      if |normalized| > 0 then normalized else fallback
  }

  /** For a given option, the list falls back exactly when no token reads as a positive
      number; otherwise it holds exactly the amounts that tokens read as. */
  lemma ParseAmountListMeaning(raw: Option<ArgValue>, fallback: seq<real>, x: real)
    requires raw.Some? && raw != Some(Text(""))
    ensures var tokens := SplitAmounts(ArgText(raw.value));
            && (!HasAmount(tokens) ==> ParseAmountList(raw, fallback) == fallback)
            && (HasAmount(tokens) ==>
                  ParseAmountList(raw, fallback) == PositiveAmounts(tokens)
                  && (x in ParseAmountList(raw, fallback)
                      <==> exists i :: 0 <= i < |tokens| && ReadsAsAmount(tokens[i], x)))
  {
    var tokens := SplitAmounts(ArgText(raw.value));
    var p := PositiveAmounts(tokens);
    PositiveAmountsMembers(tokens, x);
    if |p| > 0 {
      PositiveAmountsMembers(tokens, p[0]);
      var i :| 0 <= i < |tokens| && ReadsAsAmount(tokens[i], p[0]);
    }
    if HasAmount(tokens) {
      var i, y :| 0 <= i < |tokens| && ReadsAsAmount(tokens[i], y);
      PositiveAmountsMembers(tokens, y);
    }
  }

  /** A single word without separators whose first character cannot begin a number,
      such as "abc", is one token that is not a number, so it gives the fallback. */
  lemma WordFallsBack(w: string, fallback: seq<real>)
    requires w != [] && NoSeparators(w)
    requires !IsDigit(w[0]) && w[0] != '-' && w[0] != '+' && w[0] != '.'
    ensures ParseAmountList(Some(Text(w)), fallback) == fallback
  {
    WordIsOneToken(w);
    assert !IsSeparator(w[0]) && !IsSeparator(w[|w| - 1]);
    TrimOfTrimmed(w);
    NotANumber(w);
    assert TokenAmount(w) == [];
    assert PositiveAmounts([w]) == [];
  }

  /** The amounts keep the order of their tokens. */
  lemma {:induction false} PositiveAmountsAppend(a: seq<string>, b: seq<string>)
    ensures PositiveAmounts(a + b) == PositiveAmounts(a) + PositiveAmounts(b)
  {
    if a != [] {
      var t, rest := TokenAmount(a[0]), PositiveAmounts(a[1..]);
      calc {
        PositiveAmounts(a + b);
        { TailOfAppend(a, b); }
        t + PositiveAmounts(a[1..] + b);
        { PositiveAmountsAppend(a[1..], b); }
        t + (rest + PositiveAmounts(b));
        { AppendAssoc(t, rest, PositiveAmounts(b)); }
        (t + rest) + PositiveAmounts(b);
      }
    } else {
      assert a + b == b;
    }
  }

  /** A token that `Number(token.trim())` reads as the positive number `x`. */
  predicate ReadsAsAmount(token: string, x: real) {
    ToNumber(Trim(token)) == Some(x) && x > 0.0
  }

  /** An amount is kept exactly when some token reads as that positive number. */
  lemma {:induction false} PositiveAmountsMembers(tokens: seq<string>, x: real)
    ensures x in PositiveAmounts(tokens) <==> exists i :: 0 <= i < |tokens| && ReadsAsAmount(tokens[i], x)
  {
    if tokens != [] {
      PositiveAmountsMembers(tokens[1..], x);
      assert x in TokenAmount(tokens[0]) <==> ReadsAsAmount(tokens[0], x);
      if exists i :: 0 <= i < |tokens[1..]| && ReadsAsAmount(tokens[1..][i], x) {
        var i :| 0 <= i < |tokens[1..]| && ReadsAsAmount(tokens[1..][i], x);
        assert tokens[i + 1] == tokens[1..][i];
      }
      if exists i :: 0 <= i < |tokens| && ReadsAsAmount(tokens[i], x) {
        var i :| 0 <= i < |tokens| && ReadsAsAmount(tokens[i], x);
        if i > 0 {
          assert tokens[1..][i - 1] == tokens[i];
        }
      }
    }
  }

  /** Reading continues a token across characters that are not separators. */
  lemma {:induction false} SplitFromPlain(a: string, s: string, cur: string)
    requires NoSeparators(a)
    ensures SplitFrom(a + s, cur) == SplitFrom(s, cur + a)
  {
    if a != [] {
      assert (a + s)[1..] == a[1..] + s;
      assert cur + [a[0]] + a[1..] == cur + a;
      SplitFromPlain(a[1..], s, cur + [a[0]]);
    } else {
      assert a + s == s && cur + a == cur;
    }
  }

  /** Tokens joined by commas. */
  function JoinComma(tokens: seq<string>): string
    requires |tokens| >= 1
  {
    if |tokens| == 1 then tokens[0] else tokens[0] + "," + JoinComma(tokens[1..])
  }

  /** Splitting comma-joined tokens gives the tokens back, when none is empty or holds
      a separator. */
  lemma {:induction false} SplitJoin(tokens: seq<string>)
    requires |tokens| >= 1
    requires forall i :: 0 <= i < |tokens| ==> tokens[i] != [] && NoSeparators(tokens[i])
    ensures SplitAmounts(JoinComma(tokens)) == tokens
  {
    var t := tokens[0];
    if |tokens| == 1 {
      SplitFromPlain(t, "", "");
      assert t + "" == t && "" + t == t;
    } else {
      var rest := JoinComma(tokens[1..]);
      assert rest != [] && rest[0] == tokens[1][0] by { JoinCommaStart(tokens[1..]); }
      SplitFromPlain(t, "," + rest, "");
      assert t + "," + rest == t + ("," + rest);
      assert "" + t == t;
      assert DropSeparators("," + rest) == rest by {
        assert ("," + rest)[1..] == rest;
      }
      SplitJoin(tokens[1..]);
    }
  }

  lemma JoinCommaStart(tokens: seq<string>)
    requires |tokens| >= 1 && tokens[0] != []
    ensures JoinComma(tokens) != [] && JoinComma(tokens)[0] == tokens[0][0]
  {
  }

  /** Decimal renderings read back as their number. */
  lemma ToNumberDecimal(n: nat)
    ensures ToNumber(Trim(Decimal(n))) == Some(n as real)
  {
    TrimDecimal(n);
    var d := Decimal(n);
    ToNumberUnsigned(d);
    UnsignedDigits(d);
    DecimalRoundTrip(n);
  }

  /** Digits, a decimal point and more digits read as the whole part plus the fraction,
      as in "12.5". */
  lemma ToNumberFraction(w: string, f: string)
    requires w != [] && AllDigits(w) && AllDigits(f)
    ensures ToNumber(w + "." + f).Some?
    ensures ToNumber(w + "." + f).value == DigitsValue(w) as real + Scaled(DigitsValue(f), |f|)
  {
    var t := w + "." + f;
    assert t[0] == w[0] && IsDigit(t[0]);
    assert t[|t| - 1] == '.' || t[|t| - 1] == f[|f| - 1];
    TrimOfTrimmed(t);
    ToNumberUnsigned(t);
    UnsignedFraction(w, f);
  }

  /** The unsigned reading of digits, a point and digits. */
  lemma UnsignedFraction(w: string, f: string)
    requires w != [] && AllDigits(w) && AllDigits(f)
    ensures UnsignedNumber(w + "." + f).Some?
    ensures UnsignedNumber(w + "." + f).value == DigitsValue(w) as real + Scaled(DigitsValue(f), |f|)
  {
    var t := w + "." + f;
    assert t[|w|] == '.';
    assert t[..|w|] == w && t[|w| + 1..] == f;
    assert '.' !in w by {
      forall i | 0 <= i < |w| ensures w[i] != '.' { assert IsDigit(w[i]); }
    }
    FirstIndexAt(t, '.', |w|);
  }

  /** Text without sign and without padding is read as an unsigned number. */
  lemma ToNumberUnsigned(t: string)
    requires t != [] && Trim(t) == t && t[0] != '-' && t[0] != '+'
    ensures ToNumber(t) == UnsignedNumber(t)
  {
  }

  /** Plain digits are read as their decimal value. */
  lemma UnsignedDigits(d: string)
    requires d != [] && AllDigits(d)
    ensures UnsignedNumber(d) == Some(DigitsValue(d) as real)
  {
    assert '.' !in d;
  }

  function Decimals(ns: seq<nat>): (ds: seq<string>)
    ensures |ds| == |ns| && forall i :: 0 <= i < |ns| ==> ds[i] == Decimal(ns[i])
  {
    seq(|ns|, i requires 0 <= i < |ns| => Decimal(ns[i]))
  }

  function Reals(ns: seq<nat>): (rs: seq<real>)
    ensures |rs| == |ns| && forall i :: 0 <= i < |ns| ==> rs[i] == ns[i] as real
  {
    seq(|ns|, i requires 0 <= i < |ns| => ns[i] as real)
  }

  lemma {:induction false} PositiveAmountsOfDecimals(ns: seq<nat>)
    requires forall i :: 0 <= i < |ns| ==> ns[i] > 0
    ensures PositiveAmounts(Decimals(ns)) == Reals(ns)
  {
    if ns != [] {
      var ds := Decimals(ns);
      calc {
        PositiveAmounts(ds);
        TokenAmount(ds[0]) + PositiveAmounts(ds[1..]);
        { DecimalTokenAmount(ns[0]); }
        [ns[0] as real] + PositiveAmounts(ds[1..]);
        { assert ds[1..] == Decimals(ns[1..]); PositiveAmountsOfDecimals(ns[1..]); }
        [ns[0] as real] + Reals(ns[1..]);
        Reals(ns);
      }
    }
  }

  /** A positive whole amount written in decimal is one amount of that value. */
  lemma DecimalTokenAmount(n: nat)
    requires n > 0
    ensures TokenAmount(Decimal(n)) == [n as real]
  {
    ToNumberDecimal(n);
  }

  /** A comma-separated list of positive whole amounts, as a user would type it after
      `--deposits`, parses to exactly those amounts, in order. */
  lemma AmountListRoundTrip(ns: seq<nat>, fallback: seq<real>)
    requires |ns| >= 1 && forall i :: 0 <= i < |ns| ==> ns[i] > 0
    ensures ParseAmountList(Some(Text(JoinComma(Decimals(ns)))), fallback) == Reals(ns)
  {
    var ds := Decimals(ns);
    forall i | 0 <= i < |ds|
      ensures ds[i] != [] && NoSeparators(ds[i])
    {
      assert AllDigits(ds[i]);
    }
    SplitJoin(ds);
    PositiveAmountsOfDecimals(ns);
    assert JoinComma(ds) != "" by { JoinCommaStart(ds); }
  }

  /** `--deposits` given without a value falls back to the default amounts. */
  lemma BareFlagFallsBack(fallback: seq<real>)
    ensures ParseAmountList(Some(Flag), fallback) == fallback
  {
    assert NoSeparators("true");
    WordFallsBack("true", fallback);
  }

  /** A non-empty word without separators is one token. */
  lemma WordIsOneToken(w: string)
    requires w != [] && NoSeparators(w)
    ensures SplitAmounts(w) == [w]
  {
    SplitFromPlain(w, "", "");
    assert w + "" == w && "" + w == w;
  }


  /** Text that starts with a character other than a digit, a sign or a point is NaN. */
  lemma NotANumber(t: string)
    requires t != [] && Trim(t) == t && !IsDigit(t[0]) && t[0] != '-' && t[0] != '+' && t[0] != '.'
    ensures ToNumber(t).None?
  {
    ToNumberUnsigned(t);
    if '.' in t {
      var k := FirstIndex(t, '.');
      assert t[..k][0] == t[0];
    }
  }

  // ===========================================================================
  // normalizeCallableData

  /** A JSON-like JavaScript value as a callable returns it. */
  datatype Json =
    | Undefined
    | Null
    | Bool(b: bool)
    | Number(n: real)
    | Str(s: string)
    | Array(items: seq<Json>)
    | Object(fields: map<string, Json>)

  /** `normalizeCallableData`: the `result` member of an object that has one, the value
      itself otherwise. */
  function NormalizeCallableData(data: Json): (r: Json)
    ensures data.Object? && "result" in data.fields ==> r == data.fields["result"]
    ensures !(data.Object? && "result" in data.fields) ==> r == data
  {
    if data.Object? && "result" in data.fields then data.fields["result"] else data
  }

  /** Unwrapping undoes the callable envelope `{ result: x }`. */
  lemma NormalizeUnwrapsEnvelope(x: Json)
    ensures NormalizeCallableData(Object(map["result" := x])) == x
  {
  }

  /** A payload that is not an object carrying `result` passes through, so normalizing it
      twice is normalizing it once. */
  lemma NormalizePlainIsStable(data: Json)
    requires !(data.Object? && "result" in data.fields)
    ensures NormalizeCallableData(NormalizeCallableData(data)) == NormalizeCallableData(data)
  {
  }
}
