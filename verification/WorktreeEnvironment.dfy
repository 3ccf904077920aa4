/** The generated `.env.worktree`: its text, reading it back and reusing it
(`scripts/bootstrap-worktree.py`). */
module WorktreeEnvironment {
  import opened Options
  import opened Text
  import opened WorktreeNames
  import opened WorktreePorts

  // ------------------------------------------------------------------ lines

  /** The boundaries of `str.splitlines`. */
  predicate IsBreak(c: char) {
    c in {'\n', '\r', '\U{0B}', '\U{0C}', '\U{1C}', '\U{1D}', '\U{1E}', '\U{85}', '\U{2028}', '\U{2029}'}
  }

  /** What `str.strip` removes. */
  predicate IsSpace(c: char) {
    IsBreak(c) || c in {' ', '\t', '\U{1F}', '\U{A0}', '\U{1680}', '\U{202F}', '\U{205F}', '\U{3000}'}
      || '\U{2000}' <= c <= '\U{200A}'
  }

  /** `str.splitlines`; a carriage return and the line feed after it are one boundary. */
  function SplitLines(s: string): seq<string> {
    if s == "" then []
    else if IsBreak(s[0]) then
      [""] + SplitLines(if s[0] == '\r' && |s| > 1 && s[1] == '\n' then s[2..] else s[1..])
    else
      var rest := SplitLines(s[1..]);
      if rest == [] then [[s[0]]] else [[s[0]] + rest[0]] + rest[1..]
  }

  function Strip(s: string): string
    decreases |s|
  {
    if s != "" && IsSpace(s[0]) then Strip(s[1..])
    else if s != "" && IsSpace(s[|s| - 1]) then Strip(s[..|s| - 1])
    else s
  }

  /** `line.split("=", 1)`, when there is an equals sign. */
  function KeyOf(line: string): string {
    if line == "" || line[0] == '=' then "" else [line[0]] + KeyOf(line[1..])
  }

  /** A line, read: comments, blanks and lines without `=` bind nothing. */
  function ReadLine(values: map<string, string>, raw: string): map<string, string> {
    var line := Strip(raw);
    if line != "" && line[0] != '#' && '=' in line && |KeyOf(line)| < |line|
    then values[KeyOf(line) := line[|KeyOf(line)| + 1..]] else values
  }

  function ReadLines(values: map<string, string>, lines: seq<string>): map<string, string>
    decreases |lines|
  {
    if lines == [] then values else ReadLines(ReadLine(values, lines[0]), lines[1..])
  }

  /** `read_environment`. */
  method ReadEnvironment(text: string) returns (values: map<string, string>)
    ensures values == ReadLines(map[], SplitLines(text))
  {
    values := map[];
    var lines := SplitLines(text);
    for i := 0 to |lines|
      invariant ReadLines(map[], lines) == ReadLines(values, lines[i..])
    {
      assert lines[i..][0] == lines[i] && lines[i..][1..] == lines[i + 1..];
      values := ReadLine(values, lines[i]);
    }
  }

  // ------------------------------------------------------------------ what reading means

  predicate Blank(s: string) {
    forall i :: 0 <= i < |s| ==> IsSpace(s[i])
  }

  /** A text that starts and ends without a blank. */
  predicate Trimmed(s: string) {
    s != "" ==> !IsSpace(s[0]) && !IsSpace(s[|s| - 1])
  }

  /** Stripping leaves the trimmed middle between two blank ends. */
  lemma {:induction false} StripSplits(s: string) returns (a: nat, b: nat)
    ensures a <= b <= |s| && Strip(s) == s[a..b] && Trimmed(Strip(s))
    ensures forall i :: 0 <= i < |s| && (i < a || b <= i) ==> IsSpace(s[i])
    decreases |s|
  {
    if s != "" && IsSpace(s[0]) {
      a, b := StripSplits(s[1..]);
      assert forall i :: 0 < i < |s| ==> s[i] == s[1..][i - 1];
      a, b := a + 1, b + 1;
    } else if s != "" && IsSpace(s[|s| - 1]) {
      a, b := StripSplits(s[..|s| - 1]);
    } else {
      a, b := 0, |s|;
    }
  }

  lemma {:induction false} StripDropsEnds(before: string, middle: string, after: string)
    requires Blank(before) && Blank(after) && Trimmed(middle) && middle != ""
    ensures Strip(before + middle + after) == middle
    decreases |before| + |after|
  {
    var s := before + middle + after;
    if before != "" {
      assert s[0] == before[0];
      StripDropsEnds(before[1..], middle, after);
      assert s[1..] == before[1..] + middle + after;
    } else if after != "" {
      assert s[0] == middle[0] && s[|s| - 1] == after[|after| - 1];
      StripDropsEnds(before, middle, after[..|after| - 1]);
      assert s[..|s| - 1] == before + middle + after[..|after| - 1];
    } else {
      assert s == middle;
    }
  }

  /** The line binds the key to the value: blanks around `key=value`, the key without an equals sign
      and not a comment. */
  ghost predicate Binds(raw: string, key: string, value: string) {
    exists before, after :: BindsBetween(raw, key, value, before, after)
  }

  ghost predicate BindsBetween(raw: string, key: string, value: string, before: string, after: string) {
    && raw == before + (key + "=" + value) + after && Blank(before) && Blank(after)
    && Trimmed(key + "=" + value) && '=' !in key && (key != "" ==> key[0] != '#')
  }

  lemma {:induction false} KeyIsBeforeTheFirstEquals(line: string)
    requires '=' in line
    ensures var n := |KeyOf(line)|; n < |line| && line[n] == '=' && line[..n] == KeyOf(line) && '=' !in KeyOf(line)
  {
    if line[0] != '=' {
      var rest := line[1..];
      KeyIsBeforeTheFirstEquals(rest);
      var n := |KeyOf(rest)|;
      assert line[n + 1] == rest[n];
      assert line[..n + 1] == [line[0]] + rest[..n];
    }
  }

  /** A line that binds sets exactly its binding. */
  lemma BindingLineSays(values: map<string, string>, raw: string, key: string, value: string)
    requires Binds(raw, key, value)
    ensures ReadLine(values, raw) == values[key := value]
  {
    var before, after :| BindsBetween(raw, key, value, before, after);
    var line := Binding(key, value);
    StripDropsEnds(before, line, after);
    KeyBeforeEquals(key, value);
    assert line[0] == if key == "" then '=' else key[0];
    assert line[|key|] == '=';
    assert line[|key| + 1..] == value;
  }

  lemma SplitBinding(line: string, n: nat)
    requires n < |line| && line[n] == '='
    ensures line == line[..n] + "=" + line[n + 1..]
  {
  }

  /** A line that sets something binds. */
  lemma ReadLinesBind(values: map<string, string>, raw: string)
    requires ReadLine(values, raw) != values
    ensures exists key, value :: Binds(raw, key, value)
  {
    var line := Strip(raw);
    var a, b := StripSplits(raw);
    assert raw == raw[..a] + line + raw[b..];
    KeyIsBeforeTheFirstEquals(line);
    var n := |KeyOf(line)|;
    SplitBinding(line, n);
    assert BindsBetween(raw, KeyOf(line), line[n + 1..], raw[..a], raw[b..]);
    assert Binds(raw, KeyOf(line), line[n + 1..]);
  }

  /** Line `i` binds the key to the value, and no later line binds it. */
  ghost predicate BindsLast(lines: seq<string>, i: nat, key: string, value: string) {
    && i < |lines| && Binds(lines[i], key, value)
    && forall j, v :: i < j < |lines| ==> !Binds(lines[j], key, v)
  }

  lemma OtherLinesKeep(values: map<string, string>, raw: string, key: string)
    requires forall v :: !Binds(raw, key, v)
    ensures key in ReadLine(values, raw) <==> key in values
    ensures key in values ==> ReadLine(values, raw)[key] == values[key]
  {
    if k, v :| Binds(raw, k, v) {
      BindingLineSays(values, raw, k, v);
    } else if ReadLine(values, raw) != values {
      ReadLinesBind(values, raw);
    }
  }

  lemma {:induction false} UnboundStays(values: map<string, string>, lines: seq<string>, key: string)
    requires forall j, v :: 0 <= j < |lines| ==> !Binds(lines[j], key, v)
    ensures key in ReadLines(values, lines) <==> key in values
    ensures key in values ==> ReadLines(values, lines)[key] == values[key]
    decreases |lines|
  {
    if lines == [] {
    } else {
      assert forall v :: !Binds(lines[0], key, v);
      OtherLinesKeep(values, lines[0], key);
      forall j, v | 0 <= j < |lines[1..]|
        ensures !Binds(lines[1..][j], key, v)
      {
        assert lines[1..][j] == lines[j + 1];
      }
      UnboundStays(ReadLine(values, lines[0]), lines[1..], key);
    }
  }

  /** The last line that binds a key decides its value. */
  lemma {:induction false} LastBindingWins(values: map<string, string>, lines: seq<string>, i: nat, key: string,
      value: string)
    requires BindsLast(lines, i, key, value)
    ensures key in ReadLines(values, lines) && ReadLines(values, lines)[key] == value
    decreases |lines|
  {
    var next, rest := ReadLine(values, lines[0]), lines[1..];
    assert forall j :: 0 <= j < |rest| ==> rest[j] == lines[j + 1];
    if i == 0 {
      BindingLineSays(values, lines[0], key, value);
      UnboundStays(next, rest, key);
    } else {
      assert BindsLast(rest, i - 1, key, value);
      LastBindingWins(next, rest, i - 1, key, value);
    }
  }

  // ------------------------------------------------------------------ rendering

  const HEADER_START := "# Generated by "
  const HEADER_SCRIPT := "scripts/bootstrap-"
  const HEADER_FILE := "worktree.py; "
  const HEADER_END := "safe to recreate."
  const HEADER := HEADER_START + HEADER_SCRIPT + HEADER_FILE + HEADER_END
  const WORKTREE_ID := "WORKTREE_ID"
  const PROJECT := "COMPOSE_PROJECT_NAME"
  const API := "API_PORT"
  const WEB := "WEB_PORT"
  const POSTGRES := "POSTGRES_PORT"

  function Binding(key: string, value: string): string {
    key + "=" + value
  }

  /** The lines `render_environment` joins, before the final empty one. */
  function RenderedLines(identity: string, name: string, ports: Ports): seq<string>
    requires ports.api >= 0 && ports.web >= 0 && ports.postgres >= 0
  {
    [HEADER, Binding(WORKTREE_ID, identity), Binding(PROJECT, name), Binding(API, OfNat(ports.api)),
     Binding(WEB, OfNat(ports.web)), Binding(POSTGRES, OfNat(ports.postgres))]
  }

  /** Joining with line feeds, the last line being empty. */
  function JoinLines(lines: seq<string>): string {
    if lines == [] then "" else lines[0] + ['\n'] + JoinLines(lines[1..])
  }

  function Render(identity: string, name: string, ports: Ports): string
    requires ports.api >= 0 && ports.web >= 0 && ports.postgres >= 0
  {
    JoinLines(RenderedLines(identity, name, ports))
  }

  predicate NoBreaks(s: string) {
    forall i :: 0 <= i < |s| ==> !IsBreak(s[i])
  }

  lemma {:induction false} LastLine(line: string)
    requires NoBreaks(line)
    ensures SplitLines(line) == if line == "" then [] else [line]
    decreases |line|
  {
    if line == "" {
    } else {
      LastLine(line[1..]);
      var rest := SplitLines(line[1..]);
      assert !IsBreak(line[0]);
      if |line| == 1 {
        assert line == [line[0]];
      } else {
        assert rest == [line[1..]] && rest[1..] == [];
        assert line == [line[0]] + line[1..];
      }
    }
  }

  /** A line ends at any boundary; a carriage return takes the line feed after it along. */
  lemma {:induction false} SplitFirstLine(line: string, c: char, rest: string)
    requires NoBreaks(line) && IsBreak(c) && !(c == '\r' && rest != "" && rest[0] == '\n')
    ensures SplitLines(line + [c] + rest) == [line] + SplitLines(rest)
    ensures SplitLines(line + "\r\n" + rest) == [line] + SplitLines(rest)
    decreases |line|
  {
    var s, t := line + [c] + rest, line + "\r\n" + rest;
    if line == "" {
      assert s[1..] == rest && t[2..] == rest;
    } else {
      SplitFirstLine(line[1..], c, rest);
      assert s[1..] == line[1..] + [c] + rest && t[1..] == line[1..] + "\r\n" + rest;
      assert !IsBreak(line[0]) && s[0] == line[0] && t[0] == line[0];
      assert [line[0]] + line[1..] == line;
    }
  }

  lemma {:induction false} SplitJoined(lines: seq<string>)
    requires forall i :: 0 <= i < |lines| ==> NoBreaks(lines[i])
    ensures SplitLines(JoinLines(lines)) == lines
    decreases |lines|
  {
    if lines == [] {
    } else {
      SplitFirstLine(lines[0], '\n', JoinLines(lines[1..]));
      SplitJoined(lines[1..]);
      assert lines == [lines[0]] + lines[1..];
    }
  }

  lemma {:induction false} KeyBeforeEquals(key: string, value: string)
    requires '=' !in key
    ensures KeyOf(Binding(key, value)) == key
  {
    var line := Binding(key, value);
    if key != "" {
      KeyBeforeEquals(key[1..], value);
      assert line[1..] == Binding(key[1..], value);
      assert [key[0]] + key[1..] == key;
    }
  }

  /** A binding whose ends are not blank is read back as that binding. */
  lemma ReadBinding(values: map<string, string>, key: string, value: string)
    requires '=' !in key && key != "" && key[0] != '#' && !IsSpace(key[0])
    requires value != "" && !IsSpace(value[|value| - 1])
    ensures ReadLine(values, Binding(key, value)) == values[key := value]
  {
    var line := Binding(key, value);
    assert line[0] == key[0] && line[|line| - 1] == value[|value| - 1];
    KeyBeforeEquals(key, value);
    assert line[|key|] == '=';
    assert line[|key| + 1..] == value;
  }

  lemma HeaderBindsNothing(values: map<string, string>)
    ensures ReadLine(values, HEADER) == values
  {
    assert HEADER_START[0] == '#' && HEADER_END[16] == '.';
    assert |HEADER_END| == 17 && HEADER[|HEADER| - 1] == HEADER_END[16] && HEADER[0] == HEADER_START[0];
  }

  lemma HeaderHasNoBreaks()
    ensures NoBreaks(HEADER)
  {
    assert NoBreaks(HEADER_START);
    assert NoBreaks(HEADER_SCRIPT);
    assert NoBreaks(HEADER_FILE);
    assert NoBreaks(HEADER_END);
    var front, back := HEADER_START + HEADER_SCRIPT, HEADER_FILE + HEADER_END;
    assert NoBreaks(front) && NoBreaks(back) && HEADER == front + back;
  }

  /** The five bindings a worktree file must hold. */
  function Bindings(identity: string, name: string, ports: Ports): map<string, string>
    requires ports.api >= 0 && ports.web >= 0 && ports.postgres >= 0
  {
    var named := map[WORKTREE_ID := identity][PROJECT := name];
    named[API := OfNat(ports.api)][WEB := OfNat(ports.web)][POSTGRES := OfNat(ports.postgres)]
  }

  /** A value of name characters or digits survives splitting and stripping. */
  predicate PlainValue(s: string) {
    s != "" && AllNameChars(s)
  }

  lemma PlainCharacters(c: char)
    requires IsNameChar(c)
    ensures !IsSpace(c) && !IsBreak(c)
  {
  }

  lemma PlainBindingHasNoBreaks(key: string, value: string)
    requires NoBreaks(key) && PlainValue(value)
    ensures NoBreaks(Binding(key, value))
    ensures !IsSpace(value[|value| - 1])
  {
    var line := Binding(key, value);
    forall i | 0 <= i < |line|
      ensures !IsBreak(line[i])
    {
      if i > |key| {
        assert line[i] == value[i - |key| - 1];
        PlainCharacters(line[i]);
      } else if i == |key| {
        assert line[i] == '=';
      } else {
        assert line[i] == key[i];
      }
    }
    PlainCharacters(value[|value| - 1]);
  }

  lemma NumeralIsPlain(n: nat)
    ensures PlainValue(OfNat(n))
  {
    var s := OfNat(n);
    forall i | 0 <= i < |s|
      ensures IsNameChar(s[i])
    {
      assert IsAsciiDigit(s[i]);
    }
  }

  /** A key that is read back as itself: no break, no `=`, no comment mark, no leading blank. */
  predicate ReadableKey(k: string) {
    NoBreaks(k) && '=' !in k && k != "" && k[0] != '#' && !IsSpace(k[0])
  }

  lemma KeysAreReadable()
    ensures ReadableKey(WORKTREE_ID) && ReadableKey(PROJECT)
    ensures ReadableKey(API) && ReadableKey(WEB) && ReadableKey(POSTGRES)
  {
    PortKeysAreReadable();
  }

  lemma PortKeysAreReadable()
    ensures ReadableKey(API) && ReadableKey(WEB) && ReadableKey(POSTGRES)
  {
  }

  lemma RenderedLinesAreSplitBack(identity: string, name: string, ports: Ports)
    requires PlainValue(identity) && PlainValue(name)
    requires ports.api >= 0 && ports.web >= 0 && ports.postgres >= 0
    ensures SplitLines(Render(identity, name, ports)) == RenderedLines(identity, name, ports)
  {
    KeysAreReadable();
    NumeralIsPlain(ports.api);
    NumeralIsPlain(ports.web);
    NumeralIsPlain(ports.postgres);
    PlainBindingHasNoBreaks(WORKTREE_ID, identity);
    PlainBindingHasNoBreaks(PROJECT, name);
    PlainBindingHasNoBreaks(API, OfNat(ports.api));
    PlainBindingHasNoBreaks(WEB, OfNat(ports.web));
    PlainBindingHasNoBreaks(POSTGRES, OfNat(ports.postgres));
    HeaderHasNoBreaks();
    SplitJoined(RenderedLines(identity, name, ports));
  }

  /** A plain value under a readable key is read back as that binding. */
  lemma ReadPlain(values: map<string, string>, key: string, value: string)
    requires ReadableKey(key) && PlainValue(value)
    ensures ReadLine(values, Binding(key, value)) == values[key := value]
  {
    PlainBindingHasNoBreaks(key, value);
    ReadBinding(values, key, value);
  }

  /** Reading the rendered text back yields exactly the five bindings. */
  lemma EnvironmentRoundTrip(identity: string, name: string, ports: Ports)
    requires PlainValue(identity) && PlainValue(name)
    requires ports.api >= 0 && ports.web >= 0 && ports.postgres >= 0
    ensures ReadLines(map[], SplitLines(Render(identity, name, ports))) == Bindings(identity, name, ports)
  {
    var lines := RenderedLines(identity, name, ports);
    RenderedLinesAreSplitBack(identity, name, ports);
    KeysAreReadable();
    NumeralIsPlain(ports.api);
    NumeralIsPlain(ports.web);
    NumeralIsPlain(ports.postgres);
    ReadSix(lines);
    HeaderBindsNothing(map[]);
    ReadPlain(map[], WORKTREE_ID, identity);
    var v1 := map[WORKTREE_ID := identity];
    assert map[][WORKTREE_ID := identity] == v1;
    ReadPlain(v1, PROJECT, name);
    var v2 := v1[PROJECT := name];
    ReadPlain(v2, API, OfNat(ports.api));
    var v3 := v2[API := OfNat(ports.api)];
    ReadPlain(v3, WEB, OfNat(ports.web));
    ReadPlain(v3[WEB := OfNat(ports.web)], POSTGRES, OfNat(ports.postgres));
  }

  lemma ReadSix(lines: seq<string>)
    requires |lines| == 6
    ensures ReadLines(map[], lines) ==
      var half := ReadLine(ReadLine(ReadLine(map[], lines[0]), lines[1]), lines[2]);
      ReadLine(ReadLine(ReadLine(half, lines[3]), lines[4]), lines[5])
  {
    var v1 := ReadLine(map[], lines[0]);
    var v2 := ReadLine(v1, lines[1]);
    var v3 := ReadLine(v2, lines[2]);
    var v4 := ReadLine(v3, lines[3]);
    assert lines[1..][1..] == lines[2..] && lines[2..][1..] == lines[3..] && lines[3..][1..] == lines[4..];
    assert lines[4..][1..] == lines[5..] && lines[5..][1..] == [];
    assert ReadLines(map[], lines) == ReadLines(v1, lines[1..]);
    assert ReadLines(v1, lines[1..]) == ReadLines(v2, lines[2..]);
    assert ReadLines(v2, lines[2..]) == ReadLines(v3, lines[3..]);
    assert ReadLines(v3, lines[3..]) == ReadLines(v4, lines[4..]);
    var v5 := ReadLine(v4, lines[4]);
    assert ReadLines(v4, lines[4..]) == ReadLines(v5, lines[5..]);
    assert ReadLines(v5, lines[5..]) == ReadLines(ReadLine(v5, lines[5]), []);
  }

  // ------------------------------------------------------------------ reuse

  datatype Reuse = ForeignWorktree | InvalidFile | Unconverted | Reused(name: string, ports: Ports)

  function Read(values: map<string, string>, key: string): string {
    if key in values then values[key] else ""
  }

  /** The reuse path of `main`, up to the port validation. */
  function ReuseFile(digits: Digits, values: map<string, string>, identity: string): Reuse {
    var api := ReadNumeral(digits, Read(values, API));
    var web := ReadNumeral(digits, Read(values, WEB));
    var postgres := ReadNumeral(digits, Read(values, POSTGRES));
    if WORKTREE_ID !in values || values[WORKTREE_ID] != identity then ForeignWorktree
    else if api.NotDigits? || web.NotDigits? || postgres.NotDigits? then InvalidFile
    else if !ReusableName(Read(values, PROJECT)) then InvalidFile
    else if api.Unconvertible? || web.Unconvertible? || postgres.Unconvertible? then Unconverted
    else Reused(Read(values, PROJECT), Ports(api.n, web.n, postgres.n))
  }

  /** The file as its reader sees it: this worktree's id, a project name of the pattern and three
      numerals that convert, each under its own key. */
  predicate Holds(digits: Digits, values: map<string, string>, identity: string, name: string, ports: Ports) {
    && "WORKTREE_ID" in values && values["WORKTREE_ID"] == identity
    && "COMPOSE_PROJECT_NAME" in values && values["COMPOSE_PROJECT_NAME"] == name
    && "API_PORT" in values && IsNumeral(digits, values["API_PORT"], ports.api)
    && "WEB_PORT" in values && IsNumeral(digits, values["WEB_PORT"], ports.web)
    && "POSTGRES_PORT" in values && IsNumeral(digits, values["POSTGRES_PORT"], ports.postgres)
  }

  predicate IsNumeral(digits: Digits, s: string, n: int) {
    0 < |s| <= 4300 && AllDecimal(digits, s) && n == ToNat(digits, s)
  }

  /** `^[a-z0-9][a-z0-9_-]*$`. */
  predicate MatchesPattern(name: string) {
    && |name| > 0 && name[0] != '_' && name[0] != '-'
    && forall i :: 0 <= i < |name| ==>
         'a' <= name[i] <= 'z' || '0' <= name[i] <= '9' || name[i] == '_' || name[i] == '-'
  }

  lemma NumeralSays(digits: Digits, s: string, n: int)
    ensures IsNumeral(digits, s, n) <==> n >= 0 && ReadNumeral(digits, s) == Number(n)
  {
  }

  /** The file of another worktree, or one without an id, is foreign whatever else it holds; a file is
      reused with a name and ports exactly when it holds them under this worktree's id and the name
      matches the pattern. */
  lemma ReuseSays(digits: Digits, values: map<string, string>, identity: string, name: string, ports: Ports)
    ensures ReuseFile(digits, values, identity) == ForeignWorktree <==>
      !("WORKTREE_ID" in values && values["WORKTREE_ID"] == identity)
    ensures ReuseFile(digits, values, identity) == Reused(name, ports) <==>
      Holds(digits, values, identity, name, ports) && MatchesPattern(name)
  {
    NumeralSays(digits, Read(values, API), ports.api);
    NumeralSays(digits, Read(values, WEB), ports.web);
    NumeralSays(digits, Read(values, POSTGRES), ports.postgres);
    assert MatchesPattern(name) <==> ReusableName(name);
  }

  /** The file's value under the key is missing, empty, or holds a character that is no digit at all. */
  predicate NoDigits(digits: Digits, values: map<string, string>, key: string) {
    key !in values || values[key] == "" || exists i :: 0 <= i < |values[key]| && digits(values[key][i]).NoDigit?
  }

  /** This worktree's own file is called invalid exactly when a port is not all digits or the name is
      missing or off the pattern. */
  lemma InvalidSays(digits: Digits, values: map<string, string>, identity: string)
    requires "WORKTREE_ID" in values && values["WORKTREE_ID"] == identity
    ensures ReuseFile(digits, values, identity) == InvalidFile <==>
      || NoDigits(digits, values, "API_PORT") || NoDigits(digits, values, "WEB_PORT")
      || NoDigits(digits, values, "POSTGRES_PORT")
      || "COMPOSE_PROJECT_NAME" !in values || !MatchesPattern(values["COMPOSE_PROJECT_NAME"])
  {
    assert MatchesPattern(Read(values, PROJECT)) <==> ReusableName(Read(values, PROJECT));
  }

  lemma KeysDiffer()
    ensures WORKTREE_ID != PROJECT && WORKTREE_ID != API && WORKTREE_ID != WEB && WORKTREE_ID != POSTGRES
    ensures PROJECT != API && PROJECT != WEB && PROJECT != POSTGRES
    ensures API != WEB && API != POSTGRES && WEB != POSTGRES
  {
    assert WORKTREE_ID[0] == 'W' && WORKTREE_ID[1] == 'O' && PROJECT[0] == 'C' && API[0] == 'A';
    assert WEB[0] == 'W' && WEB[1] == 'E' && POSTGRES[0] == 'P';
  }

  lemma PortNumeralIsRead(digits: Digits, port: int)
    requires ExtendsAscii(digits) && 1 <= port <= 65535
    ensures ReadNumeral(digits, OfNat(port)) == Number(port)
  {
    NumeralRoundTrip(digits, port);
    assert |OfNat(port / 10 / 10 / 10 / 10)| == 1;
    assert |OfNat(port / 10 / 10 / 10)| <= 2;
    assert |OfNat(port / 10 / 10)| <= 3;
    assert |OfNat(port / 10)| <= 4;
    assert |OfNat(port)| <= 5;
  }

  predicate InRange(p: Ports) {
    1 <= p.api <= 65535 && 1 <= p.web <= 65535 && 1 <= p.postgres <= 65535
  }

  predicate IsIdentity(s: string) {
    s != "" && forall i :: 0 <= i < |s| ==> IsAlphanumeric(s[i])
  }

  /** The file the script wrote is read back with the very name and ports it wrote, for every
      directory name and identity. */
  lemma OwnFileIsReused(digits: Digits, lowered: string, identity: string, ports: Ports)
    requires ExtendsAscii(digits) && IsIdentity(identity) && InRange(ports)
    ensures var name := ProjectName(lowered, identity);
      ReuseFile(digits, ReadLines(map[], SplitLines(Render(identity, name, ports))), identity) == Reused(name, ports)
  {
    var name := ProjectName(lowered, identity);
    GeneratedNamesAreReusable(lowered, identity);
    EnvironmentRoundTrip(identity, name, ports);
    KeysDiffer();
    PortNumeralIsRead(digits, ports.api);
    PortNumeralIsRead(digits, ports.web);
    PortNumeralIsRead(digits, ports.postgres);
    var values := Bindings(identity, name, ports);
    assert values[WORKTREE_ID] == identity && values[PROJECT] == name && values[API] == OfNat(ports.api);
    assert values[WEB] == OfNat(ports.web) && values[POSTGRES] == OfNat(ports.postgres);
  }

  // ------------------------------------------------------------------ whole runs

  /** The host as one run finds it: the Docker ports of others and of this project, if Docker
      answers, and what binding a port says. */
  datatype Host = Host(docker: Option<Inventory>, probe: Probe)
  {
    function External(): Option<set<int>> {
      if docker.Some? then Some(docker.value.external) else None
    }

    function Own(): Option<set<int>> {
      if docker.Some? then Some(docker.value.project) else None
    }
  }

  datatype Inventory = Inventory(external: set<int>, project: set<int>)

  datatype Outcome =
    | NoFreeBlock
    | Foreign
    | Malformed
    | Raised
    | PortsRefused
    | Configured(name: string, ports: Ports)
    | Reusing(name: string, ports: Ports)

  /** `main` without overrides: reuse the file if there is one, else allocate, validate and write.
      `seed` is the number in the identity's first digits. */
  method BootstrapWorktree(digits: Digits, file: Option<string>, lowered: string, identity: string, seed: nat,
      host: Host)
    returns (r: Outcome, after: Option<string>)
    requires IsIdentity(identity)
    ensures file.Some? ==> after == file
    ensures file.Some? ==>
      (match ReuseFile(digits, ReadLines(map[], SplitLines(file.value)), identity)
       case ForeignWorktree => r == Foreign
       case InvalidFile => r == Malformed
       case Unconverted => r == Raised
       case Reused(name, ports) =>
         r == if PortsAcceptable(ports, host.External(), host.Own(), host.probe)
              then Reusing(name, ports) else PortsRefused)
    ensures file.None? && r != NoFreeBlock ==>
      && r.Configured? && r.name == ProjectName(lowered, identity) && InRange(r.ports)
      && after == Some(Render(identity, r.name, r.ports))
      && exists k :: FirstFree(seed, k, host.External(), host.probe) && r.ports == BlockAt(Candidate(seed, k))
    ensures file.None? ==> (r == NoFreeBlock <==>
      forall block :: 0 <= block < BLOCKS ==> !Free(FIRST + 3 * block, host.External(), host.probe))
    ensures r == NoFreeBlock ==> after == file
  {
    after := file;
    if file.Some? {
      var values := ReadEnvironment(file.value);
      match ReuseFile(digits, values, identity)
      case ForeignWorktree => return Foreign, after;
      case InvalidFile => return Malformed, after;
      case Unconverted => return Raised, after;
      case Reused(name, ports) =>
        var verdict := ValidatePorts(ports, host.External(), host.Own(), host.probe);
        return (if verdict.Accepted? then Reusing(name, ports) else PortsRefused), after;
    }
    var block := AllocatePorts(seed, host.External(), host.probe);
    if block.None? {
      return NoFreeBlock, after;
    }
    ghost var k :| FirstFree(seed, k, host.External(), host.probe) && block.value == BlockAt(Candidate(seed, k));
    AllocatedBlocksAreAccepted(seed, k, host.External(), host.Own(), host.probe);
    CandidateIsABlock(seed, k);
    var verdict := ValidatePorts(block.value, host.External(), host.Own(), host.probe);
    if verdict.Invalid? {
      assert false;
    }
    var name := ProjectName(lowered, identity);
    after := Some(Render(identity, name, block.value));
    r := Configured(name, block.value);
  }

  /** Two runs in a row: the second leaves the file alone and reuses exactly what the first
      configured if and only if the host, as it is by then, has no known collision on those ports. */
  method RunTwice(digits: Digits, lowered: string, identity: string, seed: nat, host: Host, later: Host)
    returns (first: Outcome, second: Outcome)
    requires ExtendsAscii(digits) && IsIdentity(identity)
    ensures first.Configured? ==>
      second == if PortsAcceptable(first.ports, later.External(), later.Own(), later.probe)
                then Reusing(first.name, first.ports) else PortsRefused
  {
    var file;
    first, file := BootstrapWorktree(digits, None, lowered, identity, seed, host);
    second := first;
    if first.Configured? {
      OwnFileIsReused(digits, lowered, identity, first.ports);
      second, file := BootstrapWorktree(digits, file, lowered, identity, seed, later);
    }
  }

  /** While the project's own containers hold its ports, the rerun accepts them if and only if Docker
      answers, lists them as the project's and lists none as another's. */
  lemma OwnRunningPortsAreAcceptedIff(ports: Ports, later: Host)
    requires InRange(ports) && Distinct(ports)
    requires forall i :: 0 <= i < 3 ==> later.probe(AsList(ports)[i]) == Some(false)
    ensures PortsAcceptable(ports, later.External(), later.Own(), later.probe) <==>
      later.docker.Some? && forall i :: 0 <= i < 3 ==>
        AsList(ports)[i] in later.docker.value.project && AsList(ports)[i] !in later.docker.value.external
  {
    if PortsAcceptable(ports, later.External(), later.Own(), later.probe) {
      assert PortAcceptable(AsList(ports)[0], later.External(), later.Own(), later.probe);
    }
    assert forall i :: 0 <= i < 3 ==> 1 <= AsList(ports)[i] <= 65535;
  }
}
