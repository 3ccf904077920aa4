/** Local references: the JSON Pointer resolver of the query contract and the simpler one of the
run contract (sections 3 and 4 of RFC 6901). */
module JsonPointer {
  import opened Options
  import opened Text
  import opened Json

  // ------------------------------------------------------------------ tokens

  /** `s.replace(ab, into)` for a two-character pattern: leftmost, non-overlapping. */
  function Replace(s: string, a: char, b: char, into: char): string {
    if |s| < 2 then s
    else if s[0] == a && s[1] == b then [into] + Replace(s[2..], a, b, into)
    else [s[0]] + Replace(s[1..], a, b, into)
  }

  /** `raw.replace("~1", "/").replace("~0", "~")`. */
  function Decode(raw: string): string {
    Replace(Replace(raw, '~', '1', '/'), '~', '0', '~')
  }

  /** One pass from the left, as the escapes are defined. */
  function DecodeOnce(raw: string): string {
    if raw == "" then ""
    else if |raw| > 1 && raw[0] == '~' && raw[1] == '1' then "/" + DecodeOnce(raw[2..])
    else if |raw| > 1 && raw[0] == '~' && raw[1] == '0' then "~" + DecodeOnce(raw[2..])
    else [raw[0]] + DecodeOnce(raw[1..])
  }

  function Escape(token: string): string {
    if token == "" then ""
    else (if token[0] == '~' then "~0" else if token[0] == '/' then "~1" else [token[0]]) + Escape(token[1..])
  }

  /** The escaped tokens, joined with `/`. */
  function Join(tokens: seq<string>): string
    requires tokens != []
  {
    if |tokens| == 1 then Escape(tokens[0]) else Escape(tokens[0]) + ['/'] + Join(tokens[1..])
  }

  function Print(tokens: seq<string>): string {
    if tokens == [] then "" else "/" + Join(tokens)
  }

  lemma ReplaceHead(s: string, a: char, b: char, into: char)
    requires s != ""
    ensures Replace(s, a, b, into) != ""
    ensures Replace(s, a, b, into)[0] == s[0] || Replace(s, a, b, into)[0] == into
  {
  }

  lemma ReplaceOther(c: char, s: string, a: char, b: char, into: char)
    requires c != a || s == "" || s[0] != b
    ensures Replace([c] + s, a, b, into) == [c] + Replace(s, a, b, into)
  {
    assert ([c] + s)[1..] == s;
  }

  lemma ReplaceMatch(s: string, a: char, b: char, into: char)
    ensures Replace([a, b] + s, a, b, into) == [into] + Replace(s, a, b, into)
  {
    assert ([a, b] + s)[2..] == s;
  }

  /** The two successive replacements decode as one left-to-right pass, on every string. */
  lemma {:induction false} DecodeIsOnePass(raw: string)
    ensures Decode(raw) == DecodeOnce(raw)
    decreases |raw|
  {
    if raw == "" {
    } else {
      var rest := raw[1..];
      if |raw| > 1 && raw[0] == '~' && raw[1] == '1' {
        DecodeIsOnePass(raw[2..]);
        ReplaceOther('/', Replace(raw[2..], '~', '1', '/'), '~', '0', '~');
      } else if |raw| > 1 && raw[0] == '~' && raw[1] == '0' {
        DecodeIsOnePass(raw[2..]);
        var after := Replace(raw[2..], '~', '1', '/');
        assert raw == ['~'] + (['0'] + raw[2..]);
        ReplaceOther('~', ['0'] + raw[2..], '~', '1', '/');
        ReplaceOther('0', raw[2..], '~', '1', '/');
        assert ['~'] + (['0'] + after) == ['~', '0'] + after;
        ReplaceMatch(after, '~', '0', '~');
      } else {
        DecodeIsOnePass(rest);
        assert raw == [raw[0]] + rest;
        ReplaceOther(raw[0], rest, '~', '1', '/');
        if rest != "" {
          ReplaceHead(rest, '~', '1', '/');
        }
        ReplaceOther(raw[0], Replace(rest, '~', '1', '/'), '~', '0', '~');
      }
    }
  }

  /** Decoding undoes escaping, and an escaped token has no separator. */
  lemma {:induction false} EscapeRoundTrip(token: string)
    ensures Decode(Escape(token)) == token
    ensures '/' !in Escape(token)
  {
    DecodeIsOnePass(Escape(token));
    if token != "" {
      EscapeRoundTrip(token[1..]);
      DecodeIsOnePass(Escape(token[1..]));
      var e := Escape(token);
      if token[0] == '~' || token[0] == '/' {
        assert e[2..] == Escape(token[1..]);
      } else {
        assert e[1..] == Escape(token[1..]);
      }
    }
  }

  /** A pointer without escapes is its own decoding. */
  lemma {:induction false} DecodePlain(raw: string)
    requires '~' !in raw
    ensures Decode(raw) == raw
  {
    DecodeIsOnePass(raw);
    if raw != "" {
      DecodePlain(raw[1..]);
      DecodeIsOnePass(raw[1..]);
    }
  }

  // ------------------------------------------------------------------ walking

  /** What a walk comes to: a value, nothing, or an exception. */
  datatype Reached = Found(value: Value) | Absent | Raises

  /** One token: a key of a mapping, or an index into a list. */
  function Step(digits: Digits, current: Value, token: string): Reached {
    match current
    case Object(members) =>
      (match Lookup(members, token)
       case Some(v) => Found(v)
       case None => Absent)
    case Array(items) =>
      (match ReadNumeral(digits, token)
       case Number(n) => if n < |items| then Found(items[n]) else Absent
       case NotDigits => Absent
       case Unconvertible => Raises)
    case _ => Absent
  }

  function Walk(digits: Digits, current: Value, tokens: seq<string>): Reached
    decreases |tokens|
  {
    if tokens == [] then Found(current)
    else
      match Step(digits, current, tokens[0])
      case Found(next) => Walk(digits, next, tokens[1..])
      case stopped => stopped
  }

  lemma WalkStep(digits: Digits, current: Value, tokens: seq<string>, i: nat)
    requires i < |tokens|
    ensures Walk(digits, current, tokens[i..]) ==
      match Step(digits, current, tokens[i])
      case Found(next) => Walk(digits, next, tokens[i + 1..])
      case stopped => stopped
  {
    assert tokens[i..][0] == tokens[i] && tokens[i..][1..] == tokens[i + 1..];
  }

  function DecodeAll(raws: seq<string>): seq<string> {
    seq(|raws|, i requires 0 <= i < |raws| => Decode(raws[i]))
  }

  /** The target of a pointer, by RFC 6901's evaluation as the code performs it. */
  function Resolve(digits: Digits, document: Value, pointer: string): Reached {
    if pointer == "" then Found(document)
    else if pointer[0] != '/' then Absent
    else Walk(digits, document, DecodeAll(Split(pointer[1..], '/')))
  }

  datatype Answer = Raised | Answered(found: bool)

  /** `_resolve_pointer`. */
  method ResolvePointer(digits: Digits, document: Value, pointer: string) returns (r: Answer)
    ensures r == match Resolve(digits, document, pointer)
                 case Found(_) => Answered(true)
                 case Absent => Answered(false)
                 case Raises => Raised
    ensures pointer == "" ==> r == Answered(true)
    ensures pointer != "" && pointer[0] != '/' ==> r == Answered(false)
  {
    if pointer == "" {
      return Answered(true);
    }
    if pointer[0] != '/' {
      return Answered(false);
    }
    var raws := Split(pointer[1..], '/');
    ghost var tokens := DecodeAll(raws);
    var current := document;
    for i := 0 to |raws|
      invariant Walk(digits, document, tokens) == Walk(digits, current, tokens[i..])
    {
      var token := Decode(raws[i]);
      WalkStep(digits, current, tokens, i);
      match Step(digits, current, token)
      case Absent => return Answered(false);
      case Raises => return Raised;
      case Found(next) => current := next;
    }
    r := Answered(true);
  }

  /** The walk arrives at a list with a token that passes for digits and is not a decimal numeral. */
  ghost predicate StumblesAt(digits: Digits, document: Value, tokens: seq<string>, i: int) {
    && 0 <= i < |tokens|
    && Walk(digits, document, tokens[..i]).Found? && Walk(digits, document, tokens[..i]).value.Array?
    && PassesForDigits(digits, tokens[i]) && (|tokens[i]| > 4300 || !AllDecimal(digits, tokens[i]))
  }

  /** `str.isdigit`: some character, and every one a digit of some kind. */
  predicate PassesForDigits(digits: Digits, token: string) {
    token != "" && forall i :: 0 <= i < |token| ==> digits(token[i]).Decimal? || digits(token[i]).OtherDigit?
  }

  /** Exactly when the resolver raises instead of answering. */
  lemma {:induction false} RaisesIff(digits: Digits, document: Value, tokens: seq<string>)
    ensures Walk(digits, document, tokens).Raises? <==> exists i :: StumblesAt(digits, document, tokens, i)
    decreases |tokens|
  {
    if tokens == [] {
      assert forall i :: !StumblesAt(digits, document, tokens, i);
    } else {
      assert tokens[..0] == [];
      var step := Step(digits, document, tokens[0]);
      if step.Found? {
        var rest := tokens[1..];
        RaisesIff(digits, step.value, rest);
        forall i | 0 < i < |tokens|
          ensures Walk(digits, document, tokens[..i]) == Walk(digits, step.value, rest[..i - 1])
        {
          assert tokens[..i][1..] == rest[..i - 1];
        }
        if i :| StumblesAt(digits, step.value, rest, i) {
          assert StumblesAt(digits, document, tokens, i + 1);
        }
        if i :| StumblesAt(digits, document, tokens, i) {
          assert i > 0;
          assert StumblesAt(digits, step.value, rest, i - 1);
        }
      } else {
        forall i | 0 < i < |tokens|
          ensures !Walk(digits, document, tokens[..i]).Found?
        {
          assert tokens[..i][0] == tokens[0];
        }
        if step.Raises? {
          assert StumblesAt(digits, document, tokens, 0);
        }
      }
    }
  }

  function EscapeAll(tokens: seq<string>): seq<string> {
    seq(|tokens|, i requires 0 <= i < |tokens| => Escape(tokens[i]))
  }

  /** Splitting a printed pointer gives back the escaped tokens. */
  lemma {:induction false} SplitJoined(tokens: seq<string>)
    requires tokens != []
    ensures Split(Join(tokens), '/') == EscapeAll(tokens)
    decreases |tokens|
  {
    EscapeRoundTrip(tokens[0]);
    EscapeAllSplits(tokens);
    if |tokens| == 1 {
      SplitPiece(Escape(tokens[0]), "", '/');
    } else {
      SplitJoined(tokens[1..]);
      SplitPiece(Escape(tokens[0]), Join(tokens[1..]), '/');
    }
  }

  lemma EscapeAllSplits(tokens: seq<string>)
    requires tokens != []
    ensures EscapeAll(tokens) == [Escape(tokens[0])] + EscapeAll(tokens[1..])
    ensures tokens[1..] == [] ==> EscapeAll(tokens) == [Escape(tokens[0])]
  {
  }

  lemma DecodeEscaped(tokens: seq<string>)
    ensures DecodeAll(EscapeAll(tokens)) == tokens
  {
    forall i | 0 <= i < |tokens|
      ensures Decode(Escape(tokens[i])) == tokens[i]
    {
      EscapeRoundTrip(tokens[i]);
    }
  }

  /** Resolving the printed form of any token list comes to exactly what walking the list comes to:
      the same target, nothing, or an exception. */
  lemma PrintedPointerResolves(digits: Digits, document: Value, tokens: seq<string>)
    ensures Resolve(digits, document, Print(tokens)) == Walk(digits, document, tokens)
  {
    if tokens != [] {
      SplitJoined(tokens);
      DecodeEscaped(tokens);
      assert Print(tokens)[1..] == Join(tokens);
    }
  }

  // ------------------------------------------------------------------ what is found

  /** The token names the child: as a key, the first member under it; as an index, the item at it. */
  ghost predicate IsChild(digits: Digits, parent: Value, token: string, child: Value) {
    match parent
    case Object(members) => exists i :: FirstUnder(members, token, child, i)
    case Array(items) =>
      && 0 < |token| <= 4300 && AllDecimal(digits, token) && ToNat(digits, token) < |items|
      && child == items[ToNat(digits, token)]
    case _ => false
  }

  predicate FirstUnder(members: seq<Member>, key: string, value: Value, i: int) {
    0 <= i < |members| && members[i] == Member(key, value) && forall j :: 0 <= j < i ==> members[j].key != key
  }

  lemma {:induction false} LookupIsFirst(members: seq<Member>, key: string, value: Value)
    ensures Lookup(members, key) == Some(value) <==> exists i :: FirstUnder(members, key, value, i)
  {
    if members == [] {
    } else if members[0].key == key {
      assert members[0].value == value ==> FirstUnder(members, key, value, 0);
    } else {
      var rest := members[1..];
      LookupIsFirst(rest, key, value);
      if i :| FirstUnder(rest, key, value, i) {
        assert FirstUnder(members, key, value, i + 1);
      }
      if i :| FirstUnder(members, key, value, i) {
        assert i > 0;
        assert FirstUnder(rest, key, value, i - 1);
      }
    }
  }

  lemma StepFindsChild(digits: Digits, parent: Value, token: string, child: Value)
    ensures Step(digits, parent, token) == Found(child) <==> IsChild(digits, parent, token, child)
  {
    if parent.Object? {
      LookupIsFirst(parent.members, token, child);
    }
  }

  /** Each value is the child of the one before that its token names. */
  ghost predicate IsChain(digits: Digits, values: seq<Value>, tokens: seq<string>) {
    && |values| == |tokens| + 1
    && forall i :: 0 <= i < |tokens| ==> IsChild(digits, values[i], tokens[i], values[i + 1])
  }

  ghost predicate LeadsTo(digits: Digits, document: Value, tokens: seq<string>, target: Value) {
    exists values :: IsChain(digits, values, tokens) && values[0] == document && values[|tokens|] == target
  }

  lemma ChainExtends(digits: Digits, document: Value, token: string, next: Value, tokens: seq<string>, target: Value)
    requires IsChild(digits, document, token, next) && LeadsTo(digits, next, tokens, target)
    ensures LeadsTo(digits, document, [token] + tokens, target)
  {
    var values :| IsChain(digits, values, tokens) && values[0] == next && values[|tokens|] == target;
    var longer := [document] + values;
    forall i | 0 <= i < |tokens| + 1
      ensures IsChild(digits, longer[i], ([token] + tokens)[i], longer[i + 1])
    {
      assert i > 0 ==> longer[i] == values[i - 1] && ([token] + tokens)[i] == tokens[i - 1];
    }
    assert IsChain(digits, longer, [token] + tokens);
  }

  /** The walk finds a value exactly when a chain of named children leads from the document to it. */
  lemma {:induction false} WalkFindsIff(digits: Digits, document: Value, tokens: seq<string>, target: Value)
    ensures Walk(digits, document, tokens) == Found(target) <==> LeadsTo(digits, document, tokens, target)
    decreases |tokens|
  {
    if tokens == [] {
      assert document == target ==> IsChain(digits, [document], tokens);
    } else {
      var rest := tokens[1..];
      assert tokens == [tokens[0]] + rest;
      if Walk(digits, document, tokens) == Found(target) {
        var next := Step(digits, document, tokens[0]).value;
        StepFindsChild(digits, document, tokens[0], next);
        WalkFindsIff(digits, next, rest, target);
        ChainExtends(digits, document, tokens[0], next, rest, target);
      }
      if values :| IsChain(digits, values, tokens) && values[0] == document && values[|tokens|] == target {
        StepFindsChild(digits, document, tokens[0], values[1]);
        assert IsChain(digits, values[1..], rest);
        WalkFindsIff(digits, values[1], rest, target);
      }
    }
  }

  // ------------------------------------------------------------------ array indices

  /** Section 4 of RFC 6901: ASCII digits without a leading zero. */
  predicate StrictIndex(token: string) {
    && token != "" && (forall i :: 0 <= i < |token| ==> IsAsciiDigit(token[i]))
    && (|token| > 1 ==> token[0] != '0')
  }

  function StrictWalk(digits: Digits, current: Value, tokens: seq<string>): Reached
    decreases |tokens|
  {
    if tokens == [] then Found(current)
    else if current.Array? && !StrictIndex(tokens[0]) then Absent
    else
      match Step(digits, current, tokens[0])
      case Found(next) => StrictWalk(digits, next, tokens[1..])
      case stopped => stopped
  }

  /** Some list on the way is indexed otherwise than the standard allows. */
  predicate IndexesLoosely(digits: Digits, current: Value, tokens: seq<string>)
    decreases |tokens|
  {
    && tokens != []
    && (|| (current.Array? && !StrictIndex(tokens[0]))
        || (Step(digits, current, tokens[0]).Found?
            && IndexesLoosely(digits, Step(digits, current, tokens[0]).value, tokens[1..])))
  }

  /** Exactly where the code is more lenient than the standard: a target it finds is also found by
      the strict evaluation unless a list was indexed with a leading zero or with other digits. */
  lemma {:induction false} LenientOnlyOnLooseIndices(digits: Digits, current: Value, tokens: seq<string>)
    ensures Walk(digits, current, tokens).Found? ==>
      (StrictWalk(digits, current, tokens) == Walk(digits, current, tokens) <==>
        !IndexesLoosely(digits, current, tokens))
    ensures StrictWalk(digits, current, tokens).Found? ==>
      Walk(digits, current, tokens) == StrictWalk(digits, current, tokens)
    decreases |tokens|
  {
    if tokens != [] && Step(digits, current, tokens[0]).Found? {
      LenientOnlyOnLooseIndices(digits, Step(digits, current, tokens[0]).value, tokens[1..]);
    }
  }

  /** The leniency on every list: zeros before an index change nothing. */
  lemma {:induction false} LeadingZerosAreAccepted(digits: Digits, items: seq<Value>, zeros: nat, n: nat)
    requires ExtendsAscii(digits) && zeros + |OfNat(n)| <= MAX_DIGITS
    ensures Walk(digits, Array(items), [Zeros(zeros) + OfNat(n)]) == if n < |items| then Found(items[n]) else Absent
    ensures zeros > 0 ==> StrictWalk(digits, Array(items), [Zeros(zeros) + OfNat(n)]) == Absent
  {
    var token := Zeros(zeros) + OfNat(n);
    NumeralRoundTrip(digits, n);
    ZerosAddNothing(digits, zeros, OfNat(n));
    assert ReadNumeral(digits, token) == Numeral.Number(n);
    var tokens: seq<string> := [token];
    assert tokens[1..] == [];
    if zeros > 0 {
      assert token[0] == '0';
    }
  }

  function Zeros(n: nat): string {
    seq(n, _ => '0')
  }

  lemma {:induction false} ZerosAddNothing(digits: Digits, zeros: nat, s: string)
    requires ExtendsAscii(digits) && AllDecimal(digits, s)
    ensures AllDecimal(digits, Zeros(zeros) + s) && ToNat(digits, Zeros(zeros) + s) == ToNat(digits, s)
    decreases zeros + |s|
  {
    var all := Zeros(zeros) + s;
    assert digits(DigitOf(0)) == Decimal(0);
    if s != "" {
      ZerosAddNothing(digits, zeros, s[..|s| - 1]);
      assert all[..|all| - 1] == Zeros(zeros) + s[..|s| - 1];
    } else if zeros > 0 {
      ZerosAddNothing(digits, zeros - 1, s);
      assert all[..|all| - 1] == Zeros(zeros - 1) + s;
    } else {
      assert all == s;
    }
  }

  // ------------------------------------------------------------------ the simpler resolver

  /** `target = target[part]`: a missing key raises KeyError and anything but a mapping raises
      TypeError, both of which the caller reports as unresolved. */
  function SimpleWalk(current: Value, parts: seq<string>): Option<Value>
    decreases |parts|
  {
    if parts == [] then Some(current)
    else if !current.Object? || Lookup(current.members, parts[0]).None? then None
    else SimpleWalk(Lookup(current.members, parts[0]).value, parts[1..])
  }

  /** The local-reference branch of the run contract's `check_openapi`. */
  method ResolveLocalRef(document: Value, ref: string) returns (found: bool)
    requires |ref| >= 2 && ref[..2] == "#/"
    ensures found <==> SimpleWalk(document, Split(ref[2..], '/')).Some?
  {
    var parts := Split(ref[2..], '/');
    var target := document;
    for i := 0 to |parts|
      invariant SimpleWalk(document, parts) == SimpleWalk(target, parts[i..])
    {
      assert parts[i..][0] == parts[i] && parts[i..][1..] == parts[i + 1..];
      if !target.Object? {
        return false;
      }
      var next := Lookup(target.members, parts[i]);
      if next.None? {
        return false;
      }
      target := next.value;
    }
    found := true;
  }

  /** The walk never indexes a list. */
  predicate ThroughMappings(current: Value, tokens: seq<string>)
    decreases |tokens|
  {
    || tokens == []
    || (&& !current.Array?
        && (current.Object? && Lookup(current.members, tokens[0]).Some? ==>
              ThroughMappings(Lookup(current.members, tokens[0]).value, tokens[1..])))
  }

  lemma {:induction false} SimpleWalkIsWalkThroughMappings(digits: Digits, current: Value, tokens: seq<string>)
    ensures SimpleWalk(current, tokens).Some? <==>
      ThroughMappings(current, tokens) && Walk(digits, current, tokens).Found?
    ensures SimpleWalk(current, tokens).Some? ==>
      Walk(digits, current, tokens) == Found(SimpleWalk(current, tokens).value)
    decreases |tokens|
  {
    if tokens != [] && current.Object? && Lookup(current.members, tokens[0]).Some? {
      SimpleWalkIsWalkThroughMappings(digits, Lookup(current.members, tokens[0]).value, tokens[1..]);
    }
  }

  lemma {:induction false} PiecesStayPlain(s: string, sep: char, c: char)
    requires c !in s
    ensures forall i :: 0 <= i < |Split(s, sep)| ==> c !in Split(s, sep)[i]
  {
    if s == "" {
    } else {
      PiecesStayPlain(s[1..], sep, c);
    }
  }

  /** On references without `~` the two resolvers agree exactly on walks through mappings: the
      simpler one finds a target if and only if the pointer does and no list is crossed. */
  lemma ResolversAgreeThroughMappings(digits: Digits, document: Value, path: string)
    requires '~' !in path
    ensures var simple := SimpleWalk(document, Split(path, '/'));
      && (simple.Some? <==> ThroughMappings(document, Split(path, '/')) && Resolve(digits, document, "/" + path).Found?)
      && (simple.Some? ==> Resolve(digits, document, "/" + path) == Found(simple.value))
  {
    var parts := Split(path, '/');
    PiecesStayPlain(path, '/', '~');
    forall i | 0 <= i < |parts|
      ensures Decode(parts[i]) == parts[i]
    {
      DecodePlain(parts[i]);
    }
    assert DecodeAll(parts) == parts;
    assert ("/" + path)[1..] == path;
    SimpleWalkIsWalkThroughMappings(digits, document, parts);
  }
}
