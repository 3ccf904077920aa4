/** What a JSON Schema document accepts: the applicators the public schemas use, over an arbitrary
meaning of the remaining assertion keywords, which only ever reject more. */
module JsonSchema {
  import opened Options
  import opened Json
  import JsonPointer
  import Text

  /** A keyword may loop through `$ref` without consuming the instance: such an evaluation, like
      one whose budget ends, has no verdict. */
  datatype Verdict = Accept | Reject | NoVerdict

  /** The keywords not spelled out: `assertion` holds of the schema and the instance, and
      `matchesPattern` tells whether `patternProperties` covers a key. `registry` holds the schema
      documents by their identifiers. */
  datatype Keywords = Keywords(
    assertion: (Value, Value) -> bool, matchesPattern: (Value, string) -> bool, registry: map<string, Value>)

  function Judge(b: bool): Verdict {
    if b then Accept else Reject
  }

  function All(vs: seq<Verdict>): Verdict {
    if NoVerdict in vs then NoVerdict else Judge(Reject !in vs)
  }

  function Accepted(vs: seq<Verdict>): nat {
    if vs == [] then 0 else (if vs[0] == Accept then 1 else 0) + Accepted(vs[1..])
  }

  function ExactlyOne(vs: seq<Verdict>): Verdict {
    if NoVerdict in vs then NoVerdict else Judge(Accepted(vs) == 1)
  }

  function AtLeastOne(vs: seq<Verdict>): Verdict {
    if NoVerdict in vs then NoVerdict else Judge(Accept in vs)
  }

  predicate HasType(name: string, v: Value) {
    match v
    case Null => name == "null"
    case Bool(_) => name == "boolean"
    case Number(n) => name == "number" || (name == "integer" && n == n.Floor as real)
    case String(_) => name == "string"
    case Array(_) => name == "array"
    case Object(_) => name == "object"
  }

  predicate TypeHolds(s: Value, v: Value) {
    match Get(s, "type")
    case Some(String(name)) => HasType(name, v)
    case Some(Array(names)) => exists i :: 0 <= i < |names| && names[i].String? && HasType(names[i].s, v)
    case _ => true
  }

  /** `enum` and `const`, when they list scalars; otherwise they count as other keywords. */
  predicate ListedHolds(s: Value, v: Value) {
    && (match Get(s, "enum")
        case Some(Array(items)) => (forall i :: 0 <= i < |items| ==> IsScalar(items[i])) ==> v in items
        case _ => true)
    && (match Get(s, "const")
        case Some(c) => IsScalar(c) ==> v == c
        case None => true)
  }

  /** The schema that judges the value under `key`: its property, else `additionalProperties`
      unless a pattern covers the key. */
  function MemberSchema(kw: Keywords, s: Value, key: string): Option<Value> {
    match Get(s, "properties")
    case Some(Object(ps)) =>
      if Lookup(ps, key).Some? then Lookup(ps, key)
      else if Get(s, "patternProperties").Some? && kw.matchesPattern(s, key) then None
      else Get(s, "additionalProperties")
    case _ =>
      if Get(s, "patternProperties").Some? && kw.matchesPattern(s, key) then None
      else Get(s, "additionalProperties")
  }

  /** The verdict of schema `s` on `v`, with `fuel` bounding the nesting of evaluations. */
  function Evaluate(kw: Keywords, root: Value, fuel: nat, s: Value, v: Value): Verdict
    decreases fuel, 0
  {
    if fuel == 0 then NoVerdict
    else
      match s
      case Bool(b) => Judge(b)
      case Object(_) => OfKeywords(kw, root, fuel - 1, s, v)
      case _ => Reject
  }

  function OfKeywords(kw: Keywords, root: Value, fuel: nat, s: Value, v: Value): Verdict
    decreases fuel, 4
  {
    All(KeywordVerdicts(kw, root, fuel, s, v))
  }

  /** One verdict per keyword of an object schema. */
  function KeywordVerdicts(kw: Keywords, root: Value, fuel: nat, s: Value, v: Value): seq<Verdict>
    decreases fuel, 3
  {
    [Judge(TypeHolds(s, v)), Judge(ListedHolds(s, v)), Judge(kw.assertion(s, v)),
     OfMembers(kw, root, fuel, s, v), OfItems(kw, root, fuel, s, v), OfRef(kw, root, fuel, s, v),
     OfOneOf(kw, root, fuel, s, v), OfAnyOf(kw, root, fuel, s, v), OfAllOf(kw, root, fuel, s, v),
     OfCondition(kw, root, fuel, s, v), OfPrefixItems(kw, root, fuel, s, v)]
  }

  function OfMembers(kw: Keywords, root: Value, fuel: nat, s: Value, v: Value): Verdict
    decreases fuel, 2
  {
    if v.Object? then All(MemberVerdicts(kw, root, fuel, s, v.members)) else Accept
  }

  function MemberVerdicts(kw: Keywords, root: Value, fuel: nat, s: Value, ms: seq<Member>): seq<Verdict>
    decreases fuel, 1
  {
    seq(|ms|, i requires 0 <= i < |ms| =>
      match MemberSchema(kw, s, ms[i].key)
      case Some(sub) => Evaluate(kw, root, fuel, sub, ms[i].value)
      case None => Accept)
  }

  /** The schemas of `prefixItems`, which judge the first items one by one. */
  function PrefixOf(s: Value): (r: seq<Value>)
    ensures forall i :: 0 <= i < |r| ==> r[i] < s
    ensures r != [] ==> Get(s, "prefixItems") == Some(Array(r))
  {
    match Get(s, "prefixItems")
    case Some(Array(subs)) => subs
    case _ => []
  }

  /** `items` judges what `prefixItems` leaves. */
  function OfItems(kw: Keywords, root: Value, fuel: nat, s: Value, v: Value): Verdict
    decreases fuel, 2
  {
    match Get(s, "items")
    case Some(sub) =>
      if v.Array? && |PrefixOf(s)| <= |v.items| then All(ItemVerdicts(kw, root, fuel, sub, v.items[|PrefixOf(s)|..]))
      else Accept
    case None => Accept
  }

  function OfPrefixItems(kw: Keywords, root: Value, fuel: nat, s: Value, v: Value): Verdict
    decreases fuel, 2
  {
    if v.Array? then All(PrefixVerdicts(kw, root, fuel, PrefixOf(s), v.items)) else Accept
  }

  function PrefixVerdicts(kw: Keywords, root: Value, fuel: nat, subs: seq<Value>, vs: seq<Value>): seq<Verdict>
    decreases fuel, 1
  {
    var n := if |subs| < |vs| then |subs| else |vs|;
    seq(n, i requires 0 <= i < n => Evaluate(kw, root, fuel, subs[i], vs[i]))
  }

  function ItemVerdicts(kw: Keywords, root: Value, fuel: nat, s: Value, vs: seq<Value>): seq<Verdict>
    decreases fuel, 1
  {
    seq(|vs|, i requires 0 <= i < |vs| => Evaluate(kw, root, fuel, s, vs[i]))
  }

  /** A schema and the document it lies in. */
  datatype Target = Target(root: Value, schema: Value)

  /** What a reference names: by JSON Pointer in its own document, or a whole registered document. */
  function RefTarget(registry: map<string, Value>, root: Value, s: Value): Option<Target> {
    match Get(s, "$ref")
    case Some(String(ref)) =>
      if ref != "" && ref[0] == '#' then
        (match JsonPointer.Resolve(Text.ASCII, root, ref[1..])
         case Found(v) => Some(Target(root, v))
         case _ => None)
      else if ref in registry then Some(Target(registry[ref], registry[ref]))
      else None
    case _ => None
  }

  function OfRef(kw: Keywords, root: Value, fuel: nat, s: Value, v: Value): Verdict
    decreases fuel, 2
  {
    if Get(s, "$ref").None? then Accept
    else
      match RefTarget(kw.registry, root, s)
      case None => NoVerdict
      case Some(t) => Evaluate(kw, t.root, fuel, t.schema, v)
  }

  function Branches(kw: Keywords, root: Value, fuel: nat, subs: seq<Value>, v: Value): seq<Verdict>
    decreases fuel, 1
  {
    seq(|subs|, i requires 0 <= i < |subs| => Evaluate(kw, root, fuel, subs[i], v))
  }

  function OfOneOf(kw: Keywords, root: Value, fuel: nat, s: Value, v: Value): Verdict
    decreases fuel, 2
  {
    match Get(s, "oneOf")
    case Some(Array(subs)) => ExactlyOne(Branches(kw, root, fuel, subs, v))
    case _ => Accept
  }

  function OfAnyOf(kw: Keywords, root: Value, fuel: nat, s: Value, v: Value): Verdict
    decreases fuel, 2
  {
    match Get(s, "anyOf")
    case Some(Array(subs)) => AtLeastOne(Branches(kw, root, fuel, subs, v))
    case _ => Accept
  }

  function OfAllOf(kw: Keywords, root: Value, fuel: nat, s: Value, v: Value): Verdict
    decreases fuel, 2
  {
    match Get(s, "allOf")
    case Some(Array(subs)) => All(Branches(kw, root, fuel, subs, v))
    case _ => Accept
  }

  function OfCondition(kw: Keywords, root: Value, fuel: nat, s: Value, v: Value): Verdict
    decreases fuel, 2
  {
    match Get(s, "if")
    case None => Accept
    case Some(test) =>
      match Evaluate(kw, root, fuel, test, v)
      case NoVerdict => NoVerdict
      case Accept => OfOptional(kw, root, fuel, Get(s, "then"), v)
      case Reject => OfOptional(kw, root, fuel, Get(s, "else"), v)
  }

  function OfOptional(kw: Keywords, root: Value, fuel: nat, sub: Option<Value>, v: Value): Verdict
    decreases fuel, 1
  {
    match sub
    case Some(s) => Evaluate(kw, root, fuel, s, v)
    case None => Accept
  }

  // ------------------------------------------------------------------ reading a verdict

  lemma AllAccepts(vs: seq<Verdict>, i: nat)
    requires All(vs) == Accept && i < |vs|
    ensures vs[i] == Accept
  {
    assert vs[i] in vs;
  }

  lemma {:induction false} SomeAccepted(vs: seq<Verdict>)
    requires Accepted(vs) > 0
    ensures Accept in vs
  {
    if vs[0] != Accept {
      SomeAccepted(vs[1..]);
    }
  }

  /** What an accepting object schema has established, keyword by keyword. */
  lemma AcceptedMeansEachKeyword(kw: Keywords, root: Value, fuel: nat, s: Value, v: Value)
    requires fuel > 0 && s.Object? && Evaluate(kw, root, fuel, s, v) == Accept
    ensures TypeHolds(s, v) && ListedHolds(s, v)
    ensures OfMembers(kw, root, fuel - 1, s, v) == Accept && OfItems(kw, root, fuel - 1, s, v) == Accept
    ensures OfPrefixItems(kw, root, fuel - 1, s, v) == Accept
    ensures OfRef(kw, root, fuel - 1, s, v) == Accept
    ensures OfOneOf(kw, root, fuel - 1, s, v) == Accept && OfAnyOf(kw, root, fuel - 1, s, v) == Accept
  {
    var vs := KeywordVerdicts(kw, root, fuel - 1, s, v);
    AllAccepts(vs, 0);
    AllAccepts(vs, 1);
    AllAccepts(vs, 3);
    AllAccepts(vs, 4);
    AllAccepts(vs, 5);
    AllAccepts(vs, 6);
    AllAccepts(vs, 7);
    AllAccepts(vs, 10);
  }

  /** An accepted union accepted one of its alternatives. */
  lemma AcceptedByAnAlternative(kw: Keywords, root: Value, fuel: nat, subs: seq<Value>, v: Value) returns (i: nat)
    requires
      || ExactlyOne(Branches(kw, root, fuel, subs, v)) == Accept
      || AtLeastOne(Branches(kw, root, fuel, subs, v)) == Accept
    ensures i < |subs| && Evaluate(kw, root, fuel, subs[i], v) == Accept
  {
    var vs := Branches(kw, root, fuel, subs, v);
    if ExactlyOne(vs) == Accept {
      SomeAccepted(vs);
    }
    i :| 0 <= i < |vs| && vs[i] == Accept;
  }

  // ------------------------------------------------------------------ the budget does not matter

  /** A verdict once reached stays the same with any larger budget. */
  lemma {:induction false} MoreFuelSameVerdict(kw: Keywords, root: Value, fuel: nat, more: nat, s: Value, v: Value)
    requires fuel <= more && Evaluate(kw, root, fuel, s, v) != NoVerdict
    ensures Evaluate(kw, root, more, s, v) == Evaluate(kw, root, fuel, s, v)
    decreases fuel, 0
  {
    if s.Object? {
      KeywordsStay(kw, root, fuel - 1, more - 1, s, v);
    }
  }

  lemma {:induction false} KeywordsStay(kw: Keywords, root: Value, fuel: nat, more: nat, s: Value, v: Value)
    requires fuel <= more && OfKeywords(kw, root, fuel, s, v) != NoVerdict
    ensures OfKeywords(kw, root, more, s, v) == OfKeywords(kw, root, fuel, s, v)
    decreases fuel, 3
  {
    var vs := KeywordVerdicts(kw, root, fuel, s, v);
    assert vs[3] in vs && vs[4] in vs && vs[5] in vs && vs[6] in vs && vs[7] in vs && vs[8] in vs && vs[9] in vs;
    assert vs[10] in vs;
    MembersKeywordStays(kw, root, fuel, more, s, v);
    ItemsKeywordStays(kw, root, fuel, more, s, v);
    PrefixKeywordStays(kw, root, fuel, more, s, v);
    RefStays(kw, root, fuel, more, s, v);
    OneOfStays(kw, root, fuel, more, s, v);
    AnyOfStays(kw, root, fuel, more, s, v);
    AllOfStays(kw, root, fuel, more, s, v);
    ConditionStays(kw, root, fuel, more, s, v);
  }

  lemma {:induction false} MembersKeywordStays(kw: Keywords, root: Value, fuel: nat, more: nat, s: Value, v: Value)
    requires fuel <= more && OfMembers(kw, root, fuel, s, v) != NoVerdict
    ensures OfMembers(kw, root, more, s, v) == OfMembers(kw, root, fuel, s, v)
    decreases fuel, 2
  {
    if v.Object? {
      MembersStay(kw, root, fuel, more, s, v.members);
    }
  }

  lemma {:induction false} ItemsKeywordStays(kw: Keywords, root: Value, fuel: nat, more: nat, s: Value, v: Value)
    requires fuel <= more && OfItems(kw, root, fuel, s, v) != NoVerdict
    ensures OfItems(kw, root, more, s, v) == OfItems(kw, root, fuel, s, v)
    decreases fuel, 2
  {
    if v.Array? && Get(s, "items").Some? && |PrefixOf(s)| <= |v.items| {
      ItemsStay(kw, root, fuel, more, Get(s, "items").value, v.items[|PrefixOf(s)|..]);
    }
  }

  lemma {:induction false} PrefixKeywordStays(kw: Keywords, root: Value, fuel: nat, more: nat, s: Value, v: Value)
    requires fuel <= more && OfPrefixItems(kw, root, fuel, s, v) != NoVerdict
    ensures OfPrefixItems(kw, root, more, s, v) == OfPrefixItems(kw, root, fuel, s, v)
    decreases fuel, 2
  {
    if v.Array? {
      PrefixStays(kw, root, fuel, more, PrefixOf(s), v.items);
    }
  }

  lemma {:induction false} PrefixStays(kw: Keywords, root: Value, fuel: nat, more: nat, subs: seq<Value>,
      vs: seq<Value>)
    requires fuel <= more && NoVerdict !in PrefixVerdicts(kw, root, fuel, subs, vs)
    ensures PrefixVerdicts(kw, root, more, subs, vs) == PrefixVerdicts(kw, root, fuel, subs, vs)
    decreases fuel, 1
  {
    var us := PrefixVerdicts(kw, root, fuel, subs, vs);
    forall i | 0 <= i < |us|
      ensures PrefixVerdicts(kw, root, more, subs, vs)[i] == us[i]
    {
      assert us[i] != NoVerdict;
      MoreFuelSameVerdict(kw, root, fuel, more, subs[i], vs[i]);
    }
  }

  lemma {:induction false} RefStays(kw: Keywords, root: Value, fuel: nat, more: nat, s: Value, v: Value)
    requires fuel <= more && OfRef(kw, root, fuel, s, v) != NoVerdict
    ensures OfRef(kw, root, more, s, v) == OfRef(kw, root, fuel, s, v)
    decreases fuel, 2
  {
    if Get(s, "$ref").Some? {
      var t := RefTarget(kw.registry, root, s).value;
      MoreFuelSameVerdict(kw, t.root, fuel, more, t.schema, v);
    }
  }

  lemma {:induction false} MembersStay(kw: Keywords, root: Value, fuel: nat, more: nat, s: Value, ms: seq<Member>)
    requires fuel <= more && NoVerdict !in MemberVerdicts(kw, root, fuel, s, ms)
    ensures MemberVerdicts(kw, root, more, s, ms) == MemberVerdicts(kw, root, fuel, s, ms)
    decreases fuel, 1
  {
    var vs := MemberVerdicts(kw, root, fuel, s, ms);
    forall i | 0 <= i < |ms|
      ensures MemberVerdicts(kw, root, more, s, ms)[i] == vs[i]
    {
      assert vs[i] != NoVerdict;
      var sub := MemberSchema(kw, s, ms[i].key);
      if sub.Some? {
        MoreFuelSameVerdict(kw, root, fuel, more, sub.value, ms[i].value);
      }
    }
  }

  lemma {:induction false} ItemsStay(kw: Keywords, root: Value, fuel: nat, more: nat, s: Value, items: seq<Value>)
    requires fuel <= more && NoVerdict !in ItemVerdicts(kw, root, fuel, s, items)
    ensures ItemVerdicts(kw, root, more, s, items) == ItemVerdicts(kw, root, fuel, s, items)
    decreases fuel, 1
  {
    var vs := ItemVerdicts(kw, root, fuel, s, items);
    forall i | 0 <= i < |items|
      ensures ItemVerdicts(kw, root, more, s, items)[i] == vs[i]
    {
      assert vs[i] != NoVerdict;
      MoreFuelSameVerdict(kw, root, fuel, more, s, items[i]);
    }
  }

  lemma {:induction false} BranchesStay(kw: Keywords, root: Value, fuel: nat, more: nat, subs: seq<Value>, v: Value)
    requires fuel <= more && NoVerdict !in Branches(kw, root, fuel, subs, v)
    ensures Branches(kw, root, more, subs, v) == Branches(kw, root, fuel, subs, v)
    decreases fuel, 1
  {
    var vs := Branches(kw, root, fuel, subs, v);
    forall i | 0 <= i < |subs|
      ensures Branches(kw, root, more, subs, v)[i] == vs[i]
    {
      assert vs[i] != NoVerdict;
      MoreFuelSameVerdict(kw, root, fuel, more, subs[i], v);
    }
  }

  lemma {:induction false} OneOfStays(kw: Keywords, root: Value, fuel: nat, more: nat, s: Value, v: Value)
    requires fuel <= more && OfOneOf(kw, root, fuel, s, v) != NoVerdict
    ensures OfOneOf(kw, root, more, s, v) == OfOneOf(kw, root, fuel, s, v)
    decreases fuel, 2
  {
    if Get(s, "oneOf").Some? && Get(s, "oneOf").value.Array? {
      BranchesStay(kw, root, fuel, more, Get(s, "oneOf").value.items, v);
    }
  }

  lemma {:induction false} AnyOfStays(kw: Keywords, root: Value, fuel: nat, more: nat, s: Value, v: Value)
    requires fuel <= more && OfAnyOf(kw, root, fuel, s, v) != NoVerdict
    ensures OfAnyOf(kw, root, more, s, v) == OfAnyOf(kw, root, fuel, s, v)
    decreases fuel, 2
  {
    if Get(s, "anyOf").Some? && Get(s, "anyOf").value.Array? {
      BranchesStay(kw, root, fuel, more, Get(s, "anyOf").value.items, v);
    }
  }

  lemma {:induction false} AllOfStays(kw: Keywords, root: Value, fuel: nat, more: nat, s: Value, v: Value)
    requires fuel <= more && OfAllOf(kw, root, fuel, s, v) != NoVerdict
    ensures OfAllOf(kw, root, more, s, v) == OfAllOf(kw, root, fuel, s, v)
    decreases fuel, 2
  {
    if Get(s, "allOf").Some? && Get(s, "allOf").value.Array? {
      BranchesStay(kw, root, fuel, more, Get(s, "allOf").value.items, v);
    }
  }

  lemma {:induction false} ConditionStays(kw: Keywords, root: Value, fuel: nat, more: nat, s: Value, v: Value)
    requires fuel <= more && OfCondition(kw, root, fuel, s, v) != NoVerdict
    ensures OfCondition(kw, root, more, s, v) == OfCondition(kw, root, fuel, s, v)
    decreases fuel, 2
  {
    if Get(s, "if").Some? {
      MoreFuelSameVerdict(kw, root, fuel, more, Get(s, "if").value, v);
      if Evaluate(kw, root, fuel, Get(s, "if").value, v) == Accept {
        OptionalStays(kw, root, fuel, more, Get(s, "then"), v);
      } else {
        OptionalStays(kw, root, fuel, more, Get(s, "else"), v);
      }
    }
  }

  lemma {:induction false} OptionalStays(kw: Keywords, root: Value, fuel: nat, more: nat, sub: Option<Value>, v: Value)
    requires fuel <= more && OfOptional(kw, root, fuel, sub, v) != NoVerdict
    ensures OfOptional(kw, root, more, sub, v) == OfOptional(kw, root, fuel, sub, v)
    decreases fuel, 1
  {
    if sub.Some? {
      MoreFuelSameVerdict(kw, root, fuel, more, sub.value, v);
    }
  }
}
