/** The safe-projection audit of the public schemas: it walks every schema and fails closed, and a
schema it passes admits only instances made of allow-listed keys (`scripts/validate_run_api.py`). */
module SafeProjection {
  import opened Options
  import opened Json
  import opened JsonSchema
  import opened OpenObjects
  import opened SchemaPositions

  // ------------------------------------------------------------------ declared names

  /** Every property name a schema declares, at any depth. */
  function Declared(node: Value): set<string>
    decreases node, 1
  {
    match node
    case Object(ms) =>
      (match Get(node, PROPERTIES)
       case Some(Object(ps)) => KeysOf(ps) + NamesIn(ps, false)
       case _ => {})
      + NamesIn(ms, true)
    case Array(items) => NamesInAll(items)
    case _ => {}
  }

  /** The names declared under the members, `properties` itself skipped on demand. */
  function NamesIn(ms: seq<Member>, skip: bool): set<string>
    decreases ms, 0
  {
    if ms == [] then {}
    else (if skip && ms[0].key == PROPERTIES then {} else Declared(ms[0].value)) + NamesIn(ms[1..], skip)
  }

  function NamesInAll(items: seq<Value>): set<string>
    decreases items, 0
  {
    if items == [] then {} else Declared(items[0]) + NamesInAll(items[1..])
  }

  /** `_declared_property_names`: adds the declared names to `found`. */
  method CollectDeclared(node: Value, found: set<string>) returns (all: set<string>)
    ensures all == found + Declared(node)
    decreases node, 1
  {
    all := found;
    match node
    case Object(ms) =>
      var properties := Get(node, PROPERTIES);
      if properties.Some? && properties.value.Object? {
        all := CollectNames(properties.value.members, false, all + KeysOf(properties.value.members));
      }
      all := CollectNames(ms, true, all);
    case Array(items) =>
      for i := 0 to |items|
        invariant found + NamesInAll(items) == all + NamesInAll(items[i..])
      {
        all := CollectDeclared(items[i], all);
        assert items[i..][1..] == items[i + 1..];
      }
    case _ =>
  }

  method CollectNames(ms: seq<Member>, skip: bool, found: set<string>) returns (all: set<string>)
    ensures all == found + NamesIn(ms, skip)
    decreases ms, 0
  {
    all := found;
    for i := 0 to |ms|
      invariant found + NamesIn(ms, skip) == all + NamesIn(ms[i..], skip)
    {
      if !(skip && ms[i].key == PROPERTIES) {
        all := CollectDeclared(ms[i].value, all);
      }
      assert ms[i..][1..] == ms[i + 1..];
    }
  }

  lemma {:induction false} NamesUnderMember(ms: seq<Member>, skip: bool, i: nat)
    requires i < |ms| && !(skip && ms[i].key == PROPERTIES)
    ensures Declared(ms[i].value) <= NamesIn(ms, skip)
  {
    if i == 0 {
    } else {
      NamesUnderMember(ms[1..], skip, i - 1);
    }
  }

  lemma {:induction false} NamesUnderItem(items: seq<Value>, i: nat)
    requires i < |items|
    ensures Declared(items[i]) <= NamesInAll(items)
  {
    if i == 0 {
    } else {
      NamesUnderItem(items[1..], i - 1);
    }
  }

  lemma {:induction false} NamesInMeans(ms: seq<Member>, skip: bool, name: string)
    ensures name in NamesIn(ms, skip) <==>
      exists i :: 0 <= i < |ms| && !(skip && ms[i].key == PROPERTIES) && name in Declared(ms[i].value)
  {
    if ms == [] {
    } else {
      var rest := ms[1..];
      NamesInMeans(rest, skip, name);
      if i :| 0 <= i < |rest| && !(skip && rest[i].key == PROPERTIES) && name in Declared(rest[i].value) {
        assert rest[i] == ms[i + 1];
      }
      if i :| 0 < i < |ms| && !(skip && ms[i].key == PROPERTIES) && name in Declared(ms[i].value) {
        assert rest[i - 1] == ms[i];
      }
    }
  }

  lemma {:induction false} NamesInAllMeans(items: seq<Value>, name: string)
    ensures name in NamesInAll(items) <==> exists i :: 0 <= i < |items| && name in Declared(items[i])
  {
    if items == [] {
    } else {
      var rest := items[1..];
      NamesInAllMeans(rest, name);
      if i :| 0 <= i < |rest| && name in Declared(rest[i]) {
        assert rest[i] == items[i + 1];
      }
      if i :| 0 < i < |items| && name in Declared(items[i]) {
        assert rest[i - 1] == items[i];
      }
    }
  }

  /** Data without object schemas declares no name. */
  lemma {:induction false} NoObjectSchemasDeclareNothing(node: Value)
    requires NoObjectSchemas(node)
    ensures Declared(node) == {}
    decreases node
  {
    forall name
      ensures name !in Declared(node)
    {
      match node
      case Object(ms) =>
        NamesInMeans(ms, true, name);
        forall i | 0 <= i < |ms|
          ensures name !in Declared(ms[i].value)
        {
          NoObjectSchemasDeclareNothing(ms[i].value);
        }
      case Array(items) =>
        NamesInAllMeans(items, name);
        forall i | 0 <= i < |items|
          ensures name !in Declared(items[i])
        {
          NoObjectSchemasDeclareNothing(items[i]);
        }
      case _ =>
    }
  }

  /** Some schema of the document, at a schema position, has a property of this name. */
  ghost predicate DeclaresName(node: Value, name: string)
    decreases node, 1
  {
    match node
    case Object(ms) =>
      || (PropertiesOf(node).Some? && name in KeysOf(PropertiesOf(node).value))
      || exists i :: 0 <= i < |ms| && MemberDeclaresName(ms[i], name)
    case Array(items) => exists i :: 0 <= i < |items| && DeclaresName(items[i], name)
    case _ => false
  }

  ghost predicate MemberDeclaresName(m: Member, name: string)
    decreases m, 0
  {
    match RoleOf(m)
    case Named => exists j :: 0 <= j < |m.value.members| && DeclaresName(m.value.members[j].value, name)
    case Schemas => DeclaresName(m.value, name)
    case Data => false
  }

  /** On plain documents the collected names are exactly the properties of the schemas. */
  lemma {:induction false} DeclaredIsExactOnPlainDocuments(node: Value, name: string)
    requires PlainDocument(node)
    ensures name in Declared(node) <==> DeclaresName(node, name)
    decreases node, 1
  {
    match node
    case Object(ms) =>
      NamesInMeans(ms, true, name);
      if PropertiesOf(node).Some? {
        NamesInMeans(PropertiesOf(node).value, false, name);
      }
      forall i | 0 <= i < |ms|
        ensures MemberDeclaresName(ms[i], name) <==> MemberHas(ms[i], name)
      {
        PlainMemberDeclares(ms[i], name);
      }
      PropertiesAreAMember(node, name);
    case Array(items) =>
      NamesInAllMeans(items, name);
      forall i | 0 <= i < |items|
        ensures name in Declared(items[i]) <==> DeclaresName(items[i], name)
      {
        DeclaredIsExactOnPlainDocuments(items[i], name);
      }
    case _ =>
  }

  /** What the collection finds below a member: `properties` by its values, all else as a node. */
  ghost predicate MemberHas(m: Member, name: string) {
    if m.key == PROPERTIES then
      m.value.Object? && SomeMemberDeclared(m.value.members, name)
    else name in Declared(m.value)
  }

  ghost predicate SomeMemberDeclared(ms: seq<Member>, name: string) {
    exists j :: 0 <= j < |ms| && name in Declared(ms[j].value)
  }

  ghost predicate OtherMemberDeclared(ms: seq<Member>, name: string) {
    exists i :: 0 <= i < |ms| && ms[i].key != PROPERTIES && name in Declared(ms[i].value)
  }

  lemma PropertiesAreAMember(node: Value, name: string)
    requires node.Object? && forall i, j :: 0 <= i < j < |node.members| ==> node.members[i].key != node.members[j].key
    ensures (exists i :: 0 <= i < |node.members| && MemberHas(node.members[i], name)) <==>
      || (PropertiesOf(node).Some? && SomeMemberDeclared(PropertiesOf(node).value, name))
      || OtherMemberDeclared(node.members, name)
  {
    var ms := node.members;
    if k :| 0 <= k < |ms| && ms[k].key == PROPERTIES {
      assert Get(node, PROPERTIES).Some? by { assert PROPERTIES in KeysOf(ms); }
      var i :| 0 <= i < |ms| && ms[i] == Member(PROPERTIES, Get(node, PROPERTIES).value);
      assert i == k;
      if PropertiesOf(node).Some? {
        assert PropertiesOf(node).value == ms[k].value.members;
      }
    }
  }

  lemma {:induction false} PlainMemberDeclares(m: Member, name: string)
    requires PlainMember(m)
    ensures MemberDeclaresName(m, name) <==> MemberHas(m, name)
    decreases m, 0
  {
    match RoleOf(m)
    case Named =>
      var ns := m.value.members;
      forall j | 0 <= j < |ns|
        ensures name in Declared(ns[j].value) <==> DeclaresName(ns[j].value, name)
      {
        DeclaredIsExactOnPlainDocuments(ns[j].value, name);
      }
      PlainNamesLookClosed(m.value, false);
      NamesInMeans(ns, true, name);
    case Schemas =>
      DeclaredIsExactOnPlainDocuments(m.value, name);
    case Data =>
      NoObjectSchemasDeclareNothing(m.value);
  }

  // ------------------------------------------------------------------ the audit

  datatype Policy = Policy(allowed: set<string>, forbidden: set<string>)

  datatype Finding =
    | AllowedAndForbidden(names: set<string>)
    | SchemaMissing(schema: nat)
    | OpenObject(schema: nat, path: string)
    | ForbiddenField(schema: nat, name: string)
    | UnregisteredField(schema: nat, name: string)

  /** A schema the policy lets through. */
  predicate SafeSchema(policy: Policy, schema: Option<Value>) {
    && schema.Some?
    && Closed(schema.value, false)
    && Declared(schema.value) <= policy.allowed - policy.forbidden
  }

  predicate Applies(policy: Policy, schema: Option<Value>, n: nat, f: Finding) {
    match f
    case AllowedAndForbidden(_) => false
    case SchemaMissing(k) => k == n && schema.None?
    case OpenObject(k, path) => k == n && schema.Some? && path in OpenPaths(schema.value, "$", false)
    case ForbiddenField(k, name) => k == n && schema.Some? && name in Declared(schema.value) && name in policy.forbidden
    case UnregisteredField(k, name) =>
      k == n && schema.Some? && name in Declared(schema.value) && name !in policy.allowed && name !in policy.forbidden
  }

  /** The schema walk of `check_safe_projection`; a missing file is None. */
  method AuditSchemas(policy: Policy, schemas: seq<Option<Value>>) returns (findings: seq<Finding>)
    ensures forall f :: f in findings <==>
      || (f == AllowedAndForbidden(policy.allowed * policy.forbidden) && policy.allowed * policy.forbidden != {})
      || exists n :: 0 <= n < |schemas| && Applies(policy, schemas[n], n, f)
    ensures findings == [] <==> NothingReported(policy, schemas)
  {
    findings := [];
    if policy.allowed * policy.forbidden != {} {
      findings := [AllowedAndForbidden(policy.allowed * policy.forbidden)];
    }
    for n := 0 to |schemas|
      invariant forall f :: f in findings <==>
        || (f == AllowedAndForbidden(policy.allowed * policy.forbidden) && policy.allowed * policy.forbidden != {})
        || exists k :: 0 <= k < n && Applies(policy, schemas[k], k, f)
    {
      var found := AuditSchema(policy, schemas[n], n);
      findings := findings + found;
    }
    assert findings != [] ==> findings[0] in findings;
    var overlap := AllowedAndForbidden(policy.allowed * policy.forbidden);
    assert policy.allowed * policy.forbidden != {} ==> overlap in findings;
    forall f, n | 0 <= n < |schemas| && Applies(policy, schemas[n], n, f)
      ensures findings != []
    {
      assert f in findings;
    }
  }

  method AuditSchema(policy: Policy, schema: Option<Value>, n: nat) returns (findings: seq<Finding>)
    ensures forall f :: f in findings <==> Applies(policy, schema, n, f)
  {
    if schema.None? {
      return [SchemaMissing(n)];
    }
    var declared := CollectDeclared(schema.value, {});
    var paths := OpenPaths(schema.value, "$", false);
    findings := [];
    for i := 0 to |paths|
      invariant forall f :: f in findings <==> f.OpenObject? && f.schema == n && f.path in paths[..i]
    {
      findings := findings + [OpenObject(n, paths[i])];
      assert paths[..i + 1] == paths[..i] + [paths[i]];
    }
    assert paths[..|paths|] == paths;
    var rest := declared;
    while rest != {}
      invariant rest <= declared
      invariant forall f :: f in findings <==>
        || (f.OpenObject? && f.schema == n && f.path in paths)
        || (f.ForbiddenField? && f.schema == n && f.name in declared - rest && f.name in policy.forbidden)
        || (f.UnregisteredField? && f.schema == n && f.name in declared - rest
            && f.name !in policy.allowed && f.name !in policy.forbidden)
      decreases rest
    {
      var name :| name in rest;
      ghost var done := declared - rest;
      rest := rest - {name};
      assert declared - rest == done + {name};
      if name in policy.forbidden {
        findings := findings + [ForbiddenField(n, name)];
      } else if name !in policy.allowed {
        findings := findings + [UnregisteredField(n, name)];
      }
    }
  }

  /** What the policy is for: every object schema of the document is closed, and every property of
      its schemas is registered and not forbidden. */
  ghost predicate MeansSafe(policy: Policy, schema: Option<Value>) {
    && schema.Some?
    && ClosedSchema(schema.value, false)
    && forall name :: DeclaresName(schema.value, name) ==> name in policy.allowed && name !in policy.forbidden
  }

  lemma SafeMeansSafeOnPlainDocuments(policy: Policy, schema: Option<Value>)
    requires schema.Some? ==> PlainDocument(schema.value)
    ensures SafeSchema(policy, schema) <==> MeansSafe(policy, schema)
  {
    if schema.Some? {
      PlainDocumentsAreRead(schema.value, false);
      forall name
        ensures name in Declared(schema.value) <==> DeclaresName(schema.value, name)
      {
        DeclaredIsExactOnPlainDocuments(schema.value, name);
      }
    }
  }

  /** `AuditSchemas` has no finding. */
  ghost predicate NothingReported(policy: Policy, schemas: seq<Option<Value>>) {
    && policy.allowed * policy.forbidden == {}
    && forall f, n :: 0 <= n < |schemas| ==> !Applies(policy, schemas[n], n, f)
  }

  /** The audit reports nothing exactly when the two lists are disjoint and every listed schema exists
      and is, as the walks read it, closed at every depth and without unregistered or forbidden names.
      On plain documents that is what the policy is for. */
  lemma CleanAuditMeansSafeSchemas(policy: Policy, schemas: seq<Option<Value>>)
    ensures NothingReported(policy, schemas) <==>
      policy.allowed * policy.forbidden == {} && forall n :: 0 <= n < |schemas| ==> SafeSchema(policy, schemas[n])
    ensures (forall n :: 0 <= n < |schemas| && schemas[n].Some? ==> PlainDocument(schemas[n].value)) ==>
      (NothingReported(policy, schemas) <==>
       policy.allowed * policy.forbidden == {} && forall n :: 0 <= n < |schemas| ==> MeansSafe(policy, schemas[n]))
  {
    if policy.allowed * policy.forbidden == {} {
      forall n | 0 <= n < |schemas|
        ensures (forall f :: !Applies(policy, schemas[n], n, f)) <==> SafeSchema(policy, schemas[n])
      {
        NothingAppliesIffSafe(policy, schemas[n], n);
      }
    }
    if forall n :: 0 <= n < |schemas| && schemas[n].Some? ==> PlainDocument(schemas[n].value) {
      forall n | 0 <= n < |schemas|
        ensures SafeSchema(policy, schemas[n]) <==> MeansSafe(policy, schemas[n])
      {
        SafeMeansSafeOnPlainDocuments(policy, schemas[n]);
      }
    }
  }

  lemma NothingAppliesIffSafe(policy: Policy, schema: Option<Value>, n: nat)
    requires policy.allowed * policy.forbidden == {}
    ensures (forall f :: !Applies(policy, schema, n, f)) <==> SafeSchema(policy, schema)
  {
    if forall f :: !Applies(policy, schema, n, f) {
      assert !Applies(policy, schema, n, SchemaMissing(n));
      var paths := OpenPaths(schema.value, "$", false);
      if paths != [] {
        assert Applies(policy, schema, n, OpenObject(n, paths[0]));
      }
      forall name | name in Declared(schema.value)
        ensures name in policy.allowed && name !in policy.forbidden
      {
        assert !Applies(policy, schema, n, ForbiddenField(n, name));
        assert !Applies(policy, schema, n, UnregisteredField(n, name));
      }
    }
  }

  // ------------------------------------------------------------------ the fragment

  const SCALAR_TYPES := {"string", "integer", "number", "boolean", "null"}

  /** Only scalars pass: a scalar type, a list of them, or an enumeration of scalars. */
  predicate ScalarSchema(s: Value) {
    || (match Get(s, "type")
        case Some(String(name)) => name in SCALAR_TYPES
        case Some(Array(names)) => forall i :: 0 <= i < |names| ==> names[i].String? && names[i].s in SCALAR_TYPES
        case _ => false)
    || (match Get(s, "enum")
        case Some(Array(items)) => forall i :: 0 <= i < |items| ==> IsScalar(items[i])
        case _ => false)
    || (Get(s, "const").Some? && IsScalar(Get(s, "const").value))
  }

  /** The fragment of the public schemas: scalars, typed objects, arrays with items, unions and
      references into `targets`. Any conditional or further keyword may be added to these. */
  ghost predicate Governed(registry: map<string, Value>, root: Value, targets: set<Target>, s: Value)
    decreases s, 1
  {
    && s.Object?
    && (|| ScalarSchema(s)
        || GovernedObject(registry, root, targets, s)
        || GovernedArray(registry, root, targets, s)
        || GovernedRef(registry, root, targets, s)
        || GovernedUnion(registry, root, targets, s, Get(s, "oneOf"))
        || GovernedUnion(registry, root, targets, s, Get(s, "anyOf")))
  }

  ghost predicate GovernedObject(registry: map<string, Value>, root: Value, targets: set<Target>, s: Value)
    decreases s, 0
  {
    && Get(s, "type") == Some(String("object"))
    && PropertiesOf(s).Some?
    && Get(s, "patternProperties").None?
    && forall i :: 0 <= i < |PropertiesOf(s).value| ==>
         Governed(registry, root, targets, PropertiesOf(s).value[i].value)
  }

  ghost predicate GovernedArray(registry: map<string, Value>, root: Value, targets: set<Target>, s: Value)
    decreases s, 0
  {
    && ArrayOrScalar(s)
    && Get(s, "items").Some? && Governed(registry, root, targets, Get(s, "items").value)
    && forall i :: 0 <= i < |PrefixOf(s)| ==> Governed(registry, root, targets, PrefixOf(s)[i])
  }

  /** Typed an array, possibly among scalar types. */
  predicate ArrayOrScalar(s: Value) {
    match Get(s, "type")
    case Some(String(name)) => name == "array"
    case Some(Array(names)) =>
      forall i :: 0 <= i < |names| ==> names[i].String? && (names[i].s == "array" || names[i].s in SCALAR_TYPES)
    case _ => false
  }

  ghost predicate GovernedRef(registry: map<string, Value>, root: Value, targets: set<Target>, s: Value) {
    && Get(s, "$ref").Some?
    && RefTarget(registry, root, s).Some? && RefTarget(registry, root, s).value in targets
  }

  ghost predicate GovernedUnion(registry: map<string, Value>, root: Value, targets: set<Target>, s: Value,
      union: Option<Value>)
    requires union.Some? ==> union.value < s
    decreases s, 0
  {
    union.Some? && union.value.Array?
    && forall i :: 0 <= i < |union.value.items| ==> Governed(registry, root, targets, union.value.items[i])
  }

  /** At every depth, only allowed keys. */
  predicate OnlyKeys(v: Value, allowed: set<string>)
    decreases v
  {
    match v
    case Object(ms) => forall i :: 0 <= i < |ms| ==> ms[i].key in allowed && OnlyKeys(ms[i].value, allowed)
    case Array(items) => forall i :: 0 <= i < |items| ==> OnlyKeys(items[i], allowed)
    case _ => true
  }

  /** What a clean audit gives for a schema and keeps for the schemas inside it. */
  ghost predicate Audited(allowed: set<string>, s: Value) {
    Declared(s) <= allowed && Closed(s, true)
  }

  lemma {:induction false} ClosedInsideConditionals(node: Value, conditional: bool)
    requires Closed(node, conditional)
    ensures Closed(node, true)
    decreases node
  {
    match node
    case Object(ms) =>
      forall i | 0 <= i < |ms|
        ensures Closed(ms[i].value, true)
      {
        ClosedInsideConditionals(ms[i].value, conditional || ms[i].key in CONDITIONALS);
      }
    case Array(items) =>
      forall i | 0 <= i < |items|
        ensures Closed(items[i], true)
      {
        ClosedInsideConditionals(items[i], conditional);
      }
    case _ =>
  }

  lemma AuditedProperty(allowed: set<string>, s: Value, i: nat)
    requires Audited(allowed, s) && PropertiesOf(s).Some? && i < |PropertiesOf(s).value|
    ensures PropertiesOf(s).value[i].key in allowed
    ensures Audited(allowed, PropertiesOf(s).value[i].value)
  {
    var ps := PropertiesOf(s).value;
    assert ps[i].key in KeysOf(ps);
    NamesUnderMember(ps, false, i);
    assert Closed(Object(ps), true);
  }

  lemma AuditedKeyword(allowed: set<string>, s: Value, key: string)
    requires Audited(allowed, s) && key != PROPERTIES && Get(s, key).Some?
    ensures Audited(allowed, Get(s, key).value)
  {
    var i :| 0 <= i < |s.members| && s.members[i] == Member(key, Get(s, key).value);
    NamesUnderMember(s.members, true, i);
  }

  lemma AuditedItem(allowed: set<string>, s: Value, i: nat)
    requires Audited(allowed, s) && s.Array? && i < |s.items|
    ensures Audited(allowed, s.items[i])
  {
    NamesUnderItem(s.items, i);
  }

  lemma ScalarSchemasAdmitScalars(s: Value, v: Value)
    requires ScalarSchema(s) && TypeHolds(s, v) && ListedHolds(s, v)
    ensures IsScalar(v)
  {
  }

  /** The reference targets are in the fragment and audited. */
  ghost predicate TargetsHold(registry: map<string, Value>, targets: set<Target>, allowed: set<string>) {
    forall t :: t in targets ==> Governed(registry, t.root, targets, t.schema) && Audited(allowed, t.schema)
  }

  lemma TypeNamesTheShape(s: Value, v: Value)
    requires TypeHolds(s, v)
    ensures Get(s, "type") == Some(String("object")) ==> v.Object?
  {
  }

  lemma ArraysAndScalarsOnly(s: Value, v: Value)
    requires ArrayOrScalar(s) && TypeHolds(s, v)
    ensures v.Array? || IsScalar(v)
  {
  }

  /** Fails closed: whatever the other keywords mean, an instance that a governed schema of a
      clean audit accepts holds only allow-listed keys, at every depth. */
  lemma {:induction false} AcceptedInstancesCarryOnlyAllowedKeys(kw: Keywords, root: Value, targets: set<Target>,
      allowed: set<string>, fuel: nat, s: Value, v: Value)
    requires TargetsHold(kw.registry, targets, allowed)
    requires Governed(kw.registry, root, targets, s) && Audited(allowed, s)
    requires Evaluate(kw, root, fuel, s, v) == Accept
    ensures OnlyKeys(v, allowed)
    decreases fuel, 1
  {
    AcceptedMeansEachKeyword(kw, root, fuel, s, v);
    if ScalarSchema(s) {
      ScalarSchemasAdmitScalars(s, v);
    } else if GovernedObject(kw.registry, root, targets, s) {
      TypeNamesTheShape(s, v);
      ObjectsCarryOnlyAllowedKeys(kw, root, targets, allowed, fuel, s, v);
    } else if GovernedArray(kw.registry, root, targets, s) {
      ArraysAndScalarsOnly(s, v);
      if v.Array? {
        ArraysCarryOnlyAllowedKeys(kw, root, targets, allowed, fuel, s, v);
      }
    } else if GovernedRef(kw.registry, root, targets, s) {
      RefsCarryOnlyAllowedKeys(kw, root, targets, allowed, fuel, s, v);
    } else {
      UnionsCarryOnlyAllowedKeys(kw, root, targets, allowed, fuel, s, v);
    }
  }

  lemma {:induction false} ObjectsCarryOnlyAllowedKeys(kw: Keywords, root: Value, targets: set<Target>,
      allowed: set<string>, fuel: nat, s: Value, v: Value)
    requires fuel > 0 && TargetsHold(kw.registry, targets, allowed)
    requires s.Object? && GovernedObject(kw.registry, root, targets, s) && Audited(allowed, s)
    requires v.Object? && OfMembers(kw, root, fuel - 1, s, v) == Accept
    ensures OnlyKeys(v, allowed)
    decreases fuel, 0
  {
    forall i | 0 <= i < |v.members|
      ensures v.members[i].key in allowed && OnlyKeys(v.members[i].value, allowed)
    {
      var sub := MemberIsJudged(kw, root, targets, allowed, fuel, s, v, i);
      AcceptedInstancesCarryOnlyAllowedKeys(kw, root, targets, allowed, fuel - 1, sub, v.members[i].value);
    }
  }

  lemma {:induction false} ArraysCarryOnlyAllowedKeys(kw: Keywords, root: Value, targets: set<Target>,
      allowed: set<string>, fuel: nat, s: Value, v: Value)
    requires fuel > 0 && TargetsHold(kw.registry, targets, allowed)
    requires s.Object? && GovernedArray(kw.registry, root, targets, s) && Audited(allowed, s)
    requires v.Array?
    requires OfItems(kw, root, fuel - 1, s, v) == Accept && OfPrefixItems(kw, root, fuel - 1, s, v) == Accept
    ensures OnlyKeys(v, allowed)
    decreases fuel, 0
  {
    forall i | 0 <= i < |v.items|
      ensures OnlyKeys(v.items[i], allowed)
    {
      var sub := ItemIsJudged(kw, root, targets, allowed, fuel, s, v, i);
      AcceptedInstancesCarryOnlyAllowedKeys(kw, root, targets, allowed, fuel - 1, sub, v.items[i]);
    }
  }

  /** A governed, audited schema accepted every item: its own of `prefixItems`, else `items`. */
  lemma ItemIsJudged(kw: Keywords, root: Value, targets: set<Target>, allowed: set<string>, fuel: nat, s: Value,
      v: Value, i: nat)
    returns (sub: Value)
    requires fuel > 0 && s.Object? && GovernedArray(kw.registry, root, targets, s) && Audited(allowed, s)
    requires v.Array? && i < |v.items|
    requires OfItems(kw, root, fuel - 1, s, v) == Accept && OfPrefixItems(kw, root, fuel - 1, s, v) == Accept
    ensures Governed(kw.registry, root, targets, sub) && Audited(allowed, sub)
    ensures Evaluate(kw, root, fuel - 1, sub, v.items[i]) == Accept
  {
    var prefix := PrefixOf(s);
    if i < |prefix| {
      sub := prefix[i];
      AuditedKeyword(allowed, s, "prefixItems");
      AuditedItem(allowed, Array(prefix), i);
      AllAccepts(PrefixVerdicts(kw, root, fuel - 1, prefix, v.items), i);
    } else {
      sub := Get(s, "items").value;
      AuditedKeyword(allowed, s, "items");
      AllAccepts(ItemVerdicts(kw, root, fuel - 1, sub, v.items[|prefix|..]), i - |prefix|);
    }
  }

  lemma {:induction false} RefsCarryOnlyAllowedKeys(kw: Keywords, root: Value, targets: set<Target>,
      allowed: set<string>, fuel: nat, s: Value, v: Value)
    requires fuel > 0 && TargetsHold(kw.registry, targets, allowed)
    requires GovernedRef(kw.registry, root, targets, s) && OfRef(kw, root, fuel - 1, s, v) == Accept
    ensures OnlyKeys(v, allowed)
    decreases fuel, 0
  {
    var t := RefTarget(kw.registry, root, s).value;
    AcceptedInstancesCarryOnlyAllowedKeys(kw, t.root, targets, allowed, fuel - 1, t.schema, v);
  }

  lemma {:induction false} UnionsCarryOnlyAllowedKeys(kw: Keywords, root: Value, targets: set<Target>,
      allowed: set<string>, fuel: nat, s: Value, v: Value)
    requires fuel > 0 && TargetsHold(kw.registry, targets, allowed) && s.Object? && Audited(allowed, s)
    requires GovernedUnion(kw.registry, root, targets, s, Get(s, "oneOf"))
      || GovernedUnion(kw.registry, root, targets, s, Get(s, "anyOf"))
    requires OfOneOf(kw, root, fuel - 1, s, v) == Accept && OfAnyOf(kw, root, fuel - 1, s, v) == Accept
    ensures OnlyKeys(v, allowed)
    decreases fuel, 0
  {
    var key := if GovernedUnion(kw.registry, root, targets, s, Get(s, "oneOf")) then "oneOf" else "anyOf";
    var subs := Get(s, key).value;
    AuditedKeyword(allowed, s, key);
    var i := AcceptedByAnAlternative(kw, root, fuel - 1, subs.items, v);
    AuditedItem(allowed, subs, i);
    AcceptedInstancesCarryOnlyAllowedKeys(kw, root, targets, allowed, fuel - 1, subs.items[i], v);
  }

  /** The key of every member is allowed, and a governed, audited schema accepted its value. */
  lemma MemberIsJudged(kw: Keywords, root: Value, targets: set<Target>, allowed: set<string>, fuel: nat, s: Value,
      v: Value, i: nat)
    returns (sub: Value)
    requires fuel > 0 && s.Object? && GovernedObject(kw.registry, root, targets, s) && Audited(allowed, s)
    requires v.Object? && i < |v.members| && OfMembers(kw, root, fuel - 1, s, v) == Accept
    ensures v.members[i].key in allowed
    ensures Governed(kw.registry, root, targets, sub) && Audited(allowed, sub)
    ensures Evaluate(kw, root, fuel - 1, sub, v.members[i].value) == Accept
  {
    var j := JudgedByProperty(kw, root, fuel, s, v, i);
    AuditedProperty(allowed, s, j);
    sub := PropertiesOf(s).value[j].value;
  }

  /** A closed object schema judges each member by one of its declared properties. */
  lemma JudgedByProperty(kw: Keywords, root: Value, fuel: nat, s: Value, v: Value, i: nat) returns (j: nat)
    requires fuel > 0 && s.Object? && v.Object? && i < |v.members|
    requires Closed(s, true) && Get(s, "type") == Some(String("object"))
    requires PropertiesOf(s).Some? && Get(s, "patternProperties").None?
    requires OfMembers(kw, root, fuel - 1, s, v) == Accept
    ensures j < |PropertiesOf(s).value| && PropertiesOf(s).value[j].key == v.members[i].key
    ensures Evaluate(kw, root, fuel - 1, PropertiesOf(s).value[j].value, v.members[i].value) == Accept
  {
    var ps := PropertiesOf(s).value;
    var key := v.members[i].key;
    var vs := MemberVerdicts(kw, root, fuel - 1, s, v.members);
    AllAccepts(vs, i);
    assert Get(s, "additionalProperties") == Some(Bool(false));
    assert Lookup(ps, key).None? ==> MemberSchema(kw, s, key) == Some(Bool(false));
    assert Evaluate(kw, root, fuel - 1, Bool(false), v.members[i].value) != Accept;
    assert vs[i] == match MemberSchema(kw, s, key)
                    case Some(sub) => Evaluate(kw, root, fuel - 1, sub, v.members[i].value)
                    case None => Accept;
    j :| 0 <= j < |ps| && ps[j] == Member(key, Lookup(ps, key).value);
  }

  // ------------------------------------------------------------------ whole schemas

  /** The walk of the declared names visits `t` as a schema node. */
  ghost predicate Walked(node: Value, t: Value)
    decreases node
  {
    || t == node
    || (match node
        case Object(ms) =>
          || (PropertiesOf(node).Some?
              && exists i :: 0 <= i < |PropertiesOf(node).value| && Walked(PropertiesOf(node).value[i].value, t))
          || (exists i :: 0 <= i < |ms| && ms[i].key != PROPERTIES && Walked(ms[i].value, t))
        case Array(items) => exists i :: 0 <= i < |items| && Walked(items[i], t)
        case _ => false)
  }

  lemma {:induction false} WalkedSchemasAreAudited(allowed: set<string>, node: Value, t: Value)
    requires Audited(allowed, node) && Walked(node, t)
    ensures Audited(allowed, t)
    decreases node
  {
    if t != node {
      match node
      case Object(ms) =>
        if i :| (&& PropertiesOf(node).Some? && 0 <= i < |PropertiesOf(node).value|
                 && Walked(PropertiesOf(node).value[i].value, t)) {
          AuditedProperty(allowed, node, i);
          WalkedSchemasAreAudited(allowed, PropertiesOf(node).value[i].value, t);
        } else {
          var i :| 0 <= i < |ms| && ms[i].key != PROPERTIES && Walked(ms[i].value, t);
          NamesUnderMember(ms, true, i);
          WalkedSchemasAreAudited(allowed, ms[i].value, t);
        }
      case Array(items) =>
        var i :| 0 <= i < |items| && Walked(items[i], t);
        AuditedItem(allowed, node, i);
        WalkedSchemasAreAudited(allowed, items[i], t);
    }
  }

  /** A schema the audit passes, in the fragment throughout, accepts only instances whose keys are
      all allow-listed and none forbidden, however deep and through whatever references, into its own
      document or into other audited ones. */
  lemma PublicInstancesCarryNothingSensitive(policy: Policy, kw: Keywords, root: Value, targets: set<Target>,
      fuel: nat, v: Value)
    requires SafeSchema(policy, Some(root))
    requires Governed(kw.registry, root, targets, root)
    requires forall t :: t in targets ==>
      SafeSchema(policy, Some(t.root)) && Walked(t.root, t.schema) && Governed(kw.registry, t.root, targets, t.schema)
    requires Evaluate(kw, root, fuel, root, v) == Accept
    ensures OnlyKeys(v, policy.allowed - policy.forbidden)
  {
    var allowed := policy.allowed - policy.forbidden;
    ClosedInsideConditionals(root, false);
    forall t | t in targets
      ensures Audited(allowed, t.schema)
    {
      ClosedInsideConditionals(t.root, false);
      WalkedSchemasAreAudited(allowed, t.root, t.schema);
    }
    AcceptedInstancesCarryOnlyAllowedKeys(kw, root, targets, allowed, fuel, root, v);
  }

  // ------------------------------------------------------------------ outside the fragment

  const APPLIED := {"type", "enum", "const", "properties", "patternProperties", "additionalProperties", "items",
                    "prefixItems", "$ref", "oneOf", "anyOf", "allOf", "if"}

  /** The audit has nothing to say, under any policy, about a schema without object schemas; and if it
      has none of the keywords above, it accepts whatever its remaining keywords accept, with any keys. */
  lemma UntypedSchemasFailOpen(policy: Policy, kw: Keywords, root: Value, fuel: nat, s: Value, v: Value)
    requires NoObjectSchemas(s)
    ensures SafeSchema(policy, Some(s))
    ensures fuel > 0 && s.Object? && (forall key :: key in APPLIED ==> Get(s, key).None?) ==>
      Evaluate(kw, root, fuel, s, v) == Judge(kw.assertion(s, v))
  {
    NoObjectSchemasLookClosed(s, false);
    NoObjectSchemasDeclareNothing(s);
    if fuel > 0 && s.Object? && (forall key :: key in APPLIED ==> Get(s, key).None?) {
      BareSchemasApplyNothing(kw, root, fuel - 1, s, v);
    }
  }

  lemma BareSchemasApplyNothing(kw: Keywords, root: Value, fuel: nat, s: Value, v: Value)
    requires s.Object? && forall key :: key in APPLIED ==> Get(s, key).None?
    ensures OfKeywords(kw, root, fuel, s, v) == Judge(kw.assertion(s, v))
  {
    assert Get(s, "type").None? && Get(s, "enum").None? && Get(s, "const").None? && Get(s, "items").None?;
    assert Get(s, "$ref").None? && Get(s, "oneOf").None? && Get(s, "anyOf").None? && Get(s, "allOf").None?;
    assert Get(s, "if").None? && Get(s, "prefixItems").None? && PrefixOf(s) == [];
    assert v.Array? ==> PrefixVerdicts(kw, root, fuel, [], v.items) == [];
    if v.Object? {
      BareSchemasJudgeNoMember(kw, root, fuel, s, v.members);
    }
    assert KeywordVerdicts(kw, root, fuel, s, v) ==
      [Accept, Accept, Judge(kw.assertion(s, v)), Accept, Accept, Accept, Accept, Accept, Accept, Accept, Accept];
  }

  lemma BareSchemasJudgeNoMember(kw: Keywords, root: Value, fuel: nat, s: Value, ms: seq<Member>)
    requires s.Object? && forall key :: key in APPLIED ==> Get(s, key).None?
    ensures All(MemberVerdicts(kw, root, fuel, s, ms)) == Accept
  {
    assert Get(s, "properties").None? && Get(s, "patternProperties").None? && Get(s, "additionalProperties").None?;
    forall i | 0 <= i < |ms|
      ensures MemberVerdicts(kw, root, fuel, s, ms)[i] == Accept
    {
      assert MemberSchema(kw, s, ms[i].key) == None;
    }
  }

  // ------------------------------------------------------------------ what left open means

  const JUDGING :=
    {"enum", "const", "patternProperties", "items", "prefixItems", "$ref", "oneOf", "anyOf", "allOf", "if"}

  /** An object schema of properties alone: it judges members only by them and by
      `additionalProperties`, which is a plain yes or no. */
  predicate PropertiesOnly(s: Value) {
    && s.Object? && (forall key :: key in JUDGING ==> Get(s, key).None?)
    && (Get(s, "type").None? || Get(s, "type") == Some(String("object")))
    && (Get(s, "additionalProperties").None? || Get(s, "additionalProperties").value.Bool?)
  }

  lemma UndeclaredMemberIsJudged(kw: Keywords, root: Value, fuel: nat, s: Value, key: string, v: Value)
    requires fuel > 0 && PropertiesOnly(s) && (PropertiesOf(s).Some? ==> key !in KeysOf(PropertiesOf(s).value))
    ensures All(MemberVerdicts(kw, root, fuel, s, [Member(key, v)])) ==
      Judge(Get(s, "additionalProperties") != Some(Bool(false)))
  {
    var ms := [Member(key, v)];
    assert Get(s, "patternProperties").None?;
    assert MemberSchema(kw, s, key) == Get(s, "additionalProperties");
    var vs := MemberVerdicts(kw, root, fuel, s, ms);
    if Get(s, "additionalProperties").Some? {
      var b := Get(s, "additionalProperties").value.b;
      assert Get(s, "additionalProperties") == Some(Bool(b)) && Evaluate(kw, root, fuel, Bool(b), v) == Judge(b);
    }
    assert ms[0].key == key && ms[0].value == v;
    assert |vs| == 1 && vs[0] == Judge(Get(s, "additionalProperties") != Some(Bool(false)));
    assert vs == [vs[0]];
  }

  lemma UndeclaredKeyIsAcceptedIff(kw: Keywords, root: Value, fuel: nat, s: Value, key: string, v: Value)
    requires fuel > 1 && PropertiesOnly(s) && (PropertiesOf(s).Some? ==> key !in KeysOf(PropertiesOf(s).value))
    ensures Evaluate(kw, root, fuel, s, Object([Member(key, v)])) == Accept <==>
      Get(s, "additionalProperties") != Some(Bool(false)) && kw.assertion(s, Object([Member(key, v)]))
  {
    var instance := Object([Member(key, v)]);
    assert Get(s, "enum").None? && Get(s, "const").None? && Get(s, "items").None? && Get(s, "prefixItems").None?;
    assert Get(s, "$ref").None? && Get(s, "oneOf").None? && Get(s, "anyOf").None? && Get(s, "allOf").None?;
    assert Get(s, "if").None?;
    UndeclaredMemberIsJudged(kw, root, fuel - 1, s, key, v);
    var judged := Judge(Get(s, "additionalProperties") != Some(Bool(false)));
    var asserted := Judge(kw.assertion(s, instance));
    var vs := KeywordVerdicts(kw, root, fuel - 1, s, instance);
    assert TypeHolds(s, instance) && ListedHolds(s, instance);
    assert OfMembers(kw, root, fuel - 1, s, instance) == judged && OfItems(kw, root, fuel - 1, s, instance) == Accept;
    assert OfRef(kw, root, fuel - 1, s, instance) == Accept && OfOneOf(kw, root, fuel - 1, s, instance) == Accept;
    assert OfAnyOf(kw, root, fuel - 1, s, instance) == Accept && OfAllOf(kw, root, fuel - 1, s, instance) == Accept;
    assert OfCondition(kw, root, fuel - 1, s, instance) == Accept;
    assert OfPrefixItems(kw, root, fuel - 1, s, instance) == Accept;
    assert vs[2] == asserted && vs[3] == judged;
    assert forall i :: 0 <= i < |vs| && i != 2 && i != 3 ==> vs[i] == Accept;
  }

  /** What the report is for: a schema of properties alone that counts as an object is reported at its own
      path exactly when it accepts an instance with a key it does not declare. */
  lemma ReportedIffUndeclaredKeysPass(kw: Keywords, root: Value, fuel: nat, s: Value, key: string, v: Value,
      path: string)
    requires fuel > 1 && PropertiesOnly(s) && (PropertiesOf(s).Some? ==> key !in KeysOf(PropertiesOf(s).value))
    requires Get(s, "type").Some? || PropertiesOf(s).Some?
    requires kw.assertion(s, Object([Member(key, v)]))
    ensures path in OpenPaths(s, path, false) <==> Evaluate(kw, root, fuel, s, Object([Member(key, v)])) == Accept
  {
    UndeclaredKeyIsAcceptedIff(kw, root, fuel, s, key, v);
    MappingIsReportedIff(s, path);
  }
}
