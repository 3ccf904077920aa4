/** Where a document holds schemas, and exactly when the walk for open objects misreads it
(`_unclosed_object_paths` in `scripts/validate_run_api.py`).

The walk takes every mapping for a schema and every key for a keyword. In a schema document (JSON
Schema draft 2020-12) some keywords hold a schema or a list of them, some hold schemas under names of
the author's choice, and all others hold data. */
module SchemaPositions {
  import opened Options
  import opened Json
  import opened OpenObjects

  /** Keywords whose value maps names to schemas. */
  const NAME_KEYED := {PROPERTIES, "patternProperties", "dependentSchemas", "$defs", "definitions"}

  /** Keywords whose value is a schema or a list of schemas. */
  const SCHEMA_VALUED := {
    "if", "then", "else", "not", "allOf", "anyOf", "oneOf", "items", "prefixItems", "contains",
    "additionalProperties", "propertyNames", "unevaluatedItems", "unevaluatedProperties", "contentSchema"}

  datatype Role = Named | Schemas | Data

  /** What a member of a schema holds; a mapping keyword without a mapping is no schema either. */
  function RoleOf(m: Member): Role {
    if m.key in NAME_KEYED && m.value.Object? then Named
    else if m.key in SCHEMA_VALUED then Schemas
    else Data
  }

  lemma RolesAndConditionals(m: Member)
    ensures m.key in CONDITIONALS ==> RoleOf(m) == Schemas
  {
    assert CONDITIONALS <= SCHEMA_VALUED && CONDITIONALS !! NAME_KEYED;
  }

  // ------------------------------------------------------------------ closed documents

  /** Every object schema, at every schema position, rejects unknown fields. Below a conditional
      keyword only typed schemas count, since the others constrain an object closed elsewhere. */
  predicate ClosedSchema(node: Value, conditional: bool)
    decreases node, 1
  {
    match node
    case Object(ms) => !OpenHere(node, conditional) && forall i :: 0 <= i < |ms| ==> ClosedMember(ms[i], conditional)
    case Array(items) => forall i :: 0 <= i < |items| ==> ClosedSchema(items[i], conditional)
    case _ => true
  }

  predicate ClosedMember(m: Member, conditional: bool)
    decreases m, 0
  {
    match RoleOf(m)
    case Named => forall j :: 0 <= j < |m.value.members| ==> ClosedSchema(m.value.members[j].value, conditional)
    case Schemas => ClosedSchema(m.value, conditional || m.key in CONDITIONALS)
    case Data => true
  }

  /** Every open object schema is untyped and lies below a name `if`, `then` or `else`; `below` tells
      whether this node does. */
  predicate OpenOnlyBelowConditionalNames(node: Value, conditional: bool, below: bool)
    decreases node, 1
  {
    match node
    case Object(ms) =>
      && (OpenHere(node, conditional) ==> below && Get(node, "type") != Some(String("object")))
      && forall i :: 0 <= i < |ms| ==> MemberOpenOnlyBelow(ms[i], conditional, below)
    case Array(items) => forall i :: 0 <= i < |items| ==> OpenOnlyBelowConditionalNames(items[i], conditional, below)
    case _ => true
  }

  predicate MemberOpenOnlyBelow(m: Member, conditional: bool, below: bool)
    decreases m, 0
  {
    match RoleOf(m)
    case Named =>
      forall j :: 0 <= j < |m.value.members| ==>
        OpenOnlyBelowConditionalNames(
          m.value.members[j].value, conditional, below || m.value.members[j].key in CONDITIONALS)
    case Schemas => OpenOnlyBelowConditionalNames(m.value, conditional || m.key in CONDITIONALS, below)
    case Data => true
  }

  /** Nothing that is no schema looks like an open one: no mapping of names, which takes a name
      `properties` or `type`, and nothing inside data. */
  predicate NothingElseLooksOpen(node: Value, conditional: bool)
    decreases node, 1
  {
    match node
    case Object(ms) => forall i :: 0 <= i < |ms| ==> MemberLooksClosed(ms[i], conditional)
    case Array(items) => forall i :: 0 <= i < |items| ==> NothingElseLooksOpen(items[i], conditional)
    case _ => true
  }

  predicate MemberLooksClosed(m: Member, conditional: bool)
    decreases m, 0
  {
    match RoleOf(m)
    case Named =>
      && !OpenHere(m.value, conditional)
      && forall j :: 0 <= j < |m.value.members| ==>
           NothingElseLooksOpen(m.value.members[j].value, conditional || m.value.members[j].key in CONDITIONALS)
    case Schemas => NothingElseLooksOpen(m.value, conditional || m.key in CONDITIONALS)
    case Data => Closed(m.value, conditional)
  }

  // ------------------------------------------------------------------ what the walk finds

  lemma {:induction false} WalkReads(node: Value, conditional: bool, below: bool)
    ensures Closed(node, conditional || below) <==>
      OpenOnlyBelowConditionalNames(node, conditional, below) && NothingElseLooksOpen(node, conditional || below)
    decreases node, 1
  {
    match node
    case Object(ms) =>
      forall i | 0 <= i < |ms|
        ensures Closed(ms[i].value, conditional || below || ms[i].key in CONDITIONALS) <==>
          MemberOpenOnlyBelow(ms[i], conditional, below) && MemberLooksClosed(ms[i], conditional || below)
      {
        WalkReadsMember(ms[i], conditional, below);
      }
    case Array(items) =>
      forall i | 0 <= i < |items|
        ensures Closed(items[i], conditional || below) <==>
          && OpenOnlyBelowConditionalNames(items[i], conditional, below)
          && NothingElseLooksOpen(items[i], conditional || below)
      {
        WalkReads(items[i], conditional, below);
      }
    case _ =>
  }

  lemma {:induction false} WalkReadsMember(m: Member, conditional: bool, below: bool)
    ensures Closed(m.value, conditional || below || m.key in CONDITIONALS) <==>
      MemberOpenOnlyBelow(m, conditional, below) && MemberLooksClosed(m, conditional || below)
    decreases m, 0
  {
    RolesAndConditionals(m);
    match RoleOf(m)
    case Named =>
      var ns := m.value.members;
      forall j | 0 <= j < |ns|
        ensures Closed(ns[j].value, conditional || below || ns[j].key in CONDITIONALS) <==>
          && OpenOnlyBelowConditionalNames(ns[j].value, conditional, below || ns[j].key in CONDITIONALS)
          && NothingElseLooksOpen(ns[j].value, conditional || below || ns[j].key in CONDITIONALS)
      {
        WalkReads(ns[j].value, conditional, below || ns[j].key in CONDITIONALS);
      }
    case Schemas => WalkReads(m.value, conditional || m.key in CONDITIONALS, below);
    case Data =>
  }

  /** A closed schema has no open one to hide. */
  lemma {:induction false} ClosedSchemaHidesNothing(node: Value, conditional: bool, below: bool)
    requires ClosedSchema(node, conditional)
    ensures OpenOnlyBelowConditionalNames(node, conditional, below)
    decreases node
  {
    match node
    case Object(ms) =>
      forall i | 0 <= i < |ms|
        ensures MemberOpenOnlyBelow(ms[i], conditional, below)
      {
        assert ClosedMember(ms[i], conditional);
        match RoleOf(ms[i])
        case Named =>
          var ns := ms[i].value.members;
          forall j | 0 <= j < |ns|
            ensures OpenOnlyBelowConditionalNames(ns[j].value, conditional, below || ns[j].key in CONDITIONALS)
          {
            ClosedSchemaHidesNothing(ns[j].value, conditional, below || ns[j].key in CONDITIONALS);
          }
        case Schemas => ClosedSchemaHidesNothing(ms[i].value, conditional || ms[i].key in CONDITIONALS, below);
        case Data =>
      }
    case Array(items) =>
      forall i | 0 <= i < |items|
        ensures OpenOnlyBelowConditionalNames(items[i], conditional, below)
      {
        ClosedSchemaHidesNothing(items[i], conditional, below);
      }
    case _ =>
  }

  /** Exactly what `_unclosed_object_paths` gets wrong. It misses the open schemas of a document if
      and only if all of them are untyped and below a name `if`, `then` or `else`, and nothing else
      looks open; it reports a closed document if and only if something else does. */
  lemma ReportIsWrongIff(schema: Value, path: string)
    ensures OpenPaths(schema, path, false) == [] <==>
      OpenOnlyBelowConditionalNames(schema, false, false) && NothingElseLooksOpen(schema, false)
    ensures ClosedSchema(schema, false) ==>
      (OpenPaths(schema, path, false) == [] <==> NothingElseLooksOpen(schema, false))
  {
    WalkReads(schema, false, false);
    if ClosedSchema(schema, false) {
      ClosedSchemaHidesNothing(schema, false, false);
    }
  }

  // ------------------------------------------------------------------ plain documents

  /** The names the walk takes for keywords. */
  const MISREAD := {PROPERTIES, "if", "then", "else"}

  predicate IsSchema(v: Value) {
    v.Object? || v.Bool?
  }

  /** No mapping in the tree is typed an object or bears properties. */
  predicate NoObjectSchemas(node: Value)
    decreases node
  {
    match node
    case Object(ms) =>
      && Get(node, "type") != Some(String("object")) && PropertiesOf(node).None?
      && forall i :: 0 <= i < |ms| ==> NoObjectSchemas(ms[i].value)
    case Array(items) => forall i :: 0 <= i < |items| ==> NoObjectSchemas(items[i])
    case _ => true
  }

  lemma {:induction false} NoObjectSchemasLookClosed(node: Value, conditional: bool)
    requires NoObjectSchemas(node)
    ensures Closed(node, conditional)
    decreases node
  {
    match node
    case Object(ms) =>
      forall i | 0 <= i < |ms|
        ensures Closed(ms[i].value, conditional || ms[i].key in CONDITIONALS)
      {
        NoObjectSchemasLookClosed(ms[i].value, conditional || ms[i].key in CONDITIONALS);
      }
    case Array(items) =>
      forall i | 0 <= i < |items|
        ensures Closed(items[i], conditional)
      {
        NoObjectSchemasLookClosed(items[i], conditional);
      }
    case _ =>
  }

  /** A schema document as it is meant to be read: no name is one of the four, names stand for
      schemas, no data looks like an object schema, and each key occurs once. */
  predicate PlainDocument(node: Value)
    decreases node, 1
  {
    match node
    case Object(ms) =>
      && (forall i, j :: 0 <= i < j < |ms| ==> ms[i].key != ms[j].key)
      && forall i :: 0 <= i < |ms| ==> PlainMember(ms[i])
    case Array(items) => forall i :: 0 <= i < |items| ==> PlainDocument(items[i])
    case _ => true
  }

  predicate PlainMember(m: Member)
    decreases m, 0
  {
    match RoleOf(m)
    case Named =>
      forall j :: 0 <= j < |m.value.members| ==>
        && m.value.members[j].key !in MISREAD
        && IsSchema(m.value.members[j].value) && PlainDocument(m.value.members[j].value)
    case Schemas => PlainDocument(m.value)
    case Data => NoObjectSchemas(m.value)
  }

  lemma PlainNamesLookClosed(mapping: Value, conditional: bool)
    requires mapping.Object?
    requires forall j :: 0 <= j < |mapping.members| ==>
      mapping.members[j].key !in MISREAD && IsSchema(mapping.members[j].value)
    ensures !OpenHere(mapping, conditional) && PropertiesOf(mapping).None?
  {
    assert PROPERTIES !in KeysOf(mapping.members);
    assert Get(mapping, "type") != Some(String("object"));
  }

  lemma {:induction false} PlainDocumentsAreRead(node: Value, conditional: bool)
    requires PlainDocument(node)
    ensures Closed(node, conditional) <==> ClosedSchema(node, conditional)
    decreases node, 1
  {
    match node
    case Object(ms) =>
      forall i | 0 <= i < |ms|
        ensures Closed(ms[i].value, conditional || ms[i].key in CONDITIONALS) <==> ClosedMember(ms[i], conditional)
      {
        PlainMembersAreRead(ms[i], conditional);
      }
    case Array(items) =>
      forall i | 0 <= i < |items|
        ensures Closed(items[i], conditional) <==> ClosedSchema(items[i], conditional)
      {
        PlainDocumentsAreRead(items[i], conditional);
      }
    case _ =>
  }

  lemma {:induction false} PlainMembersAreRead(m: Member, conditional: bool)
    requires PlainMember(m)
    ensures Closed(m.value, conditional || m.key in CONDITIONALS) <==> ClosedMember(m, conditional)
    decreases m, 0
  {
    RolesAndConditionals(m);
    match RoleOf(m)
    case Named =>
      var ns := m.value.members;
      PlainNamesLookClosed(m.value, conditional);
      forall j | 0 <= j < |ns|
        ensures Closed(ns[j].value, conditional || ns[j].key in CONDITIONALS) <==>
          ClosedSchema(ns[j].value, conditional)
      {
        assert ns[j].key !in CONDITIONALS;
        PlainDocumentsAreRead(ns[j].value, conditional);
      }
    case Schemas => PlainDocumentsAreRead(m.value, conditional || m.key in CONDITIONALS);
    case Data => NoObjectSchemasLookClosed(m.value, conditional);
  }

  /** On plain documents the report is exact: it is empty if and only if every object schema at every
      schema position rejects unknown fields. */
  lemma ReportIsExactOnPlainDocuments(schema: Value, path: string)
    requires PlainDocument(schema)
    ensures OpenPaths(schema, path, false) == [] <==> ClosedSchema(schema, false)
  {
    PlainDocumentsAreRead(schema, false);
  }

  // ------------------------------------------------------------------ the misreadings occur

  /** A closed object schema with one more keyword. */
  function ClosedObject(keyword: string, value: Value): Value {
    Object([Member("type", String("object")), Member("additionalProperties", Bool(false)), Member(keyword, value)])
  }

  lemma ClosedObjectIs(keyword: string, value: Value)
    requires keyword !in CONDITIONALS
    ensures Closed(ClosedObject(keyword, value), false) <==> Closed(value, false)
    ensures ClosedSchema(ClosedObject(keyword, value), false) <==> ClosedMember(Member(keyword, value), false)
  {
    var s := ClosedObject(keyword, value);
    assert s.members[0].key == "type" && s.members[1].key == "additionalProperties";
    assert s.members[2] == Member(keyword, value);
    assert Lookup(s.members[1..], "additionalProperties") == Some(Bool(false));
    assert Lookup(s.members, "additionalProperties") == Some(Bool(false));
    assert Closed(String("object"), false) && Closed(Bool(false), false);
    assert ClosedMember(s.members[0], false) && ClosedMember(s.members[1], false);
  }

  /** How the walk reads a mapping of one name. */
  lemma SingleNameIs(name: string, schema: Value)
    requires schema.Object?
    ensures Closed(Object([Member(name, schema)]), false) <==>
      name != PROPERTIES && Closed(schema, name in CONDITIONALS)
  {
    var mapping := Object([Member(name, schema)]);
    assert mapping.members[0] == Member(name, schema);
    assert Get(mapping, name) == Some(schema);
    assert name != PROPERTIES ==> PROPERTIES !in KeysOf(mapping.members);
    assert name == PROPERTIES ==> "additionalProperties" !in KeysOf(mapping.members);
    assert Get(mapping, "type") != Some(String("object"));
  }

  lemma SingleNameCloses(keyword: string, name: string, schema: Value)
    requires keyword in NAME_KEYED
    ensures ClosedMember(Member(keyword, Object([Member(name, schema)])), false) <==> ClosedSchema(schema, false)
  {
    var m := Member(keyword, Object([Member(name, schema)]));
    assert RoleOf(m) == Named && m.value.members[0].value == schema;
  }

  /** The misses, under every keyword that maps names (a property, a definition, a pattern), for every
      name and every schema that is open only for being untyped: the document is open, and the audit
      sees it unless the name is that of a conditional. */
  lemma ConditionalNamesHideOpenSchemas(keyword: string, name: string, open: Value, path: string)
    requires keyword in NAME_KEYED && name != PROPERTIES
    requires open.Object? && Closed(open, true) && !Closed(open, false) && !ClosedSchema(open, false)
    ensures !ClosedSchema(ClosedObject(keyword, Object([Member(name, open)])), false)
    ensures OpenPaths(ClosedObject(keyword, Object([Member(name, open)])), path, false) == [] <==> name in CONDITIONALS
  {
    assert keyword !in CONDITIONALS by { assert CONDITIONALS !! NAME_KEYED; }
    ClosedObjectIs(keyword, Object([Member(name, open)]));
    SingleNameIs(name, open);
    SingleNameCloses(keyword, name, open);
  }

  /** The false alarms: any closed object schema is reported once it is named `properties`, although
      the document is closed throughout. */
  lemma NamePropertiesIsReported(keyword: string, closed: Value, path: string)
    requires keyword in NAME_KEYED && closed.Object? && ClosedSchema(closed, false)
    ensures ClosedSchema(ClosedObject(keyword, Object([Member(PROPERTIES, closed)])), false)
    ensures OpenPaths(ClosedObject(keyword, Object([Member(PROPERTIES, closed)])), path, false) != []
  {
    assert keyword !in CONDITIONALS by { assert CONDITIONALS !! NAME_KEYED; }
    ClosedObjectIs(keyword, Object([Member(PROPERTIES, closed)]));
    SingleNameIs(PROPERTIES, closed);
    SingleNameCloses(keyword, PROPERTIES, closed);
  }

  /** And so is a closed document with data, a default or an example say, that would be open as a
      schema. */
  lemma DataIsReported(keyword: string, data: Value, path: string)
    requires RoleOf(Member(keyword, data)) == Data && !Closed(data, false)
    ensures ClosedSchema(ClosedObject(keyword, data), false)
    ensures OpenPaths(ClosedObject(keyword, data), path, false) != []
  {
    RolesAndConditionals(Member(keyword, data));
    ClosedObjectIs(keyword, data);
  }
}
