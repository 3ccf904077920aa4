/** The walk for objects open to unknown fields (`_unclosed_object_paths` in
`scripts/validate_run_api.py`) and the locations it reports. */
module OpenObjects {
  import opened Options
  import opened Json
  import Text

  const PROPERTIES := "properties"
  const CONDITIONALS := {"if", "then", "else"}

  /** `node["properties"]`, when it is a mapping. */
  function PropertiesOf(node: Value): (r: Option<seq<Member>>)
    ensures r.Some? ==> node.Object? && forall i :: 0 <= i < |r.value| ==> r.value[i].value < node
  {
    match Get(node, PROPERTIES)
    case Some(Object(ps)) => Some(ps)
    case _ => None
  }

  // ------------------------------------------------------------------ open objects

  /** An object schema: typed so, or bearing properties outside a conditional fragment. */
  predicate IsObjectSchema(node: Value, conditional: bool) {
    Get(node, "type") == Some(String("object")) || (PropertiesOf(node).Some? && !conditional)
  }

  predicate OpenHere(node: Value, conditional: bool) {
    IsObjectSchema(node, conditional) && Get(node, "additionalProperties") != Some(Bool(false))
  }

  predicate Closed(node: Value, conditional: bool)
    decreases node
  {
    match node
    case Object(ms) =>
      && !OpenHere(node, conditional)
      && forall i :: 0 <= i < |ms| ==> Closed(ms[i].value, conditional || ms[i].key in CONDITIONALS)
    case Array(items) => forall i :: 0 <= i < |items| ==> Closed(items[i], conditional)
    case _ => true
  }

  /** `_unclosed_object_paths`: the locations of the open object schemas; none exactly when the
      schema is closed throughout. */
  function OpenPaths(node: Value, path: string, conditional: bool): (paths: seq<string>)
    ensures paths == [] <==> Closed(node, conditional)
    decreases node, 1
  {
    match node
    case Object(ms) =>
      (if OpenHere(node, conditional) then [path] else []) + OpenPathsOfMembers(ms, path, conditional)
    case Array(items) => OpenPathsOfItems(items, 0, path, conditional)
    case _ => []
  }

  function OpenPathsOfMembers(ms: seq<Member>, path: string, conditional: bool): (paths: seq<string>)
    ensures paths == [] <==> forall i :: 0 <= i < |ms| ==> Closed(ms[i].value, conditional || ms[i].key in CONDITIONALS)
    decreases ms, 0
  {
    if ms == [] then []
    else
      assert forall i :: 0 < i < |ms| ==> ms[i] == ms[1..][i - 1];
      assert forall i :: 0 <= i < |ms[1..]| ==> ms[1..][i] == ms[i + 1];
      OpenPaths(ms[0].value, path + "/" + ms[0].key, conditional || ms[0].key in CONDITIONALS)
      + OpenPathsOfMembers(ms[1..], path, conditional)
  }

  function OpenPathsOfItems(items: seq<Value>, index: nat, path: string, conditional: bool): (paths: seq<string>)
    ensures paths == [] <==> forall i :: 0 <= i < |items| ==> Closed(items[i], conditional)
    decreases items, 0
  {
    if items == [] then []
    else
      assert forall i :: 0 < i < |items| ==> items[i] == items[1..][i - 1];
      assert forall i :: 0 <= i < |items[1..]| ==> items[1..][i] == items[i + 1];
      OpenPaths(items[0], path + "/" + Text.OfNat(index), conditional)
      + OpenPathsOfItems(items[1..], index + 1, path, conditional)
  }

  /** Following the keys and indices of `steps` ends at a mapping that looks like an open object. */
  ghost predicate OpenAt(node: Value, conditional: bool, steps: seq<string>)
    decreases |steps|
  {
    if steps == [] then node.Object? && OpenHere(node, conditional)
    else
      match node
      case Object(ms) => exists i :: 0 <= i < |ms| && OpenBelowMember(ms[i], conditional, steps)
      case Array(items) => exists i :: 0 <= i < |items| && OpenBelowItem(items[i], i, conditional, steps)
      case _ => false
  }

  ghost predicate OpenBelowMember(m: Member, conditional: bool, steps: seq<string>)
    requires steps != []
    decreases |steps|, 0
  {
    m.key == steps[0] && OpenAt(m.value, conditional || m.key in CONDITIONALS, steps[1..])
  }

  ghost predicate OpenBelowItem(item: Value, index: nat, conditional: bool, steps: seq<string>)
    requires steps != []
    decreases |steps|, 0
  {
    Text.OfNat(index) == steps[0] && OpenAt(item, conditional, steps[1..])
  }

  function PathOf(steps: seq<string>): string {
    if steps == [] then "" else "/" + steps[0] + PathOf(steps[1..])
  }

  ghost predicate Names(path: string, p: string, steps: seq<string>) {
    p == path + PathOf(steps)
  }

  ghost predicate MemberLeadsTo(m: Member, path: string, conditional: bool, p: string) {
    exists steps :: steps != [] && OpenBelowMember(m, conditional, steps) && Names(path, p, steps)
  }

  ghost predicate ItemLeadsTo(item: Value, index: nat, path: string, conditional: bool, p: string) {
    exists steps :: steps != [] && OpenBelowItem(item, index, conditional, steps) && Names(path, p, steps)
  }

  ghost predicate SomeMemberLeadsTo(ms: seq<Member>, path: string, conditional: bool, p: string) {
    exists i :: 0 <= i < |ms| && MemberLeadsTo(ms[i], path, conditional, p)
  }

  ghost predicate SomeItemLeadsTo(items: seq<Value>, index: nat, path: string, conditional: bool, p: string) {
    exists i :: 0 <= i < |items| && ItemLeadsTo(items[i], index + i, path, conditional, p)
  }

  /** The report is the list of locations of what looks open, spelled key by key from the root. */
  lemma {:induction false} PathsNameWhatLooksOpen(node: Value, path: string, conditional: bool, p: string)
    ensures p in OpenPaths(node, path, conditional) <==>
      exists steps :: OpenAt(node, conditional, steps) && Names(path, p, steps)
    decreases node, 1
  {
    match node
    case Object(ms) =>
      MemberPathsNameWhatLooksOpen(ms, path, conditional, p);
      OpenMembersSplit(node, path, conditional, p);
    case Array(items) =>
      ItemPathsNameWhatLooksOpen(items, 0, path, conditional, p);
      OpenItemsSplit(node, path, conditional, p);
    case _ =>
  }

  lemma OpenMembersSplit(node: Value, path: string, conditional: bool, p: string)
    requires node.Object?
    ensures (exists steps :: OpenAt(node, conditional, steps) && Names(path, p, steps)) <==>
      (OpenHere(node, conditional) && p == path) || SomeMemberLeadsTo(node.members, path, conditional, p)
  {
    var ms := node.members;
    assert path + PathOf([]) == path;
    if OpenHere(node, conditional) && p == path {
      assert OpenAt(node, conditional, []) && Names(path, p, []);
    }
    if i :| 0 <= i < |ms| && MemberLeadsTo(ms[i], path, conditional, p) {
      var steps :| steps != [] && OpenBelowMember(ms[i], conditional, steps) && Names(path, p, steps);
      assert OpenAt(node, conditional, steps);
    }
    if steps :| steps != [] && OpenAt(node, conditional, steps) && Names(path, p, steps) {
      var i :| 0 <= i < |ms| && OpenBelowMember(ms[i], conditional, steps);
      assert MemberLeadsTo(ms[i], path, conditional, p);
    }
  }

  lemma OpenItemsSplit(node: Value, path: string, conditional: bool, p: string)
    requires node.Array?
    ensures (exists steps :: OpenAt(node, conditional, steps) && Names(path, p, steps)) <==>
      SomeItemLeadsTo(node.items, 0, path, conditional, p)
  {
    var items := node.items;
    if i :| 0 <= i < |items| && ItemLeadsTo(items[i], 0 + i, path, conditional, p) {
      var steps :| steps != [] && OpenBelowItem(items[i], i, conditional, steps) && Names(path, p, steps);
      assert OpenAt(node, conditional, steps);
    }
    if steps :| OpenAt(node, conditional, steps) && Names(path, p, steps) {
      var i :| 0 <= i < |items| && OpenBelowItem(items[i], i, conditional, steps);
      assert ItemLeadsTo(items[i], 0 + i, path, conditional, p);
    }
  }

  lemma StepInPath(path: string, key: string, steps: seq<string>, p: string)
    ensures Names(path, p, [key] + steps) <==> Names(path + "/" + key, p, steps)
  {
    assert ([key] + steps)[1..] == steps;
    assert path + ("/" + key + PathOf(steps)) == path + "/" + key + PathOf(steps);
  }

  lemma {:induction false} MemberNamesWhatLooksOpen(m: Member, path: string, conditional: bool, p: string)
    ensures p in OpenPaths(m.value, path + "/" + m.key, conditional || m.key in CONDITIONALS) <==>
      MemberLeadsTo(m, path, conditional, p)
    decreases m, 0
  {
    var below := conditional || m.key in CONDITIONALS;
    PathsNameWhatLooksOpen(m.value, path + "/" + m.key, below, p);
    if p in OpenPaths(m.value, path + "/" + m.key, below) {
      var steps :| OpenAt(m.value, below, steps) && Names(path + "/" + m.key, p, steps);
      StepInPath(path, m.key, steps, p);
      assert ([m.key] + steps)[1..] == steps;
      assert OpenBelowMember(m, conditional, [m.key] + steps);
    }
    if steps :| steps != [] && OpenBelowMember(m, conditional, steps) && Names(path, p, steps) {
      StepInPath(path, m.key, steps[1..], p);
      assert steps == [m.key] + steps[1..];
    }
  }

  lemma {:induction false} MemberPathsNameWhatLooksOpen(ms: seq<Member>, path: string, conditional: bool, p: string)
    ensures p in OpenPathsOfMembers(ms, path, conditional) <==> SomeMemberLeadsTo(ms, path, conditional, p)
    decreases ms, 0
  {
    if ms == [] {
    } else {
      MemberNamesWhatLooksOpen(ms[0], path, conditional, p);
      MemberPathsNameWhatLooksOpen(ms[1..], path, conditional, p);
      SomeMemberSplits(ms, path, conditional, p);
    }
  }

  lemma SomeMemberSplits(ms: seq<Member>, path: string, conditional: bool, p: string)
    requires ms != []
    ensures SomeMemberLeadsTo(ms, path, conditional, p) <==>
      MemberLeadsTo(ms[0], path, conditional, p) || SomeMemberLeadsTo(ms[1..], path, conditional, p)
  {
    var rest := ms[1..];
    if i :| 0 <= i < |rest| && MemberLeadsTo(rest[i], path, conditional, p) {
      assert rest[i] == ms[i + 1];
    }
    if i :| 0 < i < |ms| && MemberLeadsTo(ms[i], path, conditional, p) {
      assert rest[i - 1] == ms[i];
    }
  }

  lemma SomeItemSplits(items: seq<Value>, index: nat, path: string, conditional: bool, p: string)
    requires items != []
    ensures SomeItemLeadsTo(items, index, path, conditional, p) <==>
      ItemLeadsTo(items[0], index, path, conditional, p) || SomeItemLeadsTo(items[1..], index + 1, path, conditional, p)
  {
    var rest := items[1..];
    if i :| 0 <= i < |rest| && ItemLeadsTo(rest[i], index + 1 + i, path, conditional, p) {
      assert ItemLeadsTo(items[i + 1], index + (i + 1), path, conditional, p);
    }
    if i :| 0 < i < |items| && ItemLeadsTo(items[i], index + i, path, conditional, p) {
      assert ItemLeadsTo(rest[i - 1], index + 1 + (i - 1), path, conditional, p);
    }
    assert index + 0 == index;
  }

  lemma {:induction false} ItemNamesWhatLooksOpen(item: Value, index: nat, path: string, conditional: bool, p: string)
    ensures p in OpenPaths(item, path + "/" + Text.OfNat(index), conditional) <==>
      ItemLeadsTo(item, index, path, conditional, p)
    decreases item, 2
  {
    var key := Text.OfNat(index);
    PathsNameWhatLooksOpen(item, path + "/" + key, conditional, p);
    if p in OpenPaths(item, path + "/" + key, conditional) {
      var steps :| OpenAt(item, conditional, steps) && Names(path + "/" + key, p, steps);
      StepInPath(path, key, steps, p);
      assert ([key] + steps)[1..] == steps;
      assert OpenBelowItem(item, index, conditional, [key] + steps);
    }
    if steps :| steps != [] && OpenBelowItem(item, index, conditional, steps) && Names(path, p, steps) {
      StepInPath(path, key, steps[1..], p);
      assert steps == [key] + steps[1..];
    }
  }

  lemma {:induction false} ItemPathsNameWhatLooksOpen(items: seq<Value>, index: nat, path: string, conditional: bool,
      p: string)
    ensures p in OpenPathsOfItems(items, index, path, conditional) <==>
      SomeItemLeadsTo(items, index, path, conditional, p)
    decreases items, 0
  {
    if items == [] {
    } else {
      ItemNamesWhatLooksOpen(items[0], index, path, conditional, p);
      ItemPathsNameWhatLooksOpen(items[1..], index + 1, path, conditional, p);
      SomeItemSplits(items, index, path, conditional, p);
    }
  }

  // ------------------------------------------------------------------ what is reported, member by member

  /** Typed an object, or bearing a mapping of properties outside conditionals, and not closed. */
  predicate LeftOpen(node: Value, below: bool) {
    && node.Object?
    && (|| Get(node, "type") == Some(String("object"))
        || (!below && Get(node, "properties").Some? && Get(node, "properties").value.Object?))
    && Get(node, "additionalProperties") != Some(Bool(false))
  }

  /** Following the keys and indices of `steps` from `node` leads to a mapping left open; `below` tells
      whether a key `if`, `then` or `else` was passed on the way. */
  ghost predicate LeadsToLeftOpen(node: Value, below: bool, steps: seq<string>)
    decreases |steps|
  {
    if steps == [] then LeftOpen(node, below)
    else
      match node
      case Object(ms) =>
        exists i :: 0 <= i < |ms| && ms[i].key == steps[0]
          && LeadsToLeftOpen(ms[i].value, below || steps[0] in {"if", "then", "else"}, steps[1..])
      case Array(items) =>
        exists i :: 0 <= i < |items| && Text.OfNat(i) == steps[0] && LeadsToLeftOpen(items[i], below, steps[1..])
      case _ => false
  }

  lemma OpenHereSays(node: Value, below: bool)
    requires node.Object?
    ensures OpenHere(node, below) <==> LeftOpen(node, below)
  {
  }

  lemma {:induction false} OpenAtSays(node: Value, below: bool, steps: seq<string>)
    ensures OpenAt(node, below, steps) <==> LeadsToLeftOpen(node, below, steps)
    decreases |steps|
  {
    if steps == [] {
      if node.Object? {
        OpenHereSays(node, below);
      }
    } else {
      match node
      case Object(ms) =>
        forall i | 0 <= i < |ms| && ms[i].key == steps[0]
          ensures OpenBelowMember(ms[i], below, steps) <==>
            LeadsToLeftOpen(ms[i].value, below || steps[0] in {"if", "then", "else"}, steps[1..])
        {
          OpenAtSays(ms[i].value, below || steps[0] in {"if", "then", "else"}, steps[1..]);
        }
      case Array(items) =>
        forall i | 0 <= i < |items|
          ensures OpenAt(items[i], below, steps[1..]) <==> LeadsToLeftOpen(items[i], below, steps[1..])
        {
          OpenAtSays(items[i], below, steps[1..]);
        }
      case _ =>
    }
  }

  /** The whole report, over the members of the document: a path is in it exactly when it spells the way
      to a mapping that is typed an object, whatever else it holds, or bears properties with no
      conditional key on the way, and whose `additionalProperties` is not `false`. */
  lemma ReportSays(schema: Value, path: string, p: string)
    ensures p in OpenPaths(schema, path, false) <==>
      exists steps :: LeadsToLeftOpen(schema, false, steps) && Names(path, p, steps)
  {
    PathsNameWhatLooksOpen(schema, path, false, p);
    forall steps
      ensures OpenAt(schema, false, steps) <==> LeadsToLeftOpen(schema, false, steps)
    {
      OpenAtSays(schema, false, steps);
    }
  }

  /** Of one mapping: it is reported at its own path exactly when it is left open. */
  lemma MappingIsReportedIff(node: Value, path: string)
    requires node.Object?
    ensures path in OpenPaths(node, path, false) <==>
      && (|| Get(node, "type") == Some(String("object"))
          || (Get(node, "properties").Some? && Get(node, "properties").value.Object?))
      && Get(node, "additionalProperties") != Some(Bool(false))
  {
    ReportSays(node, path, path);
    assert Names(path, path, []);
    forall steps | Names(path, path, steps)
      ensures steps == []
    {
      assert |path + PathOf(steps)| == |path| + |PathOf(steps)|;
    }
  }
}
