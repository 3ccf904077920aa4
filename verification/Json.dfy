/** JSON documents as the validators hold them after loading: objects keep their member order. */
module Json {
  import opened Options

  datatype Value =
    | Null
    | Bool(b: bool)
    | Number(n: real)
    | String(s: string)
    | Array(items: seq<Value>)
    | Object(members: seq<Member>)

  datatype Member = Member(key: string, value: Value)

  predicate IsScalar(v: Value) {
    !v.Array? && !v.Object?
  }

  function KeysOf(members: seq<Member>): set<string> {
    set i | 0 <= i < |members| :: members[i].key
  }

  /** `members[key]`, when present. A loaded mapping has each key once. */
  function Lookup(members: seq<Member>, key: string): (r: Option<Value>)
    ensures r.Some? <==> key in KeysOf(members)
    ensures r.Some? ==> exists i :: 0 <= i < |members| && members[i] == Member(key, r.value)
  {
    if members == [] then None
    else if members[0].key == key then
      assert members[0] == Member(key, members[0].value);
      Some(members[0].value)
    else
      var r := Lookup(members[1..], key);
      assert members == [members[0]] + members[1..];
      assert r.Some? ==>
        exists i :: 0 <= i < |members[1..]| && members[1..][i] == Member(key, r.value)
          && members[i + 1] == members[1..][i];
      r
  }

  /** `node.get(key)` on a mapping. */
  function Get(node: Value, key: string): (r: Option<Value>)
    ensures r.Some? ==> node.Object? && exists i :: 0 <= i < |node.members| && node.members[i] == Member(key, r.value)
    ensures r.Some? ==> r.value < node
  {
    if node.Object? then Lookup(node.members, key) else None
  }
}
