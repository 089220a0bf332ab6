/** Looking members up by key, as cJSON does with and without regard to letter case. */
module CJsonLookup {
  import opened Wrappers
  import opened CStrings
  import opened CJson

  /** The children of an item, with or without keys. */
  function Children(v: Json): seq<Json> {
    match v
    case Array(items) => items
    case Object(members) => seq(|members|, i requires 0 <= i < |members| => members[i].value)
    case _ => []
  }

  function Fold(s: string, caseSensitive: bool): string {
    if caseSensitive then s else Lower(s)
  }

  /** The first member with that key, or their number. */
  function MemberIndex(ms: seq<Member>, name: string, cs: bool): (i: nat)
    ensures i <= |ms|
    ensures i < |ms| ==> Fold(ms[i].key, cs) == Fold(name, cs)
    ensures forall j :: 0 <= j < i ==> Fold(ms[j].key, cs) != Fold(name, cs)
  {
    if ms == [] || Fold(ms[0].key, cs) == Fold(name, cs) then 0 else 1 + MemberIndex(ms[1..], name, cs)
  }

  /** `get_object_item` on the members of an object. */
  function Get(ms: seq<Member>, name: string, cs: bool): Option<Json> {
    var i := MemberIndex(ms, name, cs);
    if i < |ms| then Some(ms[i].value) else None
  }

  /** What is left when that member is detached. */
  function Without(ms: seq<Member>, name: string, cs: bool): seq<Member> {
    var i := MemberIndex(ms, name, cs);
    if i < |ms| then ms[..i] + ms[i + 1..] else ms
  }

  /** What `cJSON_GetObjectItem` finds. The children of anything but an object have no keys. */
  function Field(v: Json, name: string): Option<Json> {
    if v.Object? then Get(v.members, name, false) else None
  }

  /** `get_object_item` as a loop. */
  method GetObjectItem(v: Json, name: string, cs: bool) returns (r: Option<Json>)
    ensures r == if v.Object? then Get(v.members, name, cs) else None
  {
    if !v.Object? {
      return None;
    }
    var i := 0;
    while i < |v.members| && Fold(v.members[i].key, cs) != Fold(name, cs)
      invariant i <= MemberIndex(v.members, name, cs)
    {
      i := i + 1;
    }
    r := if i < |v.members| then Some(v.members[i].value) else None;
  }

  /** A member is found if no earlier key is the same up to letter case. */
  lemma FieldAt(ms: seq<Member>, i: nat)
    requires i < |ms| && forall j :: 0 <= j < i ==> Lower(ms[j].key) != Lower(ms[i].key)
    ensures Field(Object(ms), ms[i].key) == Some(ms[i].value)
  {
  }

  /** And nothing is found if no key is the same. */
  lemma NoField(ms: seq<Member>, name: string)
    requires forall j :: 0 <= j < |ms| ==> Lower(ms[j].key) != Lower(name)
    ensures Field(Object(ms), name) == None
  {
  }

  lemma {:induction false} IndexByFold(ms: seq<Member>, a: string, b: string, cs: bool)
    requires Fold(a, cs) == Fold(b, cs)
    ensures MemberIndex(ms, a, cs) == MemberIndex(ms, b, cs)
  {
    hide Fold;
    if ms != [] {
      IndexByFold(ms[1..], a, b, cs);
    }
  }

  /** Names that differ in letter case only find the same member. */
  lemma FieldIgnoresCase(v: Json, a: string, b: string)
    requires Lower(a) == Lower(b)
    ensures Field(v, a) == Field(v, b)
  {
    if v.Object? {
      IndexByFold(v.members, a, b, false);
    }
  }
}
