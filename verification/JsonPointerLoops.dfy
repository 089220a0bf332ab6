/** JSON Pointer as the C code runs it, proved against the functions of JsonPointers. */
module JsonPointerLoops {
  import opened Wrappers
  import opened CStrings
  import opened CJsonNumbers
  import opened CJson
  import opened CJsonLookup
  import opened JsonPointers

  /** `encode_string_as_pointer`. */
  method EncodeStringAsPointer(source: string) returns (destination: string)
    ensures destination == Encode(source)
  {
    hide Encode;
    destination := "";
    EncodeMore(source, 0, "");
    for i := 0 to |source|
      invariant destination + Encode(source[i..]) == Encode(source)
    {
      EncodeMore(source, i, destination);
      if source[i] == '/' {
        destination := destination + "~1";
      } else if source[i] == '~' {
        destination := destination + "~0";
      } else {
        destination := destination + [source[i]];
      }
    }
    EncodeMore(source, |source|, destination);
  }

  lemma Regroup(a: string, b: string, c: string)
    ensures a + (b + c) == a + b + c
  {
  }

  lemma EncodeMore(source: string, i: nat, done: string)
    requires i <= |source|
    ensures done + Encode(source[i..]) ==
            if i < |source| then done + EncodeChar(source[i]) + Encode(source[i + 1..]) else done
    ensures source[0..] == source && "" + Encode(source) == Encode(source)
  {
    hide EncodeChar;
    var s := source[i..];
    if i < |source| {
      assert s[1..] == source[i + 1..];
      Regroup(done, EncodeChar(source[i]), Encode(s[1..]));
    }
  }

  /** `compare_pointers`. */
  method TokenIs(name: string, pointer: string, cs: bool) returns (same: bool)
    ensures same == ComparePointers(name, pointer, cs)
  {
    var n, p := 0, 0;
    assert name[0..] == name && pointer[0..] == pointer;
    while n < |name| && p < |pointer| && pointer[p] != '/'
      invariant n <= |name| && p <= |pointer|
      invariant ComparePointers(name[n..], pointer[p..], cs) == ComparePointers(name, pointer, cs)
    {
      assert name[n..][1..] == name[n + 1..] && pointer[p..][1..] == pointer[p + 1..];
      if pointer[p] == '~' {
        var next := ByteAt(pointer, p + 1);
        if (next != '0' || name[n] != '~') && (next != '1' || name[n] != '/') {
          return false;
        }
        assert pointer[p..][2..] == pointer[p + 2..];
        p := p + 1;
      } else if (!cs && LowerChar(name[n]) != LowerChar(pointer[p])) || (cs && name[n] != pointer[p]) {
        return false;
      }
      n, p := n + 1, p + 1;
    }
    if (p < |pointer| && pointer[p] != '/') != (n < |name|) {
      return false;
    }
    return true;
  }

  /** `decode_array_index_from_pointer`. */
  method DecodeArrayIndex(pointer: string) returns (index: Option<int>)
    ensures index == DecodeIndex(pointer)
  {
    if ByteAt(pointer, 0) == '0' && ByteAt(pointer, 1) != '\0' && ByteAt(pointer, 1) != '/' {
      return None;
    }
    var parsed, position := 0, 0;
    while ByteAt(pointer, position) >= '0' && pointer[0] <= '9'
      invariant position <= |pointer| && DecodeLoop(pointer, parsed, position) == DecodeLoop(pointer, 0, 0)
      decreases |pointer| - position
    {
      parsed, position := 10 * parsed + (pointer[position] as int - '0' as int), position + 1;
    }
    if ByteAt(pointer, position) != '\0' && ByteAt(pointer, position) != '/' {
      return None;
    }
    return Some(parsed);
  }

  /** `get_item_from_pointer`: the place of the node and the node. */
  method GetItemFromPointer(v: Json, pointer: string, cs: bool) returns (place: Option<Place>)
    ensures place == Resolve(v, [], pointer, cs)
  {
    hide Step;
    var current, here, p := v, [], pointer;
    while p != "" && p[0] == '/'
      invariant Resolve(current, here, p, cs) == Resolve(v, [], pointer, cs)
      decreases |p|
    {
      p := p[1..];
      var child := FollowToken(current, p, cs);
      if child == None {
        return None;
      }
      current, here := Children(current)[child.value], here + [child.value];
      ghost var q := p;
      while p != "" && p[0] != '/'
        invariant SkipToken(p) == SkipToken(q) && |p| <= |q|
        decreases |p|
      {
        p := p[1..];
      }
    }
    return Some(here);
  }

  /** The body of that loop, up to the next token. */
  method FollowToken(v: Json, p: string, cs: bool) returns (child: Option<nat>)
    ensures child == Step(v, p, cs)
  {
    if v.Array? {
      var index := DecodeArrayIndex(p);
      if index == None {
        return None;
      }
      return if 0 <= index.value < |v.items| then Some(index.value) else None;
    } else if v.Object? {
      var i := 0;
      var found := false;
      assert v.members[0..] == v.members;
      while i < |v.members| && !found
        invariant i <= |v.members|
        invariant i + NamedIndex(v.members[i..], p, cs) == NamedIndex(v.members, p, cs)
        invariant found ==> i == NamedIndex(v.members, p, cs) < |v.members|
        decreases |v.members| - i, !found
      {
        assert v.members[i..][1..] == v.members[i + 1..];
        found := TokenIs(v.members[i].key, p, cs);
        if !found {
          i := i + 1;
        }
      }
      return if found then Some(i) else None;
    } else {
      return None;
    }
  }

  /** `cJSONUtils_FindPointerFromObjectTo`. */
  method FindPointerFromObjectTo(v: Json, here: Place, target: Place) returns (pointer: Option<string>)
    ensures pointer == FindPointer(v, here, target)
    decreases v
  {
    if here == target {
      return Some("");
    }
    var children := Children(v);
    var k := 0;
    while k < |children|
      invariant k <= |children| && FindBelow(v, k, here, target) == FindBelow(v, 0, here, target)
    {
      ChildSmaller(v, k);
      var found := FindPointerFromObjectTo(children[k], here + [k], target);
      if found.Some? {
        if v.Array? {
          return Some("/" + Digits(k) + found.value);
        } else {
          var key := EncodeStringAsPointer(v.members[k].key);
          return Some("/" + key + found.value);
        }
      }
      k := k + 1;
    }
    return None;
  }
}
