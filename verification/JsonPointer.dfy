/**
 JSON Pointer (RFC 6901) as cJSON_Utils.c implements it: finding the pointer of a node, and
 finding the node of a pointer. A node is known by its place: the indices of the children on
 the way to it, so equal values at different places are different nodes.
 */
module JsonPointers {
  import opened Wrappers
  import opened CStrings
  import opened CJsonNumbers
  import opened CJson
  import opened CJsonLookup

  type Place = seq<nat>

  // ---------------------------------------------------------------- encoding

  /** `encode_string_as_pointer` on one character. */
  function EncodeChar(ch: char): string {
    if ch == '/' then "~1" else if ch == '~' then "~0" else [ch]
  }

  function Encode(s: string): string {
    if s == "" then "" else EncodeChar(s[0]) + Encode(s[1..])
  }

  /** `compare_pointers`: is the first token of `p` the name? */
  predicate ComparePointers(name: string, p: string, cs: bool) {
    if name != "" && p != "" && p[0] != '/' then
      if p[0] == '~' then
        (|p| > 1 && ((p[1] == '0' && name[0] == '~') || (p[1] == '1' && name[0] == '/')))
        && ComparePointers(name[1..], p[2..], cs)
      else
        (if cs then name[0] == p[0] else LowerChar(name[0]) == LowerChar(p[0]))
        && ComparePointers(name[1..], p[1..], cs)
    else (p != "" && p[0] != '/') == (name != "")
  }

  /** A byte of a C string, whose last is followed by NUL. */
  function ByteAt(p: string, i: nat): char {
    if i < |p| then p[i] else '\0'
  }

  datatype Decoded = Decoded(index: int, position: nat)

  /** The loop of `decode_array_index_from_pointer`, which tests the upper bound only on the
      first byte. */
  function DecodeLoop(p: string, index: int, position: nat): (d: Decoded)
    requires position <= |p|
    ensures position <= d.position <= |p|
    ensures p != "" && p[0] > '9' ==> d.position == position
    ensures p != "" && p[0] <= '9' && d.position < |p| ==> p[d.position] < '0'
    ensures forall k :: position <= k < d.position ==> p[k] >= '0'
    decreases |p| - position
  {
    if position < |p| && p[position] >= '0' && p[0] <= '9' then
      DecodeLoop(p, 10 * index + (p[position] as int - '0' as int), position + 1)
    else Decoded(index, position)
  }

  function DecodeIndex(p: string): Option<int> {
    if ByteAt(p, 0) == '0' && ByteAt(p, 1) != '\0' && ByteAt(p, 1) != '/' then None
    else
      var d := DecodeLoop(p, 0, 0);
      if ByteAt(p, d.position) != '\0' && ByteAt(p, d.position) != '/' then None else Some(d.index)
  }

  /** What follows the first token. */
  function SkipToken(p: string): (r: string)
    ensures |r| <= |p|
  {
    if p == "" || p[0] == '/' then p else SkipToken(p[1..])
  }

  // ---------------------------------------------------------------- resolving

  /** The first member the token names, or their number. */
  function NamedIndex(ms: seq<Member>, p: string, cs: bool): (i: nat)
    ensures i <= |ms|
  {
    if ms == [] || ComparePointers(ms[0].key, p, cs) then 0 else 1 + NamedIndex(ms[1..], p, cs)
  }

  /** The child the first token leads to. */
  function Step(v: Json, p: string, cs: bool): (r: Option<nat>)
    ensures r.Some? ==> r.value < |Children(v)|
  {
    if v.Array? then
      var index := DecodeIndex(p);
      if index.Some? && 0 <= index.value < |v.items| then Some(index.value) else None
    else if v.Object? then
      var i := NamedIndex(v.members, p, cs);
      if i < |v.members| then Some(i) else None
    else None
  }

  /** `get_item_from_pointer`. */
  function Resolve(v: Json, here: Place, p: string, cs: bool): Option<Place>
    decreases |p|
  {
    if p == "" || p[0] != '/' then Some(here)
    else
      var child := Step(v, p[1..], cs);
      if child == None then None
      else Resolve(Children(v)[child.value], here + [child.value], SkipToken(p[1..]), cs)
  }

  // ---------------------------------------------------------------- finding

  /** What the pointer of a child begins with. */
  function Token(v: Json, k: nat): string
    requires k < |Children(v)|
  {
    if v.Array? then Digits(k) else Encode(v.members[k].key)
  }

  /** `cJSONUtils_FindPointerFromObjectTo`, for the node at place `target`. */
  function FindPointer(v: Json, here: Place, target: Place): Option<string>
    decreases v, 1, 0
  {
    if here == target then Some("") else FindBelow(v, 0, here, target)
  }

  /** Its loop, from the child `k` on. */
  function FindBelow(v: Json, k: nat, here: Place, target: Place): Option<string>
    requires k <= |Children(v)|
    decreases v, 0, |Children(v)| - k
  {
    if k == |Children(v)| then None
    else
      assert Children(v)[k] < v by { ChildSmaller(v, k); }
      var found := FindPointer(Children(v)[k], here + [k], target);
      if found.Some? then Some("/" + Token(v, k) + found.value) else FindBelow(v, k + 1, here, target)
  }

  lemma ChildSmaller(v: Json, k: nat)
    requires k < |Children(v)|
    ensures Children(v)[k] < v
  {
  }

  // ---------------------------------------------------------------- tokens are read back

  predicate TokenEnds(rest: string) {
    rest == "" || rest[0] == '/'
  }

  /** A name is recognised in its encoded form, and no other name is. */
  lemma {:induction false} CompareEncoded(name: string, key: string, rest: string, cs: bool)
    requires TokenEnds(rest)
    ensures ComparePointers(name, Encode(key) + rest, cs) <==> Fold(name, cs) == Fold(key, cs)
    decreases |key|
  {
    hide Fold, FoldChar, EncodeChar;
    var p := Encode(key) + rest;
    FoldNothing(name, cs);
    FoldNothing(key, cs);
    if key == "" {
      assert p == rest;
    } else if name == "" {
      EncodeCharStart(key[0]);
      assert p[0] == EncodeChar(key[0])[0];
    } else {
      FoldCons(name, cs);
      FoldCons(key, cs);
      CompareEncoded(name[1..], key[1..], rest, cs);
      var tail := Encode(key[1..]) + rest;
      assert p == EncodeChar(key[0]) + tail;
      CompareOne(name, key[0], tail, cs);
    }
  }

  lemma CompareOne(name: string, ch: char, tail: string, cs: bool)
    requires name != ""
    ensures ComparePointers(name, EncodeChar(ch) + tail, cs) <==>
            FoldChar(name[0], cs) == FoldChar(ch, cs) && ComparePointers(name[1..], tail, cs)
  {
    var p := EncodeChar(ch) + tail;
    if ch == '/' || ch == '~' {
      assert p[2..] == tail;
    } else {
      assert p[1..] == tail;
    }
  }

  function FoldChar(ch: char, cs: bool): char {
    if cs then ch else LowerChar(ch)
  }

  lemma FoldNothing(s: string, cs: bool)
    ensures |Fold(s, cs)| == |s|
  {
  }

  lemma EncodeCharStart(ch: char)
    ensures EncodeChar(ch) != "" && EncodeChar(ch)[0] != '/'
  {
  }

  lemma FoldCons(s: string, cs: bool)
    requires s != ""
    ensures Fold(s, cs) == [FoldChar(s[0], cs)] + Fold(s[1..], cs)
    ensures Fold(s, cs)[0] == FoldChar(s[0], cs) && Fold(s, cs)[1..] == Fold(s[1..], cs)
  {
  }

  /** Everything up to the first slash. */
  function FirstToken(p: string): string {
    if TokenEnds(p) then "" else [p[0]] + FirstToken(p[1..])
  }

  lemma {:induction false} TokenThenRest(p: string)
    ensures p == FirstToken(p) + SkipToken(p) && TokenEnds(SkipToken(p))
  {
    if !TokenEnds(p) {
      TokenThenRest(p[1..]);
    }
  }

  /** A name is recognised in exactly those tokens that are the encoded form of some key it
      folds to; a tilde followed by anything but 0 or 1 names nothing. */
  lemma ComparesIff(name: string, p: string, cs: bool)
    ensures ComparePointers(name, p, cs) <==>
            exists key :: Encode(key) == FirstToken(p) && Fold(key, cs) == Fold(name, cs)
  {
    hide ComparePointers, Fold;
    if ComparePointers(name, p, cs) {
      var key := TokenKey(name, p, cs);
    }
    if key :| Encode(key) == FirstToken(p) && Fold(key, cs) == Fold(name, cs) {
      TokenThenRest(p);
      CompareEncoded(name, key, SkipToken(p), cs);
    }
  }

  lemma {:induction false} TokenKey(name: string, p: string, cs: bool) returns (key: string)
    requires ComparePointers(name, p, cs)
    ensures Encode(key) == FirstToken(p) && Fold(key, cs) == Fold(name, cs)
    decreases |name|
  {
    hide Fold, FirstToken;
    TokenNothing(p);
    if name == "" {
      key := "";
    } else {
      var ch := if p[0] != '~' then p[0] else if p[1] == '0' then '~' else '/';
      var n := |EncodeChar(ch)|;
      var rest := TokenKey(name[1..], p[n..], cs);
      key := [ch] + rest;
      TokenCons(p, ch);
      FoldCons(key, cs);
      FoldCons(name, cs);
    }
  }

  lemma TokenNothing(p: string)
    ensures TokenEnds(p) ==> FirstToken(p) == ""
  {
  }

  lemma TokenCons(p: string, ch: char)
    requires EncodeChar(ch) <= p
    ensures FirstToken(p) == EncodeChar(ch) + FirstToken(p[|EncodeChar(ch)|..])
  {
  }

  /** Every occurrence of a pair of characters replaced, from the left. */
  function Replaced(s: string, pair: string, ch: char): string
    requires |pair| == 2
  {
    if |s| < 2 then s
    else if s[..2] == pair then [ch] + Replaced(s[2..], pair, ch)
    else [s[0]] + Replaced(s[1..], pair, ch)
  }

  /** The way back as section 4 of RFC 6901 has it: `~1` becomes a slash, then `~0` a tilde. */
  lemma {:induction false} EncodeDecodes(s: string)
    ensures Replaced(Replaced(Encode(s), "~1", '/'), "~0", '~') == s
  {
    SlashesBack(s);
    TildesBack(s);
  }

  /** The tildes encoded, and the slashes as they are. */
  function Tildes(s: string): string {
    if s == "" then "" else (if s[0] == '~' then "~0" else [s[0]]) + Tildes(s[1..])
  }

  lemma ReplacedBehind(ch: char, s: string, pair: string, put: char)
    requires |pair| == 2 && ch != pair[0]
    ensures Replaced([ch] + s, pair, put) == [ch] + Replaced(s, pair, put)
  {
    assert ([ch] + s)[1..] == s;
    assert s != "" ==> ([ch] + s)[..2][0] == ch;
  }

  lemma ReplacedHere(s: string, pair: string, put: char)
    requires |pair| == 2
    ensures Replaced(pair + s, pair, put) == [put] + Replaced(s, pair, put)
  {
    assert (pair + s)[..2] == pair && (pair + s)[2..] == s;
  }

  lemma {:induction false} SlashesBack(s: string)
    ensures Replaced(Encode(s), "~1", '/') == Tildes(s)
  {
    if s != "" {
      SlashesBack(s[1..]);
      var rest := Encode(s[1..]);
      if s[0] == '/' {
        ReplacedHere(rest, "~1", '/');
      } else if s[0] == '~' {
        ReplacedBehind('0', rest, "~1", '/');
        var t := "~0" + rest;
        assert t[..2] == "~0" && t[1..] == ['0'] + rest;
        assert t[..2][1] != "~1"[1];
        assert Replaced(t, "~1", '/') == ['~'] + (['0'] + Replaced(rest, "~1", '/'));
      } else {
        ReplacedBehind(s[0], rest, "~1", '/');
      }
    }
  }

  lemma {:induction false} TildesBack(s: string)
    ensures Replaced(Tildes(s), "~0", '~') == s
  {
    if s != "" {
      TildesBack(s[1..]);
      if s[0] == '~' {
        ReplacedHere(Tildes(s[1..]), "~0", '~');
      } else {
        ReplacedBehind(s[0], Tildes(s[1..]), "~0", '~');
      }
    }
  }

  lemma {:induction false} EncodeHasNoSlash(key: string)
    ensures '/' !in Encode(key)
  {
    if key != "" {
      EncodeHasNoSlash(key[1..]);
    }
  }

  lemma {:induction false} SkipsToken(token: string, rest: string)
    requires '/' !in token && TokenEnds(rest)
    ensures SkipToken(token + rest) == rest
  {
    if token == "" {
      assert token + rest == rest;
    } else {
      SkipsToken(token[1..], rest);
      assert (token + rest)[1..] == token[1..] + rest;
    }
  }

  /** The loop reads decimal digits like any reader of numbers. */
  lemma {:induction false} LoopReads(t: string, rest: string, i: nat)
    requires t != "" && t[0] <= '9' && i <= |t| && TokenEnds(rest) && forall k :: 0 <= k < |t| ==> '0' <= t[k]
    ensures DecodeLoop(t + rest, DigitsValue(t[..i]), i) == Decoded(DigitsValue(t), |t|)
    decreases |t| - i
  {
    if i < |t| {
      LoopReads(t, rest, i + 1);
      assert t[..i + 1][..i] == t[..i];
    } else {
      assert t[..i] == t;
    }
  }

  /** The tokens taken for an index: besides decimal numbers without leading zeros these are the
      empty token, which reads as 0, and a first digit followed by anything from `0` on, each
      character worth its distance from `0` (`1:` reads as 20). */
  predicate IndexToken(t: string) {
    t == "" || t == "0" || ('1' <= t[0] <= '9' && forall k :: 0 <= k < |t| ==> t[k] >= '0')
  }

  /** Exactly those tokens are accepted, and what they read as. */
  lemma TokensDecoded(t: string, rest: string)
    requires '/' !in t && '\0' !in t && TokenEnds(rest)
    ensures DecodeIndex(t + rest) == if IndexToken(t) then Some(DigitsValue(t)) else None
  {
    if t == "" {
      assert t + rest == rest;
    } else if IndexToken(t) {
      assert (t + rest)[0] == t[0];
      LoopReads(t, rest, 0);
      assert t[..0] == "" && DigitsValue("") == 0;
    } else {
      TokenRefused(t, rest);
    }
  }

  lemma TokenRefused(t: string, rest: string)
    requires '/' !in t && '\0' !in t && TokenEnds(rest) && !IndexToken(t)
    ensures DecodeIndex(t + rest) == None
  {
    hide DecodeLoop;
    var p := t + rest;
    assert forall k :: 0 <= k < |t| ==> p[k] == t[k];
    if t[0] == '0' {
      assert |t| > 1 && t[1] in t;
    } else {
      var d := DecodeLoop(p, 0, 0);
      assert t[d.position] in t;
    }
  }

  lemma OddTokens()
    ensures DecodeIndex("") == Some(0) && DecodeIndex("1:") == Some(20)
    ensures DecodeIndex("01") == None && DecodeIndex(":") == None
  {
    TokensDecoded("", "");
    TokensDecoded("1:", "");
    TokensDecoded("01", "");
    TokensDecoded(":", "");
    assert "" + "" == "" && "1:" + "" == "1:" && "01" + "" == "01" && ":" + "" == ":";
    assert "1:"[..1] == "1" && "1"[..0] == "";
  }

  lemma IndexReadBack(n: nat, rest: string)
    requires TokenEnds(rest)
    ensures DecodeIndex(Digits(n) + rest) == Some(n)
  {
    var t := Digits(n);
    DigitsRead(n);
    NoLeadingZero(n);
    TokensDecoded(t, rest);
  }

  lemma {:induction false} NamedIndexIs(ms: seq<Member>, key: string, rest: string, cs: bool)
    requires TokenEnds(rest)
    ensures NamedIndex(ms, Encode(key) + rest, cs) == MemberIndex(ms, key, cs)
  {
    hide ComparePointers, Fold;
    if ms != [] {
      CompareEncoded(ms[0].key, key, rest, cs);
      NamedIndexIs(ms[1..], key, rest, cs);
    }
  }

  // ---------------------------------------------------------------- the round trip

  /** There is a node at that place below `v`. */
  predicate Leads(v: Json, path: Place)
    decreases |path|
  {
    path == [] || (path[0] < |Children(v)| && Leads(Children(v)[path[0]], path[1..]))
  }

  /** The pointer of that node. */
  function PointerOf(v: Json, path: Place): string
    requires Leads(v, path)
    decreases |path|
  {
    if path == [] then "" else "/" + Token(v, path[0]) + PointerOf(Children(v)[path[0]], path[1..])
  }

  /** No member on the way has an elder sibling of the same key. */
  predicate Unshadowed(v: Json, path: Place, cs: bool)
    requires Leads(v, path)
    decreases |path|
  {
    path == [] || (
      && (v.Object? ==> MemberIndex(v.members, v.members[path[0]].key, cs) == path[0])
      && Unshadowed(Children(v)[path[0]], path[1..], cs))
  }

  /** The search finds the node if it is there, and spells the way to it. */
  lemma {:induction false} FindsPointer(v: Json, here: Place, target: Place)
    ensures FindPointer(v, here, target).Some? <==>
            |here| <= |target| && target[..|here|] == here && Leads(v, target[|here|..])
    ensures FindPointer(v, here, target).Some? ==>
            FindPointer(v, here, target) == Some(PointerOf(v, target[|here|..]))
    decreases v, 1, 0
  {
    if here != target {
      FindsBelow(v, 0, here, target);
    }
  }

  lemma {:induction false} FindsBelow(v: Json, k: nat, here: Place, target: Place)
    requires k <= |Children(v)| && here != target
    ensures FindBelow(v, k, here, target).Some? <==>
            |here| < |target| && target[..|here|] == here && k <= target[|here|] && Leads(v, target[|here|..])
    ensures FindBelow(v, k, here, target).Some? ==>
            FindBelow(v, k, here, target) == Some(PointerOf(v, target[|here|..]))
    decreases v, 0, |Children(v)| - k
  {
    if k < |Children(v)| {
      ChildSmaller(v, k);
      FindsPointer(Children(v)[k], here + [k], target);
      FindsBelow(v, k + 1, here, target);
      WayThrough(v, k, here, target);
    }
  }

  lemma WayThrough(v: Json, k: nat, here: Place, target: Place)
    requires k < |Children(v)|
    ensures |here| < |target| && target[..|here|] == here && target[|here|] == k <==>
            |here| + 1 <= |target| && target[..|here| + 1] == here + [k]
    ensures |here| < |target| ==> target[|here|..] == [target[|here|]] + target[|here| + 1..]
  {
  }

  /** A node is found by its own pointer exactly if no key on the way to it is shadowed, for
      any keys: empty ones, and ones with slashes and tildes. */
  lemma {:induction false} PointerRoundTrip(v: Json, here: Place, path: Place, cs: bool)
    requires Leads(v, path)
    ensures Resolve(v, here, PointerOf(v, path), cs) == Some(here + path) <==> Unshadowed(v, path, cs)
    decreases |path|
  {
    hide Step, ComparePointers, MemberIndex, Token, Children;
    if path == [] {
      assert here + path == here;
    } else {
      var k := path[0];
      var child := Children(v)[k];
      var rest := PointerOf(child, path[1..]);
      var p := Token(v, k) + rest;
      assert ("/" + Token(v, k) + rest)[1..] == p;
      StepTaken(v, k, rest, cs);
      var to := Step(v, p, cs);
      PointerRoundTrip(child, here + [k], path[1..], cs);
      assert here + [k] + path[1..] == here + path;
      if to.Some? && to.value != k {
        StaysBelow(Children(v)[to.value], here + [to.value], SkipToken(p), cs);
        assert (here + path)[|here|] == k;
      }
    }
  }

  /** The token of a child leads to the first child of that name. */
  lemma StepTaken(v: Json, k: nat, rest: string, cs: bool)
    requires k < |Children(v)| && TokenEnds(rest)
    ensures SkipToken(Token(v, k) + rest) == rest
    ensures Step(v, Token(v, k) + rest, cs) ==
            Some(if v.Object? then MemberIndex(v.members, v.members[k].key, cs) else k)
  {
    if v.Array? {
      IndexReadBack(k, rest);
      SkipsToken(Digits(k), rest);
    } else {
      NamedIndexIs(v.members, v.members[k].key, rest, cs);
      EncodeHasNoSlash(v.members[k].key);
      SkipsToken(Encode(v.members[k].key), rest);
    }
  }

  lemma {:induction false} StaysBelow(v: Json, here: Place, p: string, cs: bool)
    ensures var r := Resolve(v, here, p, cs); r.Some? ==> here <= r.value
    decreases |p|
  {
    if p != "" && p[0] == '/' {
      var child := Step(v, p[1..], cs);
      if child.Some? {
        StaysBelow(Children(v)[child.value], here + [child.value], SkipToken(p[1..]), cs);
      }
    }
  }

  /** The two functions together, on every node of every tree. */
  lemma FindThenResolve(v: Json, target: Place, cs: bool)
    ensures FindPointer(v, [], target).Some? <==> Leads(v, target)
    ensures Leads(v, target) ==>
            (Resolve(v, [], FindPointer(v, [], target).value, cs) == Some(target) <==> Unshadowed(v, target, cs))
  {
    FindsPointer(v, [], target);
    assert target[..0] == [] && target[0..] == target;
    if Leads(v, target) {
      PointerRoundTrip(v, [], target, cs);
      assert [] + target == target;
    }
  }
}
