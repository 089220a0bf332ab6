/**
 The parser as cJSON.c runs it: one buffer with an offset and a nesting depth that every
 routine moves, and a string routine that sizes its output in a first pass and fills it in a
 second. Each routine computes the parsing function of the same name.
 */
module ParseBuffers {
  import opened Wrappers
  import opened CJsonStrings
  import opened CJsonNumbers
  import opened CJson

  // ---------------------------------------------------------------- the size estimate

  /** How many units the first pass of `parse_string` counts from `i` on: an escaped pair is
      one unit, any other character another. */
  ghost function Units(c: string, i: nat, end: nat): nat
    requires end <= |c|
    decreases end - i
  {
    if i >= end then 0
    else if c[i] == '\\' then 1 + Units(c, i + 2, end)
    else 1 + Units(c, i + 1, end)
  }

  /** The first pass stands at `a` at some moment. */
  ghost predicate Aligned(c: string, a: nat, end: nat) {
    a <= end < |c| && ClosingQuote(c, a) == Some(end)
  }

  /** The second pass may stand one byte before the next unit of the first; it never writes
      more bytes than the first has counted. */
  ghost predicate Budget(c: string, i: nat, end: nat, written: nat, units: nat) {
    end < |c| &&
    if i >= end then written <= units
    else exists a :: i <= a <= i + 1 && Aligned(c, a, end) && written + (a - i) + Units(c, a, end) <= units
  }

  lemma AlignedPlain(c: string, a: nat, end: nat)
    requires Aligned(c, a, end) && a < end && c[a] != '\\'
    ensures Aligned(c, a + 1, end) && Units(c, a, end) == 1 + Units(c, a + 1, end)
  {
  }

  lemma AlignedPair(c: string, a: nat, end: nat)
    requires Aligned(c, a, end) && a < end && c[a] == '\\'
    ensures Aligned(c, a + 2, end) && Units(c, a, end) == 1 + Units(c, a + 2, end)
  {
  }

  lemma BudgetFrom(c: string, i: nat, a: nat, end: nat, written: nat, units: nat)
    requires i <= a <= i + 1 && Aligned(c, a, end) && written + (a - i) + Units(c, a, end) <= units
    ensures Budget(c, i, end, written, units)
  {
  }

  /** An ordinary character is copied. */
  lemma BudgetPlain(c: string, i: nat, end: nat, written: nat, units: nat)
    requires Budget(c, i, end, written, units) && i < end && c[i] != '\\'
    ensures Budget(c, i + 1, end, written + 1, units)
  {
    var a :| i <= a <= i + 1 && Aligned(c, a, end) && written + (a - i) + Units(c, a, end) <= units;
    if a == i {
      AlignedPlain(c, i, end);
      BudgetFrom(c, i + 1, i + 1, end, written + 1, units);
    } else {
      BudgetFrom(c, i + 1, a, end, written + 1, units);
    }
  }

  /** A one-letter escape; it may take the closing quote for its letter. */
  lemma BudgetEscape(c: string, i: nat, end: nat, written: nat, units: nat)
    requires Budget(c, i, end, written, units) && i < end && c[i] == '\\'
    ensures Budget(c, i + 2, end, written + 1, units)
  {
    var a :| i <= a <= i + 1 && Aligned(c, a, end) && written + (a - i) + Units(c, a, end) <= units;
    if a == i {
      AlignedPair(c, i, end);
      BudgetFrom(c, i + 2, i + 2, end, written + 1, units);
    } else if a < end {
      if c[a] == '\\' {
        AlignedPair(c, a, end);
        BudgetFrom(c, i + 2, i + 3, end, written + 1, units);
      } else {
        AlignedPlain(c, a, end);
        BudgetFrom(c, i + 2, i + 2, end, written + 1, units);
      }
    }
  }

  /** Wherever the first pass stands, it passes `j` or `j + 1`, after at least one unit for
      every two bytes. */
  lemma {:induction false} Realign(c: string, a: nat, j: nat, end: nat) returns (b: nat)
    requires Aligned(c, a, end) && a <= j <= end
    ensures j <= b <= j + 1 && Aligned(c, b, end) && 2 * (Units(c, a, end) - Units(c, b, end)) >= b - a
    decreases j - a
  {
    if a == j {
      b := a;
    } else if c[a] == '\\' {
      AlignedPair(c, a, end);
      if a + 2 <= j {
        b := Realign(c, a + 2, j, end);
      } else {
        b := a + 2;
      }
    } else {
      AlignedPlain(c, a, end);
      b := Realign(c, a + 1, j, end);
    }
  }

  /** Characters without a backslash are one unit each. */
  lemma {:induction false} PlainRun(c: string, a: nat, j: nat, end: nat)
    requires Aligned(c, a, end) && a <= j <= end && forall k :: a <= k < j ==> c[k] != '\\'
    ensures Aligned(c, j, end) && Units(c, a, end) == j - a + Units(c, j, end)
    decreases j - a
  {
    if a < j {
      AlignedPlain(c, a, end);
      PlainRun(c, a + 1, j, end);
    }
  }

  lemma HexPlain(c: string, i: nat)
    requires i + 4 <= |c| && ParseHex4(c, i) != 0
    ensures forall k :: i <= k < i + 4 ==> c[k] != '\\'
  {
  }

  /** A `\u` with four good digits: both passes meet again behind it, five units later. */
  lemma GoodHex(c: string, i: nat, a: nat, end: nat)
    requires i <= a <= i + 1 && Aligned(c, a, end) && i + 6 <= end
    requires c[i] == '\\' && c[i + 1] == 'u' && ParseHex4(c, i + 2) != 0
    ensures Aligned(c, i + 6, end) && Units(c, a, end) == 5 + Units(c, i + 6, end)
  {
    HexPlain(c, i + 2);
    if a == i {
      AlignedPair(c, i, end);
      PlainRun(c, i + 2, i + 6, end);
    } else {
      PlainRun(c, i + 1, i + 6, end);
    }
  }

  /** A `\u` sequence, well formed or not: one byte for malformed digits, which read as zero,
      and never more than four. */
  lemma BudgetUtf16(c: string, i: nat, end: nat, written: nat, units: nat)
    requires Budget(c, i, end, written, units) && i < end && c[i] == '\\' && c[i + 1] == 'u'
    requires ReadUtf16(c, i, end).length != 0
    ensures var r := ReadUtf16(c, i, end); Budget(c, i + r.length, end, written + |Utf8(r.codepoint)|, units)
  {
    hide Utf8;
    var r := ReadUtf16(c, i, end);
    var n := |Utf8(r.codepoint)|;
    var a :| i <= a <= i + 1 && Aligned(c, a, end) && written + (a - i) + Units(c, a, end) <= units;
    if r.length == 12 {
      GoodHex(c, i, a, end);
      GoodHex(c, i + 6, i + 6, end);
      BudgetFrom(c, i + 12, i + 12, end, written + n, units);
    } else if ParseHex4(c, i + 2) != 0 {
      GoodHex(c, i, a, end);
      BudgetFrom(c, i + 6, i + 6, end, written + n, units);
    } else {
      var b := Realign(c, a, i + 6, end);
      BudgetFrom(c, i + 6, b, end, written + n, units);
    }
  }

  // ---------------------------------------------------------------- writing one character

  lemma Utf8Bytes(cp: nat, s: string)
    requires cp <= 0x10FFFF && |s| == |Utf8(cp)|
    requires var n := |s|;
             && s[0] == (if n == 1 then cp else if n == 2 then 0xC0 + cp / 64
                         else if n == 3 then 0xE0 + cp / 4096 else 0xF0 + cp / 262144) as char
             && (n > 1 ==> s[n - 1] == Continuation(cp))
             && (n > 2 ==> s[n - 2] == Continuation(cp / 64))
             && (n > 3 ==> s[n - 3] == Continuation(cp / 4096))
    ensures s == Utf8(cp)
  {
    hide Continuation;
  }

  /** The encoding loop of `utf16_literal_to_utf8`: continuation bytes from the last to the
      second, then the first byte with its mark. */
  method WriteUtf8(output: array<char>, at: nat, codepoint: nat) returns (n: nat)
    requires codepoint <= 0x10FFFF && at + |Utf8(codepoint)| <= output.Length
    modifies output
    ensures n == |Utf8(codepoint)|
    ensures output[..at] == old(output[..at]) && output[at..at + n] == Utf8(codepoint)
  {
    hide Continuation;
    var cp := codepoint;
    var mark := 0;
    if cp < 0x80 {
      n := 1;
    } else if cp < 0x800 {
      n, mark := 2, 0xC0;
    } else if cp < 0x10000 {
      n, mark := 3, 0xE0;
    } else {
      n, mark := 4, 0xF0;
    }
    var p := n - 1;
    while p > 0
      invariant 0 <= p < n && at + n <= output.Length
      invariant output[..at] == old(output[..at])
      invariant cp == if p == n - 1 then codepoint else if p == n - 2 then codepoint / 64
                      else if p == n - 3 then codepoint / 4096 else codepoint / 262144
      invariant p <= n - 2 ==> output[at + n - 1] == Continuation(codepoint)
      invariant p <= n - 3 ==> output[at + n - 2] == Continuation(codepoint / 64)
      invariant p <= n - 4 ==> output[at + n - 3] == Continuation(codepoint / 4096)
    {
      output[at + p] := Continuation(cp);
      cp := cp / 64;
      p := p - 1;
    }
    output[at] := (mark + cp) as char;
    ghost var bytes := output[at..at + n];
    assert n > 1 ==> bytes[n - 1] == output[at + n - 1];
    assert n > 2 ==> bytes[n - 2] == output[at + n - 2];
    assert n > 3 ==> bytes[n - 3] == output[at + n - 3];
    Utf8Bytes(codepoint, bytes);
  }

  // ---------------------------------------------------------------- the buffer

  class ParseBuffer {
    const content: string
    var offset: nat
    var depth: nat

    /** A C string with its NUL. */
    ghost predicate Valid()
      reads this
    {
      content != "" && content[|content| - 1] == '\0' && offset <= |content|
    }

    constructor (text: string)
      ensures Valid() && content == text + "\0" && offset == 0 && depth == 0
    {
      content := text + "\0";
      offset, depth := 0, 0;
    }

    /** `buffer_skip_whitespace`. */
    method SkipWhitespace()
      requires Valid()
      modifies this`offset
      ensures Valid() && offset == SkipWhite(content, old(offset))
    {
      if offset >= |content| {
        return;
      }
      ghost var end := WhiteEnd(content, offset);
      while offset < |content| && content[offset] as int <= 32
        invariant offset <= |content| && WhiteEnd(content, offset) == end
        decreases |content| - offset
      {
        offset := offset + 1;
      }
      if offset == |content| {
        offset := offset - 1;
      }
    }

    /** The first pass of `parse_string`: the closing quote and the size of the output. */
    method MeasureString() returns (found: bool, end: nat, allocation: nat)
      requires offset < |content|
      ensures found <==> ClosingQuote(content, offset + 1).Some?
      ensures found ==> ClosingQuote(content, offset + 1) == Some(end)
      ensures found ==> allocation == 1 + Units(content, offset + 1, end)
    {
      end := offset + 1;
      var skipped := 0;
      ghost var total := ClosingQuote(content, end);
      while end < |content| && content[end] != '\"'
        invariant offset + 1 <= end && skipped <= end - offset - 1
        invariant ClosingQuote(content, end) == total
        invariant total.Some? ==> end <= total.value
        invariant total.Some? ==>
          Units(content, offset + 1, total.value) == end - offset - 1 - skipped + Units(content, end, total.value)
        decreases |content| - end
      {
        if content[end] == '\\' {
          if end + 1 >= |content| {
            return false, 0, 0;
          }
          skipped := skipped + 1;
          end := end + 1;
        }
        end := end + 1;
      }
      if end >= |content| || content[end] != '\"' {
        return false, 0, 0;
      }
      return true, end, end - offset - skipped;
    }

    /** The body of the second pass: one character or escape is consumed at `i` and its bytes
        are written at `at`. */
    method FillOne(i: nat, end: nat, output: array<char>, at: nat, ghost units: nat)
      returns (ok: bool, next: nat, written: nat)
      requires end < |content| && i < end && Budget(content, i, end, at, units) && units + 1 < output.Length
      modifies output
      ensures ok ==> i < next && at <= written <= units && Budget(content, next, end, written, units)
      ensures ok ==> Unescape(content, i, end) == Then(output[at..written], Unescape(content, next, end))
      ensures !ok ==> Unescape(content, i, end) == None
      ensures ok ==> output[..at] == old(output[..at])
    {
      hide Budget, ReadUtf16, Utf8, SimpleEscape;
      next, written := i, at;
      if content[i] != '\\' {
        BudgetPlain(content, i, end, at, units);
        BudgetCovers(content, i + 1, end, at + 1, units);
        output[at] := content[i];
        assert output[at..at + 1] == [content[i]];
        return true, i + 1, at + 1;
      }
      if content[i + 1] == 'u' {
        var r := ReadUtf16(content, i, end);
        if r.length == 0 {
          return false, i, at;
        }
        BudgetUtf16(content, i, end, at, units);
        BudgetCovers(content, i + r.length, end, at + |Utf8(r.codepoint)|, units);
        var n := WriteUtf8(output, at, r.codepoint);
        return true, i + r.length, at + n;
      }
      var e := SimpleEscape(content[i + 1]);
      if e == None {
        return false, i, at;
      }
      BudgetEscape(content, i, end, at, units);
      BudgetCovers(content, i + 2, end, at + 1, units);
      output[at] := e.value;
      assert output[at..at + 1] == [e.value];
      return true, i + 2, at + 1;
    }

    /** The second pass of `parse_string`: every write stays within `output`, which is as long
        as the first pass said. */
    method FillString(end: nat, output: array<char>) returns (ok: bool, written: nat)
      requires offset < |content| && ClosingQuote(content, offset + 1) == Some(end)
      requires output.Length == Units(content, offset + 1, end) + 2
      modifies output
      ensures ok <==> Unescape(content, offset + 1, end).Some?
      ensures ok ==> written < output.Length && output[..written] == Unescape(content, offset + 1, end).value
      ensures ok ==> output[written] == '\0'
    {
      hide Unescape, Units, ClosingQuote, Budget;
      var i := offset + 1;
      written := 0;
      ghost var units := Units(content, i, end);
      ghost var all := Unescape(content, i, end);
      BudgetStart(content, i, end, units);
      ThenEmpty(all);
      assert output[..0] == [];
      while i < end
        invariant Budget(content, i, end, written, units) && written <= units
        invariant all == Then(output[..written], Unescape(content, i, end))
        decreases end - i
      {
        ghost var soFar := output[..written];
        var next, at;
        ok, next, at := FillOne(i, end, output, written, units);
        if !ok {
          return false, 0;
        }
        ThenAgain(soFar, output[written..at], Unescape(content, next, end));
        assert output[..at] == soFar + output[written..at];
        i, written := next, at;
      }
      ok := true;
      UnescapeEnd(content, i, end);
      ThenEmpty(Some(output[..written]));
      assert output[..written] + "" == output[..written];
      output[written] := '\0';
    }

    /** `parse_string`. */
    method ParseStringHere() returns (ok: bool, value: string)
      requires Valid() && offset < |content|
      modifies this`offset
      ensures Valid()
      ensures var r := ParseString(content, old(offset));
              && (ok <==> r.Parsed?)
              && (ok ==> value == r.value && offset == r.offset)
    {
      if content[offset] != '\"' {
        return false, "";
      }
      var found, end, allocation := MeasureString();
      if !found {
        return false, "";
      }
      var output := new char[allocation + 1](_ => '\0');
      var written;
      ok, written := FillString(end, output);
      if ok {
        value := CString(output[..written]);
        offset := end;
        offset := offset + 1;
      } else {
        value := "";
      }
    }

    /** `parse_number`. */
    method ParseNumberHere() returns (ok: bool, value: Json)
      requires Valid()
      modifies this`offset
      ensures Valid()
      ensures var r := ParseNumber(content, old(offset));
              && (ok <==> r.Parsed?)
              && (ok ==> value == r.value && offset == r.offset)
    {
      hide ReadDouble, Saturated;
      var n := 0;
      while n < NUMBER_ROOM && offset + n < |content| && NumberChar(content[offset + n])
        invariant n <= NUMBER_ROOM && offset + n <= |content|
        invariant NumberEnd(content, offset) == NumberEnd(content, offset + n)
      {
        n := n + 1;
      }
      assert n == NumberSpan(content, offset);
      var x := ReadDouble(content[offset..offset + n]);
      if x.length == 0 {
        return false, Null;
      }
      offset := offset + x.length;
      return true, Number(Saturated(x.value), x.value);
    }

    /** `parse_value`. */
    method ParseValueHere() returns (ok: bool, value: Json)
      requires Valid()
      modifies this`offset, this`depth
      ensures Valid()
      ensures var r := ParseValue(content, old(offset), old(depth));
              && (ok <==> r.Parsed?)
              && (ok ==> value == r.value && offset == r.offset && depth == old(depth))
      decreases |content| - offset, 1
    {
      hide ParseArray, ParseObject, ParseNumber, ParseString, TextAt;
      if Reads(content, offset, "null") {
        TextFits(content, offset, "null");
        offset := offset + 4;
        return true, Null;
      }
      if Reads(content, offset, "false") {
        TextFits(content, offset, "false");
        offset := offset + 5;
        return true, Bool(false);
      }
      if Reads(content, offset, "true") {
        TextFits(content, offset, "true");
        offset := offset + 4;
        return true, Bool(true);
      }
      if offset < |content| && content[offset] == '\"' {
        var text;
        ok, text := ParseStringHere();
        return ok, Str(text);
      }
      if offset < |content| && (content[offset] == '-' || '0' <= content[offset] <= '9') {
        ok, value := ParseNumberHere();
        return;
      }
      if offset < |content| && content[offset] == '[' {
        ok, value := ParseArrayHere();
        return;
      }
      if offset < |content| && content[offset] == '{' {
        ok, value := ParseObjectHere();
        return;
      }
      return false, Null;
    }

    /** `parse_array`: the elements are read in a loop that stands on the separator before
        each of them. */
    method ParseArrayHere() returns (ok: bool, value: Json)
      requires Valid() && offset < |content| && content[offset] == '['
      modifies this`offset, this`depth
      ensures Valid()
      ensures var r := ParseArray(content, old(offset), old(depth));
              && (ok <==> r.Parsed?)
              && (ok ==> value == r.value && offset == r.offset && depth == old(depth))
      decreases |content| - offset, 0
    {
      hide ParseValue, ParseItems, SkipWhite, WhiteEnd;
      if depth >= NESTING_LIMIT {
        return false, Null;
      }
      depth := depth + 1;
      offset := offset + 1;
      SkipWhitespace();
      if offset < |content| && content[offset] == ']' {
        depth := depth - 1;
        offset := offset + 1;
        return true, Array([]);
      }
      if offset >= |content| {
        return false, Null;
      }
      var items;
      ok, items := ParseItemsHere();
      if ok {
        depth := depth - 1;
        offset := offset + 1;
      }
      return ok, Array(items);
    }

    /** The loop of `parse_array`. On success the buffer stands on the closing bracket. */
    method ParseItemsHere() returns (ok: bool, items: seq<Json>)
      requires Valid() && 0 < offset < |content|
      modifies this`offset, this`depth
      ensures Valid()
      ensures var r := ParseItems(content, old(offset), old(depth));
              && (ok <==> r.Parsed?)
              && (ok ==> items == r.value && offset + 1 == r.offset && depth == old(depth))
      decreases |content| - offset, 2
    {
      hide ParseValue, SkipWhite, WhiteEnd;
      ghost var start, d := offset, depth;
      offset := offset - 1;
      items := [];
      var more := true;
      AfterNothing(ParseItems(content, start, d));
      while more
        invariant Valid() && depth == d && offset < |content|
        invariant start <= if more then offset + 1 else offset
        invariant more ==> ParseItems(content, start, d) == After(items, ParseItems(content, offset + 1, d))
        invariant !more && content[offset] == ']' ==> ParseItems(content, start, d) == Parsed(items, offset + 1)
        invariant !more && content[offset] != ']' ==> ParseItems(content, start, d) == Failed
        decreases |content| - offset, more
      {
        ghost var at, was := offset + 1, items;
        offset := offset + 1;
        SkipWhitespace();
        var v;
        ok, v := ParseValueHere();
        if !ok {
          return false, [];
        }
        items := items + [v];
        SkipWhitespace();
        more := offset < |content| && content[offset] == ',';
        if offset >= |content| {
          return false, [];
        }
        AfterOne(was, v, ParseItems(content, offset + 1, d), offset + 1);
      }
      ok := content[offset] == ']';
    }

    /** `parse_object`. */
    method ParseObjectHere() returns (ok: bool, value: Json)
      requires Valid() && offset < |content| && content[offset] == '{'
      modifies this`offset, this`depth
      ensures Valid()
      ensures var r := ParseObject(content, old(offset), old(depth));
              && (ok <==> r.Parsed?)
              && (ok ==> value == r.value && offset == r.offset && depth == old(depth))
      decreases |content| - offset, 0
    {
      hide ParseName, ParseMembers, SkipWhite, WhiteEnd;
      if depth >= NESTING_LIMIT {
        return false, Null;
      }
      depth := depth + 1;
      offset := offset + 1;
      SkipWhitespace();
      if offset < |content| && content[offset] == '}' {
        depth := depth - 1;
        offset := offset + 1;
        return true, Object([]);
      }
      if offset >= |content| {
        return false, Null;
      }
      var members;
      ok, members := ParseMembersHere();
      if ok {
        depth := depth - 1;
        offset := offset + 1;
      }
      return ok, Object(members);
    }

    /** The name of a member and its colon, in the loop of `parse_object`. */
    method ParseNameHere() returns (ok: bool, name: string)
      requires Valid() && offset < |content|
      modifies this`offset
      ensures Valid()
      ensures var r := ParseName(content, old(offset));
              && (ok <==> r.Parsed?)
              && (ok ==> name == r.value && offset == r.offset && offset < |content|)
    {
      hide ParseString, WhiteEnd;
      SkipWhitespace();
      ok, name := ParseStringHere();
      if !ok {
        return;
      }
      SkipWhitespace();
      if offset >= |content| || content[offset] != ':' {
        return false, "";
      }
      offset := offset + 1;
    }

    /** The loop of `parse_object`. On success the buffer stands on the closing brace. */
    method ParseMembersHere() returns (ok: bool, members: seq<Member>)
      requires Valid() && 0 < offset < |content|
      modifies this`offset, this`depth
      ensures Valid()
      ensures var r := ParseMembers(content, old(offset), old(depth));
              && (ok <==> r.Parsed?)
              && (ok ==> members == r.value && offset + 1 == r.offset && depth == old(depth))
      decreases |content| - offset, 2
    {
      hide ParseValue, ParseName, SkipWhite, WhiteEnd;
      ghost var start, d := offset, depth;
      offset := offset - 1;
      members := [];
      var more := true;
      AfterNothing(ParseMembers(content, start, d));
      while more
        invariant Valid() && depth == d && offset < |content|
        invariant start <= if more then offset + 1 else offset
        invariant more ==> offset + 1 < |content|
        invariant more ==> ParseMembers(content, start, d) == After(members, ParseMembers(content, offset + 1, d))
        invariant !more && content[offset] == '}' ==> ParseMembers(content, start, d) == Parsed(members, offset + 1)
        invariant !more && content[offset] != '}' ==> ParseMembers(content, start, d) == Failed
        decreases |content| - offset, more
      {
        ghost var was := members;
        offset := offset + 1;
        var name;
        ok, name := ParseNameHere();
        if !ok {
          return false, [];
        }
        SkipWhitespace();
        var v;
        ok, v := ParseValueHere();
        if !ok {
          return false, [];
        }
        members := members + [Member(name, v)];
        SkipWhitespace();
        more := offset < |content| && content[offset] == ',';
        if offset >= |content| {
          return false, [];
        }
        AfterOne(was, Member(name, v), ParseMembers(content, offset + 1, d), offset + 1);
      }
      ok := content[offset] == '}';
    }
  }

  /** What was read, in front of what the rest gives. */
  function After<T>(read: seq<T>, rest: Parsed<seq<T>>): Parsed<seq<T>> {
    if rest.Failed? then Failed else Parsed(read + rest.value, rest.offset)
  }

  lemma AfterNothing<T>(rest: Parsed<seq<T>>)
    ensures After([], rest) == rest
  {
    if rest.Parsed? {
      assert [] + rest.value == rest.value;
    }
  }

  lemma AfterOne<T>(read: seq<T>, x: T, rest: Parsed<seq<T>>, end: nat)
    ensures After(read, After([x], rest)) == After(read + [x], rest)
    ensures After(read, Parsed([x], end)) == Parsed(read + [x], end)
  {
    if rest.Parsed? {
      assert read + ([x] + rest.value) == read + [x] + rest.value;
    }
  }

  /** `cJSON_Parse`: on success also where the value ended. */
  method ParseText(text: string) returns (ok: bool, value: Json, end: nat)
    ensures ok <==> Parse(text).Parsed?
    ensures ok ==> Parse(text) == Parsed(value, end)
  {
    hide ParseValue, SkipWhite;
    var buffer := new ParseBuffer(text);
    var c := buffer.content;
    if |c| > 4 && c[0] as int == 0xEF && c[1] as int == 0xBB && c[2] as int == 0xBF {
      buffer.offset := buffer.offset + 3;
    }
    buffer.SkipWhitespace();
    ok, value := buffer.ParseValueHere();
    end := buffer.offset;
  }

  lemma BudgetCovers(c: string, i: nat, end: nat, written: nat, units: nat)
    requires Budget(c, i, end, written, units)
    ensures written <= units
  {
  }

  lemma BudgetStart(c: string, i: nat, end: nat, units: nat)
    requires ClosingQuote(c, i) == Some(end) && units == Units(c, i, end)
    ensures Budget(c, i, end, 0, units)
  {
    BudgetFrom(c, i, i, end, 0, units);
  }

  lemma ThenEmpty(rest: Option<string>)
    ensures Then("", rest) == rest
  {
    if rest.Some? {
      assert "" + rest.value == rest.value;
    }
  }

  lemma UnescapeEnd(c: string, i: nat, end: nat)
    requires end <= i && end < |c|
    ensures Unescape(c, i, end) == Some("")
  {
  }

  lemma ThenAgain(a: string, b: string, rest: Option<string>)
    ensures Then(a, Then(b, rest)) == Then(a + b, rest)
  {
    if rest.Some? {
      assert a + (b + rest.value) == a + b + rest.value;
    }
  }
}
