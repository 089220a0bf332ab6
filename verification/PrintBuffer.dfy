/**
 The printer as cJSON.c runs it: text is written into a growing buffer through an offset that
 lags behind. A value's routine leaves the offset at or before the end of what it wrote and a
 NUL behind it; `update_offset` catches up by measuring the string.
 */
module PrintBuffers {
  import opened CJsonStrings
  import opened CJsonNumbers
  import opened CJson

  // ---------------------------------------------------------------- what is printed has no NUL

  lemma {:induction false} EscapeNulFree(s: string)
    requires NulFree(s)
    ensures NulFree(Escape(s))
    decreases |s|
  {
    if s != "" {
      EscapeNulFree(s[1..]);
      assert NulFree(EscapeChar(s[0])) by {
        var n := s[0] as int;
        if n <= 31 {
          HexDigitNotNul(n / 16);
          HexDigitNotNul(n % 16);
        }
      }
    }
  }

  lemma HexDigitNotNul(d: nat)
    requires d < 16
    ensures HEX_DIGITS[d] != '\0'
  {
  }

  lemma StringNulFree(s: string)
    requires NulFree(s)
    ensures NulFree(PrintString(s))
  {
    EscapeNulFree(s);
  }

  lemma {:induction false} PrintNulFree(v: Json, fmt: bool, d: nat)
    requires Printable(v)
    ensures NulFree(Print(v, fmt, d))
    decreases v, 1
  {
    match v
    case Null =>
    case Bool(_) =>
    case Number(n, _) =>
    case Str(s) => StringNulFree(s);
    case Array(items) => ItemsNulFree(items, fmt, d + 1);
    case Object(members) => MembersNulFree(members, fmt, d + 1);
  }

  lemma {:induction false} ItemsNulFree(items: seq<Json>, fmt: bool, d: nat)
    requires PrintableItems(items)
    ensures NulFree(PrintItems(items, fmt, d))
    decreases items, 0
  {
    hide Print;
    if items != [] {
      PrintNulFree(items[0], fmt, d);
      ItemsNulFree(items[1..], fmt, d);
    }
  }

  lemma {:induction false} MembersNulFree(members: seq<Member>, fmt: bool, d: nat)
    requires PrintableMembers(members)
    ensures NulFree(PrintMembers(members, fmt, d))
    decreases members, 0
  {
    hide Print, PrintString;
    if members != [] {
      StringNulFree(members[0].key);
      PrintNulFree(members[0].value, fmt, d);
      MembersNulFree(members[1..], fmt, d);
    }
  }

  /** How many extra characters the escapes take. */
  function Extra(ch: char): nat {
    if ch in {'\"', '\\', '\n', '\r', '\t'} || ch as int == 8 || ch as int == 12 then 1
    else if ch as int < 32 then 5
    else 0
  }

  function Extras(s: string): nat {
    if s == "" then 0 else Extras(s[..|s| - 1]) + Extra(s[|s| - 1])
  }

  lemma {:induction false} EscapeSnoc(s: string, ch: char)
    ensures Escape(s + [ch]) == Escape(s) + EscapeChar(ch)
    decreases |s|
  {
    if s == "" {
      assert [ch][1..] == "";
    } else {
      EscapeSnoc(s[1..], ch);
      assert (s + [ch])[1..] == s[1..] + [ch];
    }
  }

  /** The characters that are written as they are. */
  predicate Plain(ch: char) {
    ch as int > 31 && ch != '\"' && ch != '\\'
  }

  /** What stands behind the backslash of an escaped character. */
  function EscapeLetter(ch: char): (t: string)
    requires !Plain(ch)
  {
    EscapeChar(ch)[1..]
  }

  lemma EscapeCharLetter(ch: char)
    ensures Plain(ch) ==> EscapeChar(ch) == [ch]
    ensures !Plain(ch) ==> EscapeChar(ch) == "\\" + EscapeLetter(ch)
  {
  }

  lemma EscapeCharSize(ch: char)
    ensures |EscapeChar(ch)| == 1 + Extra(ch)
    ensures Extra(ch) == 0 ==> EscapeChar(ch) == [ch]
  {
  }

  lemma {:induction false} EscapeSize(s: string)
    ensures |Escape(s)| == |s| + Extras(s)
    ensures Extras(s) == 0 ==> Escape(s) == s
    decreases |s|
  {
    hide EscapeChar, Extra;
    if s != "" {
      var t, ch := s[..|s| - 1], s[|s| - 1];
      EscapeSize(t);
      EscapeSnoc(t, ch);
      EscapeCharSize(ch);
      assert s == t + [ch];
    }
  }

  lemma {:induction false} EscapePrefix(s: string, i: nat)
    requires i <= |s|
    ensures |Escape(s[..i])| <= |Escape(s)|
    decreases |s| - i
  {
    hide EscapeChar;
    if i < |s| {
      EscapePrefix(s, i + 1);
      assert s[..i + 1] == s[..i] + [s[i]];
      EscapeSnoc(s[..i], s[i]);
    } else {
      assert s[..i] == s;
    }
  }

  // ---------------------------------------------------------------- the buffer

  class PrintBuffer {
    var buffer: array<char>
    var offset: nat
    var depth: nat
    const format: bool

    ghost predicate Valid()
      reads this
    {
      offset < buffer.Length
    }

    /** What has been printed for good. */
    ghost function Done(): string
      requires Valid()
      reads this, buffer
    {
      buffer[..offset]
    }

    /** `text` stands behind `pre`, with a NUL behind it, and the offset has not passed its end. */
    ghost predicate Wrote(pre: string, text: string)
      reads this, buffer
    {
      && Valid()
      && |pre| <= offset <= |pre| + |text| < buffer.Length
      && buffer[..|pre| + |text|] == pre + text
      && buffer[|pre| + |text|] == '\0'
    }

    constructor (fmt: bool)
      ensures Valid() && offset == 0 && depth == 0 && format == fmt && fresh(buffer)
    {
      format := fmt;
      buffer := new char[256](_ => '\0');
      offset, depth := 0, 0;
    }

    /** `ensure`: on success there is room for `needed` characters and a NUL. */
    method Ensure(needed: nat) returns (ok: bool)
      requires Valid()
      modifies this`buffer
      ensures Valid() && (buffer == old(buffer) || fresh(buffer))
      ensures Done() == old(Done())
      ensures ok ==> offset + needed + 1 <= buffer.Length
      ensures offset + needed + 1 <= INT_MAX ==> ok
    {
      if buffer.Length > 0 && offset >= buffer.Length {
        return false;
      }
      if needed > INT_MAX {
        return false;
      }
      var total := needed + offset + 1;
      if total <= buffer.Length {
        return true;
      }
      var size: int;
      if total > INT_MAX / 2 {
        if total > INT_MAX {
          return false;
        }
        size := INT_MAX;
      } else {
        size := total * 2;
      }
      var previous := buffer;
      var bigger := new char[size](i requires 0 <= i reads previous =>
        if i < previous.Length then previous[i] else '\0');
      assert bigger[..offset] == buffer[..offset];
      buffer := bigger;
      return true;
    }

    /** Characters written one after the other, as `strcpy`, `memcpy` and the output pointers do. */
    method Write(at: nat, text: string)
      requires at + |text| <= buffer.Length
      modifies buffer
      ensures buffer[..at] == old(buffer[..at]) && buffer[at..at + |text|] == text
      ensures buffer[..at + |text|] == old(buffer[..at]) + text
    {
      for k := 0 to |text|
        invariant buffer[..at] == old(buffer[..at])
        invariant buffer[at..at + k] == text[..k]
      {
        buffer[at + k] := text[k];
        assert buffer[at..at + k + 1] == buffer[at..at + k] + [text[k]];
      }
      assert buffer[..at + |text|] == buffer[..at] + buffer[at..at + |text|];
    }

    /** `update_offset`. */
    method UpdateOffset(ghost pre: string, ghost text: string)
      requires Wrote(pre, text) && NulFree(text)
      modifies this`offset
      ensures Valid() && Done() == pre + text
    {
      ghost var end := |pre| + |text|;
      var n := 0;
      while buffer[offset + n] != '\0'
        invariant offset + n <= end
        decreases end - n
      {
        assert buffer[offset + n] == buffer[..end + 1][offset + n];
        n := n + 1;
      }
      offset := offset + n;
    }

    /** Text that is written in one piece, with its NUL: `strcpy` of a literal, `print_number`. */
    method WriteValue(text: string) returns (ok: bool)
      requires Valid()
      modifies this`buffer, buffer
      ensures Valid() && (buffer == old(buffer) || fresh(buffer))
      ensures ok ==> Wrote(old(Done()), text)
      ensures offset + |text| + 2 <= INT_MAX ==> ok
    {
      ok := Ensure(|text| + 1);
      if ok {
        ghost var pre := Done();
        Write(offset, text);
        buffer[offset + |text|] := '\0';
        assert buffer[..offset + |text|] == pre + text;
      }
    }

    /** Text that is written and stepped over at once, without a NUL: brackets, separators. */
    method WriteMark(text: string, reserve: nat) returns (ok: bool)
      requires Valid() && |text| <= reserve
      modifies this`buffer, this`offset, buffer
      ensures Valid() && (buffer == old(buffer) || fresh(buffer))
      ensures ok ==> Done() == old(Done()) + text
      ensures old(offset) + reserve + 1 <= INT_MAX ==> ok
    {
      ok := Ensure(reserve);
      if ok {
        Write(offset, text);
        offset := offset + |text|;
      }
    }

    /** The same, with a NUL behind it. */
    method WriteMarkNul(text: string, reserve: nat) returns (ok: bool)
      requires Valid() && |text| <= reserve
      modifies this`buffer, this`offset, buffer
      ensures Valid() && (buffer == old(buffer) || fresh(buffer))
      ensures ok ==> Done() == old(Done()) + text
      ensures old(offset) + reserve + 1 <= INT_MAX ==> ok
    {
      ok := WriteMark(text, reserve);
      if ok {
        buffer[offset] := '\0';
      }
    }

    /** The counting loop of `print_string_ptr`. */
    method CountEscapes(s: string) returns (escapes: nat)
      ensures |s| + escapes == |Escape(s)| && (escapes == 0 ==> Escape(s) == s)
    {
      hide Escape, Extra;
      escapes := 0;
      for i := 0 to |s|
        invariant escapes == Extras(s[..i])
      {
        assert s[..i + 1][..i] == s[..i];
        escapes := escapes + Extra(s[i]);
      }
      assert s[..|s|] == s;
      EscapeSize(s);
    }

    /** `print_string_ptr`: count the escapes, make room, then copy or escape. */
    method PrintStringHere(s: string) returns (ok: bool)
      requires Valid() && NulFree(s)
      modifies this`buffer, buffer
      ensures Valid() && (buffer == old(buffer) || fresh(buffer))
      ensures ok ==> Wrote(old(Done()), PrintString(s))
      ensures offset + |PrintString(s)| + 2 <= INT_MAX ==> ok
    {
      hide Escape;
      var escapes := CountEscapes(s);
      var length := |s| + escapes;
      ok := Ensure(length + 3);
      if ok {
        WriteString(s, escapes);
        buffer[offset + length + 2] := '\0';
        assert buffer[..offset + length + 2] == old(Done()) + PrintString(s);
      }
    }

    /** The two ways of writing the string, with and without escapes. */
    method WriteString(s: string, escapes: nat)
      requires Valid() && NulFree(s) && |s| + escapes == |Escape(s)| && (escapes == 0 ==> Escape(s) == s)
      requires offset + |PrintString(s)| < buffer.Length
      modifies buffer
      ensures buffer[..offset + |PrintString(s)|] == old(Done()) + PrintString(s)
    {
      hide Escape;
      ghost var pre := Done();
      Write(offset, "\"");
      if escapes == 0 {
        Write(offset + 1, s);
        assert buffer[..offset + 1 + |s|] == pre + "\"" + s;
      } else {
        CopyEscaped(offset + 1, s);
      }
      Write(offset + 1 + |s| + escapes, "\"");
      assert pre + "\"" + Escape(s) + "\"" == pre + PrintString(s);
    }

    /** The copying loop of `print_string_ptr`. */
    method CopyEscaped(at: nat, s: string)
      requires at + |Escape(s)| < buffer.Length
      modifies buffer
      ensures buffer[..at + |Escape(s)|] == old(buffer[..at]) + Escape(s)
    {
      hide Escape, EscapeChar;
      ghost var pre := buffer[..at];
      var out := at;
      EmptyEscape();
      assert s[..0] == "";
      for i := 0 to |s|
        invariant at <= out == at + |Escape(s[..i])| <= at + |Escape(s)|
        invariant buffer[..out] == pre + Escape(s[..i])
      {
        assert s[..i + 1] == s[..i] + [s[i]];
        EscapeSnoc(s[..i], s[i]);
        EscapePrefix(s, i + 1);
        ghost var done := buffer[..out];
        var n := CopyOne(out, s[i]);
        out := out + n;
        assert buffer[..out] == pre + (Escape(s[..i]) + EscapeChar(s[i]));
      }
      assert s[..|s|] == s;
    }

    /** One character of it. */
    method CopyOne(at: nat, ch: char) returns (n: nat)
      requires at + |EscapeChar(ch)| < buffer.Length
      modifies buffer
      ensures n == |EscapeChar(ch)| && buffer[..at + n] == old(buffer[..at]) + EscapeChar(ch)
    {
      hide EscapeLetter, EscapeChar;
      EscapeCharLetter(ch);
      if Plain(ch) {
        Write(at, [ch]);
        return 1;
      }
      Write(at, "\\");
      ghost var done := buffer[..at + 1];
      n := CopyLetter(at + 1, ch);
      n := n + 1;
      assert buffer[..at + n] == done + EscapeLetter(ch);
      assert buffer[..at + n] == old(buffer[..at]) + ("\\" + EscapeLetter(ch));
    }

    /** What follows the backslash. A control character is written with `sprintf`, whose NUL the
        next write overwrites. */
    method CopyLetter(at: nat, ch: char) returns (n: nat)
      requires !Plain(ch) && at + |EscapeLetter(ch)| < buffer.Length
      modifies buffer
      ensures n == |EscapeLetter(ch)| && buffer[..at + n] == old(buffer[..at]) + EscapeLetter(ch)
    {
      hide EscapeLetter;
      var letter := Letter(ch);
      if |letter| == 5 {
        buffer[at + 5] := '\0';
        assert buffer[..at] == old(buffer[..at]);
      }
      Write(at, letter);
      n := |letter|;
    }

    method Letter(ch: char) returns (letter: string)
      requires !Plain(ch)
      ensures letter == EscapeLetter(ch)
    {
      if ch == '\"' || ch == '\\' {
        letter := [ch];
      } else if ch as int == 8 {
        letter := "b";
      } else if ch as int == 12 {
        letter := "f";
      } else if ch == '\n' {
        letter := "n";
      } else if ch == '\r' {
        letter := "r";
      } else if ch == '\t' {
        letter := "t";
      } else {
        letter := "u00" + [HEX_DIGITS[ch as int / 16], HEX_DIGITS[ch as int % 16]];
      }
    }

    // -------------------------------------------------------------- values

    /** `print_value`. */
    method PrintValueHere(v: Json) returns (ok: bool)
      requires Valid() && Printable(v)
      modifies this, buffer
      ensures Valid() && (buffer == old(buffer) || fresh(buffer))
      ensures ok ==> Wrote(old(Done()), Print(v, format, old(depth))) && depth == old(depth)
      ensures old(offset) + |Print(v, format, old(depth))| + 2 <= INT_MAX ==> ok
      decreases v, 1
    {
      hide PrintItems, PrintMembers, PrintString, IntText;
      match v
      case Null => ok := WriteValue("null");
      case Bool(b) => ok := WriteValue(if b then "true" else "false");
      case Number(n, _) => ok := PrintNumberHere(n);
      case Str(s) => ok := PrintStringHere(s);
      case Array(items) => ok := PrintArrayHere(items);
      case Object(members) => ok := PrintObjectHere(members);
    }

    /** `print_number` on a whole number: it steps over its text itself. */
    method PrintNumberHere(n: int) returns (ok: bool)
      requires Valid()
      modifies this`buffer, this`offset, buffer
      ensures Valid() && (buffer == old(buffer) || fresh(buffer))
      ensures ok ==> Wrote(old(Done()), IntText(n))
      ensures old(offset) + |IntText(n)| + 2 <= INT_MAX ==> ok
    {
      hide IntText;
      var text := IntText(n);
      ok := WriteValue(text);
      if ok {
        offset := offset + |text|;
      }
    }

    /** The opening bracket. */
    method Open(text: string, reserve: nat) returns (ok: bool)
      requires Valid() && |text| <= reserve
      modifies this, buffer
      ensures Valid() && (buffer == old(buffer) || fresh(buffer))
      ensures ok ==> Done() == old(Done()) + text && depth == old(depth) + 1
      ensures old(offset) + reserve + 1 <= INT_MAX ==> ok
    {
      ok := WriteMark(text, reserve);
      if ok {
        depth := depth + 1;
      }
    }

    /** The closing bracket, with its NUL. */
    method Close(text: string) returns (ok: bool)
      requires Valid() && depth > 0
      modifies this, buffer
      ensures Valid() && (buffer == old(buffer) || fresh(buffer))
      ensures ok ==> Wrote(old(Done()), text) && depth == old(depth) - 1
      ensures old(offset) + |text| + 2 <= INT_MAX ==> ok
    {
      ok := WriteValue(text);
      if ok {
        depth := depth - 1;
      }
    }

    /** `print_array`. */
    method PrintArrayHere(items: seq<Json>) returns (ok: bool)
      requires Valid() && PrintableItems(items)
      modifies this, buffer
      ensures Valid() && (buffer == old(buffer) || fresh(buffer))
      ensures ok ==> Wrote(old(Done()), "[" + PrintItems(items, format, old(depth) + 1) + "]") && depth == old(depth)
      ensures old(offset) + |PrintItems(items, format, old(depth) + 1)| + 4 <= INT_MAX ==> ok
      decreases items, 2
    {
      hide PrintItems, PrintableItems, Wrote;
      ghost var pre := Done();
      ok := Open("[", 1);
      if !ok {
        return;
      }
      ok := PrintItemsHere(items);
      if !ok {
        return;
      }
      ghost var all := Done();
      ok := Close("]");
      if ok {
        assert all == pre + "[" + PrintItems(items, format, old(depth) + 1);
        WroteLonger(pre, "[" + PrintItems(items, format, old(depth) + 1), "]");
      }
    }

    /** What is written behind something else is also written behind what was there before. */
    lemma WroteLonger(pre: string, text: string, more: string)
      requires Wrote(pre + text, more)
      ensures Wrote(pre, text + more)
    {
      assert pre + text + more == pre + (text + more);
    }

    /** The loop of `print_array`. */
    method PrintItemsHere(items: seq<Json>) returns (ok: bool)
      requires Valid() && PrintableItems(items)
      modifies this, buffer
      ensures Valid() && (buffer == old(buffer) || fresh(buffer))
      ensures ok ==> Done() == old(Done()) + PrintItems(items, format, old(depth)) && depth == old(depth)
      ensures old(offset) + |PrintItems(items, format, old(depth))| + 2 <= INT_MAX ==> ok
      decreases items, 0
    {
      hide Print, Wrote;
      ghost var pre, d := Done(), depth;
      ghost var whole := pre + PrintItems(items, format, d);
      var i := 0;
      ok := true;
      while i < |items|
        invariant i <= |items| && Valid() && (buffer == old(buffer) || fresh(buffer)) && depth == d
        invariant PrintableItems(items[i..]) && Done() + PrintItems(items[i..], format, d) == whole
      {
        var v := items[i];
        assert items[i..][1..] == items[i + 1..];
        ItemsHead(items, i, format, d, Done(), whole);
        ok := PrintChild(v);
        if !ok {
          return;
        }
        if i + 1 < |items| {
          ok := WriteMarkNul(Comma(format), if format then 3 else 2);
          if !ok {
            return;
          }
        }
        i := i + 1;
      }
    }

    /** A value inside an array or object: print it, then catch up with the offset. */
    method PrintChild(v: Json) returns (ok: bool)
      requires Valid() && Printable(v)
      modifies this, buffer
      ensures Valid() && (buffer == old(buffer) || fresh(buffer))
      ensures ok ==> Done() == old(Done()) + Print(v, format, old(depth)) && depth == old(depth)
      ensures old(offset) + |Print(v, format, old(depth))| + 2 <= INT_MAX ==> ok
      decreases v, 2
    {
      hide Print, Printable, Wrote;
      ghost var pre, text := Done(), Print(v, format, depth);
      PrintNulFree(v, format, depth);
      ok := PrintValueHere(v);
      if ok {
        UpdateOffset(pre, text);
      }
    }

    /** `print_object`. */
    method PrintObjectHere(members: seq<Member>) returns (ok: bool)
      requires Valid() && PrintableMembers(members)
      modifies this, buffer
      ensures Valid() && (buffer == old(buffer) || fresh(buffer))
      ensures ok ==> Wrote(old(Done()), Print(Object(members), format, old(depth))) && depth == old(depth)
      ensures old(offset) + |Print(Object(members), format, old(depth))| + 2 <= INT_MAX ==> ok
      decreases members, 2
    {
      hide Print, PrintMembers, PrintableMembers, Wrote, OpenBrace, CloseBrace;
      ghost var pre, d := Done(), depth;
      ghost var body := PrintMembers(members, format, d + 1);
      var open, close := OpenBrace(format), CloseBrace(format, depth);
      ObjectText(members, format, d);
      ok := Open(open, |open| + 1);
      if !ok {
        return;
      }
      ok := PrintMembersHere(members);
      if !ok {
        return;
      }
      assert Done() == pre + (open + body);
      ok := Close(close);
      if ok {
        WroteLonger(pre, open + body, close);
      }
    }

    /** The loop of `print_object`. */
    method PrintMembersHere(members: seq<Member>) returns (ok: bool)
      requires Valid() && PrintableMembers(members)
      modifies this, buffer
      ensures Valid() && (buffer == old(buffer) || fresh(buffer))
      ensures ok ==> Done() == old(Done()) + PrintMembers(members, format, old(depth)) && depth == old(depth)
      ensures old(offset) + |PrintMembers(members, format, old(depth))| + 2 <= INT_MAX ==> ok
      decreases members, 0
    {
      hide Print, PrintMember, PrintMembers, Wrote, PrintableMembers;
      ghost var pre, d := Done(), depth;
      ghost var whole := pre + PrintMembers(members, format, d);
      var i := 0;
      ok := true;
      while i < |members|
        invariant i <= |members| && Valid() && (buffer == old(buffer) || fresh(buffer)) && depth == d
        invariant PrintableMembers(members[i..]) && Done() + PrintMembers(members[i..], format, d) == whole
      {
        assert members[i..][1..] == members[i + 1..];
        MembersHead(members, i, format, d, Done(), whole);
        PrintableHead(members[i..]);
        ok := PrintMemberHere(members[i], i + 1 == |members|);
        if !ok {
          return;
        }
        i := i + 1;
      }
      assert members[i..] == [];
      NoMembers(format, d);
    }

    /** One turn of it. */
    method PrintMemberHere(m: Member, last: bool) returns (ok: bool)
      requires Valid() && NulFree(m.key) && Printable(m.value)
      modifies this, buffer
      ensures Valid() && (buffer == old(buffer) || fresh(buffer))
      ensures ok ==> Done() == old(Done()) + PrintMember(m, last, format, old(depth)) && depth == old(depth)
      ensures old(offset) + |PrintMember(m, last, format, old(depth))| + 2 <= INT_MAX ==> ok
      decreases m, 0
    {
      hide Print, Printable, PrintKey, Wrote, MemberEnd;
      ok := PrintKeyHere(m.key);
      if !ok {
        return;
      }
      ok := PrintChild(m.value);
      if !ok {
        return;
      }
      var end := MemberEnd(last, format);
      ok := WriteMarkNul(end, |end| + 1);
    }

    /** The indentation, the key and the colon of one member. */
    method PrintKeyHere(key: string) returns (ok: bool)
      requires Valid() && NulFree(key)
      modifies this`buffer, this`offset, buffer
      ensures Valid() && (buffer == old(buffer) || fresh(buffer))
      ensures ok ==> Done() == old(Done()) + PrintKey(key, format, depth)
      ensures old(offset) + |PrintKey(key, format, depth)| + 2 <= INT_MAX ==> ok
    {
      hide PrintString, Wrote;
      ghost var pre := Done();
      var tabs := if format then Tabs(depth) else "";
      if format {
        ok := WriteMark(tabs, depth);
        if !ok {
          return;
        }
      }
      ghost var at := Done();
      assert at == pre + tabs;
      ok := PrintStringHere(key);
      if !ok {
        return;
      }
      StringNulFree(key);
      UpdateOffset(at, PrintString(key));
      var colon := if format then ":\t" else ":";
      ok := WriteMark(colon, |colon|);
      assert pre + tabs + PrintString(key) + colon == pre + (tabs + PrintString(key) + colon);
    }
  }

  lemma ItemsHead(items: seq<Json>, i: nat, fmt: bool, d: nat, done: string, whole: string)
    requires i < |items| && done + PrintItems(items[i..], fmt, d) == whole
    ensures var t, rest := Print(items[i], fmt, d), PrintItems(items[i + 1..], fmt, d);
            && |done| + |t| <= |whole|
            && if i + 1 == |items| then done + t + rest == whole
               else done + t + Comma(fmt) + rest == whole && |done| + |t| + |Comma(fmt)| <= |whole|
  {
    hide Print;
    assert items[i..][1..] == items[i + 1..];
    var t, rest := Print(items[i], fmt, d), PrintItems(items[i + 1..], fmt, d);
    if i + 1 < |items| {
      assert done + (t + (Comma(fmt) + rest)) == done + t + Comma(fmt) + rest;
    } else {
      assert rest == "";
      assert done + (t + "") == done + t + "";
    }
  }

  function CloseBrace(fmt: bool, d: nat): string {
    (if fmt then Tabs(d) else "") + "}"
  }

  lemma ObjectText(members: seq<Member>, fmt: bool, d: nat)
    ensures Print(Object(members), fmt, d) == OpenBrace(fmt) + PrintMembers(members, fmt, d + 1) + CloseBrace(fmt, d)
  {
    hide PrintMembers, Tabs;
    var open, body := OpenBrace(fmt), PrintMembers(members, fmt, d + 1);
    var tabs := if fmt then Tabs(d) else "";
    assert open + body + (tabs + "}") == open + body + tabs + "}";
  }

  /** The text of one member. */
  function PrintMember(m: Member, last: bool, fmt: bool, d: nat): string {
    PrintKey(m.key, fmt, d) + Print(m.value, fmt, d) + MemberEnd(last, fmt)
  }

  lemma NoMembers(fmt: bool, d: nat)
    ensures PrintMembers([], fmt, d) == ""
  {
  }

  lemma PrintableHead(members: seq<Member>)
    requires members != [] && PrintableMembers(members)
    ensures NulFree(members[0].key) && Printable(members[0].value) && PrintableMembers(members[1..])
  {
  }

  lemma MembersHead(members: seq<Member>, i: nat, fmt: bool, d: nat, done: string, whole: string)
    requires i < |members| && done + PrintMembers(members[i..], fmt, d) == whole
    ensures done + PrintMember(members[i], i + 1 == |members|, fmt, d) + PrintMembers(members[i + 1..], fmt, d) == whole
  {
    hide Print, PrintKey, MemberEnd;
    assert members[i..][1..] == members[i + 1..];
    var one, rest := PrintMember(members[i], i + 1 == |members|, fmt, d), PrintMembers(members[i + 1..], fmt, d);
    assert done + (one + rest) == done + one + rest;
  }

  /** `cJSON_Print` and `cJSON_PrintUnformatted`: the text is the specified one, and printing
      succeeds whenever the text is shorter than INT_MAX by two. */
  method PrintText(v: Json, fmt: bool) returns (ok: bool, text: string)
    requires Printable(v)
    ensures ok ==> text == Print(v, fmt, 0)
    ensures |Print(v, fmt, 0)| + 2 <= INT_MAX ==> ok
  {
    hide Print;
    var p := new PrintBuffer(fmt);
    assert p.Done() == "";
    ok := p.PrintValueHere(v);
    text := "";
    if ok {
      PrintNulFree(v, fmt, 0);
      p.UpdateOffset("", Print(v, fmt, 0));
      text := p.buffer[..p.offset];
    }
  }

  lemma EmptyEscape()
    ensures Escape("") == ""
  {
  }
}
