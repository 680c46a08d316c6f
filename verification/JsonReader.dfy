/** picojson.h: the parser as it runs, on one cursor that is moved and sometimes pushed back. */
module JsonReader {
  import opened Wire
  import opened Json

  function Lines(s: Bytes): nat {
    if s == [] then 0 else Lines(s[..|s| - 1]) + if s[|s| - 1] == NEWLINE then 1 else 0
  }

  /** The template class input. */
  class Input {
    const text: Bytes
    var cur: nat
    var consumed: bool
    var line: nat

    ghost predicate Valid()
      reads this
    {
      cur <= |text| && (consumed ==> cur < |text|) && line == 1 + Lines(text[..cur])
    }

    /** What the next getc starts from. */
    ghost function Rest(): Bytes
      requires Valid()
      reads this
    {
      text[if consumed then cur + 1 else cur..]
    }

    constructor (text: Bytes)
      ensures Valid() && Rest() == text && this.text == text
    {
      this.text, cur, consumed, line := text, 0, false, 1;
    }

    /** -1 at the end. */
    method GetC() returns (ch: int)
      requires Valid()
      modifies this
      ensures Valid() && text[cur..] == old(Rest())
      ensures if old(Rest()) == [] then ch == -1 && Rest() == [] else ch == old(Rest())[0] && Rest() == old(Rest())[1..]
    {
      if consumed {
        if text[cur] == NEWLINE { line := line + 1; }
        assert text[..cur + 1][..cur] == text[..cur];
        cur := cur + 1;
      }
      if cur == |text| {
        consumed := false;
        return -1;
      }
      consumed := true;
      return text[cur];
    }

    /** Takes the last character back. */
    method UngetC()
      requires Valid()
      modifies this`consumed
      ensures Valid() && !consumed && Rest() == text[cur..]
    {
      consumed := false;
    }

    method SkipSpace()
      requires Valid()
      modifies this
      ensures Valid() && Rest() == SkipWs(old(Rest()))
    {
      var ch := GetC();
      while ch == SPACE || ch == 0x09 || ch == NEWLINE || ch == 0x0d
        invariant Valid() && SkipWs(text[cur..]) == SkipWs(old(Rest()))
        invariant if text[cur..] == [] then ch == -1 else ch == text[cur] && Rest() == text[cur..][1..]
        decreases |text| - cur
      {
        ch := GetC();
      }
      UngetC();
    }

    method Expect(expected: byte) returns (ok: bool)
      requires Valid()
      modifies this
      ensures Valid() && var t := SkipWs(old(Rest())); ok == StartsWith(t, expected) && Rest() == if ok then t[1..] else t
    {
      SkipSpace();
      var ch := GetC();
      if ch != expected {
        UngetC();
        return false;
      }
      return true;
    }
  }

  /** _parse_quadhex: -1 on failure. */
  method ReadQuadHex(input: Input) returns (u: int)
    requires input.Valid()
    modifies input
    ensures input.Valid()
    ensures var r := ParseQuadHex(old(input.Rest()));
            if r.Done? then u == r.value && input.Rest() == r.rest else u == -1
  {
    ghost var s := input.Rest();
    hide HexNumber;
    u := 0;
    HexNone(s);
    for i := 0 to 4
      invariant input.Valid() && i <= |s| && input.Rest() == s[i..]
      invariant forall j :: 0 <= j < i ==> IsHex(s[j])
      invariant u == HexNumber(s, i)
    {
      var hex := input.GetC();
      if hex == -1 {
        return -1;
      }
      if 0x30 <= hex <= 0x39 {
        hex := hex - 0x30;
      } else if 0x41 <= hex <= 0x46 {
        hex := hex - 0x37;
      } else if 0x61 <= hex <= 0x66 {
        hex := hex - 0x57;
      } else {
        input.UngetC();
        return -1;
      }
      assert IsHex(s[i]) && hex == HexValue(s[i]) && s[i..][1..] == s[i + 1..];
      u := u * 16 + hex;
      HexStep(s, i + 1);
    }
  }

  /** The second half of a surrogate pair: -1 on failure. */
  method ReadPair(input: Input, first: nat) returns (u: int)
    requires input.Valid() && first < 0x1_0000
    modifies input
    ensures input.Valid()
    ensures var r := ParsePair(first, old(input.Rest()));
            if r.Done? then u == r.value && input.Rest() == r.rest else u == -1
  {
    if !(0xd800 <= first <= 0xdfff) { return first; }
    if 0xdc00 <= first { return -1; }
    var ch := input.GetC();
    if ch == BACKSLASH { ch := input.GetC(); } else { ch := -1; }
    if ch != 0x75 {
      input.UngetC();
      return -1;
    }
    var second := ReadQuadHex(input);
    if !(0xdc00 <= second <= 0xdfff) { return -1; }
    return (first - 0xd800) * 0x400 + (second - 0xdc00) + 0x1_0000;
  }

  /** _parse_codepoint. */
  method ReadCodepoint(input: Input) returns (ok: bool, out: Bytes)
    requires input.Valid()
    modifies input
    ensures input.Valid()
    ensures var r := ParseCodepoint(old(input.Rest()));
            ok == r.Done? && (ok ==> out == r.value && input.Rest() == r.rest)
  {
    var u := ReadQuadHex(input);
    if u == -1 { return false, []; }
    u := ReadPair(input, u);
    if u == -1 { return false, []; }
    return true, Utf8(u);
  }

  method ReadEscape(input: Input) returns (ok: bool, out: Bytes)
    requires input.Valid()
    modifies input
    ensures input.Valid()
    ensures var r := ParseEscape(old(input.Rest()));
            ok == r.Done? && (ok ==> out == r.value && input.Rest() == r.rest)
  {
    var ch := input.GetC();
    if ch == QUOTE || ch == BACKSLASH || ch == 0x2f { return true, [ch]; }
    if ch == 0x62 { return true, [0x08]; }
    if ch == 0x66 { return true, [0x0c]; }
    if ch == 0x6e { return true, [NEWLINE]; }
    if ch == 0x72 { return true, [0x0d]; }
    if ch == 0x74 { return true, [0x09]; }
    if ch == 0x75 {
      ok, out := ReadCodepoint(input);
      return;
    }
    return false, [];
  }

  /** _parse_string. */
  method ReadString(input: Input) returns (ok: bool, out: Bytes)
    requires input.Valid()
    modifies input
    ensures input.Valid()
    ensures var r := ParseString(old(input.Rest()), []);
            ok == r.Done? && (ok ==> out == r.value && input.Rest() == r.rest)
  {
    ghost var s := input.Rest();
    out := [];
    while true
      invariant input.Valid() && ParseString(s, []) == ParseString(input.Rest(), out)
      decreases |input.Rest()|
    {
      var ch := input.GetC();
      if ch < SPACE {
        input.UngetC();
        return false, out;
      } else if ch == QUOTE {
        return true, out;
      } else if ch == BACKSLASH {
        var e;
        ok, e := ReadEscape(input);
        if !ok { return; }
        out := out + e;
      } else {
        out := out + [ch];
      }
    }
  }

  /** input::match. */
  method Match(input: Input, pattern: Bytes) returns (ok: bool)
    requires input.Valid()
    modifies input
    ensures input.Valid()
    ensures ok == (pattern <= old(input.Rest())) && (ok ==> input.Rest() == old(input.Rest())[|pattern|..])
  {
    ghost var s := input.Rest();
    for i := 0 to |pattern|
      invariant input.Valid() && i <= |s| && s[..i] == pattern[..i] && input.Rest() == s[i..]
    {
      var ch := input.GetC();
      if ch != pattern[i] {
        input.UngetC();
        return false;
      }
      assert s[..i + 1] == s[..i] + [s[i]];
    }
    assert s[..|pattern|] == pattern;
    return true;
  }

  method ReadLiteral(input: Input, text: Bytes, v: Value, ghost t: Bytes) returns (ok: bool)
    requires input.Valid() && text != [] && t != [] && t[0] == text[0] && input.Rest() == t[1..]
    modifies input
    ensures input.Valid()
    ensures var r := ParseLiteral(t, text, v); ok == r.Done? && (ok ==> r.value == v && input.Rest() == r.rest)
  {
    ok := Match(input, text[1..]);
    assert text <= t <==> text[1..] <= t[1..];
  }

  /** _parse_number, and strtod on what it collected. */
  method ReadNumber(input: Input) returns (ok: bool, v: Value)
    requires input.Valid() && input.Rest() != [] && NumberChar(input.Rest()[0])
    modifies input
    ensures input.Valid()
    ensures var r := ParseNumber(old(input.Rest()));
            ok == r.Done? && (ok ==> v == r.value && input.Rest() == r.rest)
  {
    hide IsDouble, Lines;
    ghost var s := input.Rest();
    ghost var n := 0;
    var token: Bytes := [];
    while true
      invariant input.Valid() && n <= |s| && input.Rest() == s[n..] && token == s[..n]
      invariant NumberLength(s) == n + NumberLength(s[n..])
      decreases |input.Rest()|
    {
      var ch := input.GetC();
      if 0x30 <= ch <= 0x39 || ch == 0x2b || ch == 0x2d || ch == 0x65 || ch == 0x45 || ch == 0x2e {
        token, n := token + [ch], n + 1;
      } else {
        input.UngetC();
        break;
      }
    }
    return IsDouble(token), Number(token);
  }

  /** _parse with default_parse_context, on any text. */
  method ReadValue(input: Input, depth: nat) returns (ok: bool, v: Value)
    requires input.Valid()
    modifies input
    ensures input.Valid()
    ensures var r := ParseValue(old(input.Rest()), depth);
            ok == r.Done? && (ok ==> v == r.value && input.Rest() == r.rest)
    decreases |input.Rest()|, 1
  {
    input.SkipSpace();
    ghost var t := input.Rest();
    var ch := input.GetC();
    ok, v := false, Null;
    if ch == NULL[0] {
      ok := ReadLiteral(input, NULL, Null, t);
    } else if ch == FALSE[0] {
      v := Bool(false);
      ok := ReadLiteral(input, FALSE, v, t);
    } else if ch == TRUE[0] {
      v := Bool(true);
      ok := ReadLiteral(input, TRUE, v, t);
    } else if ch == QUOTE {
      var s;
      ok, s := ReadString(input);
      v := Str(s);
    } else if ch == OPEN_ARRAY {
      ok, v := ReadArray(input, depth);
    } else if ch == OPEN_OBJECT {
      ok, v := ReadObject(input, depth);
    } else if 0x30 <= ch <= 0x39 || ch == 0x2d {
      input.UngetC();
      ok, v := ReadNumber(input);
    } else {
      input.UngetC();
    }
  }

  /** _parse_array. */
  method ReadArray(input: Input, depth: nat) returns (ok: bool, v: Value)
    requires input.Valid()
    modifies input
    ensures input.Valid()
    ensures var r := ParseArray(old(input.Rest()), depth);
            ok == r.Done? && (ok ==> v == r.value && input.Rest() == r.rest)
    decreases |input.Rest()|, 3
  {
    hide ParseValue, HexNumber;
    if depth == 0 { return false, Null; }
    ok := input.Expect(CLOSE_ARRAY);
    if ok { return true, Arr([]); }
    ghost var s := input.Rest();
    var items: seq<Value> := [];
    var more := true;
    while more
      invariant input.Valid() && |input.Rest()| <= |s|
      invariant more ==> ParseItems(s, depth - 1, []) == ParseItems(input.Rest(), depth - 1, items)
      invariant !more ==> !StartsWith(SkipWs(input.Rest()), COMMA)
      invariant !more ==> ParseItems(s, depth - 1, [])
                          == if StartsWith(SkipWs(input.Rest()), CLOSE_ARRAY) then Done(items, SkipWs(input.Rest())[1..]) else Fail
      decreases more, |input.Rest()|
    {
      var item;
      ok, item := ReadValue(input, depth - 1);
      if !ok { return false, Null; }
      items := items + [item];
      more := input.Expect(COMMA);
    }
    ok := input.Expect(CLOSE_ARRAY);
    return ok, Arr(items);
  }

  /** _parse_object. */
  method ReadObject(input: Input, depth: nat) returns (ok: bool, v: Value)
    requires input.Valid()
    modifies input
    ensures input.Valid()
    ensures var r := ParseObject(old(input.Rest()), depth);
            ok == r.Done? && (ok ==> v == r.value && input.Rest() == r.rest)
    decreases |input.Rest()|, 3
  {
    if depth == 0 { return false, Null; }
    ok := input.Expect(CLOSE_OBJECT);
    if ok { return true, Obj([]); }
    ghost var s := input.Rest();
    var members: seq<Member> := [];
    var more := true;
    while more
      invariant input.Valid() && |input.Rest()| <= |s|
      invariant more ==> ParseMembers(s, depth, []) == ParseMembers(input.Rest(), depth, members)
      invariant !more ==> !StartsWith(SkipWs(input.Rest()), COMMA)
      invariant !more ==> ParseMembers(s, depth, [])
                          == if StartsWith(SkipWs(input.Rest()), CLOSE_OBJECT) then Done(members, SkipWs(input.Rest())[1..]) else Fail
      decreases more, |input.Rest()|
    {
      var key, item;
      ok, key := ReadKey(input);
      if !ok { return false, Null; }
      ok, item := ReadValue(input, depth);
      if !ok { return false, Null; }
      members := Insert(members, key, item);
      more := input.Expect(COMMA);
    }
    ok := input.Expect(CLOSE_OBJECT);
    return ok, Obj(members);
  }

  method ReadKey(input: Input) returns (ok: bool, key: Bytes)
    requires input.Valid()
    modifies input
    ensures input.Valid()
    ensures var r := ParseKey(old(input.Rest()));
            ok == r.Done? && (ok ==> key == r.value && input.Rest() == r.rest)
  {
    key := [];
    ok := input.Expect(QUOTE);
    if !ok { return; }
    ok, key := ReadString(input);
    if !ok { return; }
    ok := input.Expect(COLON);
  }
}
