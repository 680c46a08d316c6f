/** picojson.h: printing a value and parsing it back. */
module Json {
  import opened Sequences
  import opened Wire

  /** A number is the token it was read from. An object is a std::map: its members in key order. */
  datatype Value =
    | Null
    | Bool(b: bool)
    | Number(token: Bytes)
    | Str(s: Bytes)
    | Arr(items: seq<Value>)
    | Obj(members: seq<Member>)

  datatype Member = Member(key: Bytes, value: Value)

  const QUOTE: byte := 0x22
  const BACKSLASH: byte := 0x5c
  const COMMA: byte := 0x2c
  const COLON: byte := 0x3a
  const OPEN_ARRAY: byte := 0x5b
  const CLOSE_ARRAY: byte := 0x5d
  const OPEN_OBJECT: byte := 0x7b
  const CLOSE_OBJECT: byte := 0x7d
  const NEWLINE: byte := 0x0a
  const SPACE: byte := 0x20
  const NULL: Bytes := [0x6e, 0x75, 0x6c, 0x6c]
  const TRUE: Bytes := [0x74, 0x72, 0x75, 0x65]
  const FALSE: Bytes := [0x66, 0x61, 0x6c, 0x73, 0x65]
  const DEFAULT_MAX_DEPTHS: nat := 100

  // ---- members in key order --------------------------------------------------------

  /** std::string's order: bytes compared as unsigned. */
  predicate Less(a: Bytes, b: Bytes) {
    b != [] && (a == [] || a[0] < b[0] || (a[0] == b[0] && Less(a[1..], b[1..])))
  }

  predicate Sorted(ms: seq<Member>) {
    forall i, j :: 0 <= i < j < |ms| ==> Less(ms[i].key, ms[j].key)
  }

  /** o[key] = value. */
  function Insert(ms: seq<Member>, key: Bytes, value: Value): seq<Member> {
    if ms == [] || Less(key, ms[0].key) then [Member(key, value)] + ms
    else if key == ms[0].key then [Member(key, value)] + ms[1..]
    else [ms[0]] + Insert(ms[1..], key, value)
  }

  lemma {:induction false} LessIsOrder(a: Bytes, b: Bytes)
    ensures Less(a, b) ==> !Less(b, a) && a != b
    ensures Less(a, b) || Less(b, a) || a == b
  {
    if a != [] && b != [] && a[0] == b[0] {
      LessIsOrder(a[1..], b[1..]);
      assert a == [a[0]] + a[1..] && b == [b[0]] + b[1..];
    }
  }

  lemma {:induction false} LessIsTransitive(a: Bytes, b: Bytes, c: Bytes)
    requires Less(a, b) && Less(b, c)
    ensures Less(a, c)
  {
    if a != [] && a[0] == b[0] == c[0] {
      LessIsTransitive(a[1..], b[1..], c[1..]);
    }
  }

  /** Insertion keeps the order, replaces the value of the key, and touches no other member. */
  lemma {:induction false} InsertIsUpdate(ms: seq<Member>, key: Bytes, value: Value)
    requires Sorted(ms)
    ensures var r := Insert(ms, key, value);
            Sorted(r) && forall m :: m in r <==> m == Member(key, value) || (m in ms && m.key != key)
  {
    if ms == [] {
    } else if Less(key, ms[0].key) {
      AllAbove(key, ms);
    } else {
      LessIsOrder(key, ms[0].key);
      assert ms == [ms[0]] + ms[1..];
      AllAbove(ms[0].key, ms[1..]);
      if key != ms[0].key {
        InsertIsUpdate(ms[1..], key, value);
        SortedCons(ms[0], Insert(ms[1..], key, value));
      }
    }
  }

  lemma AllAbove(key: Bytes, ms: seq<Member>)
    requires Sorted(ms) && (ms != [] ==> Less(key, ms[0].key))
    ensures forall m :: m in ms ==> Less(key, m.key) && key != m.key
  {
    forall j | 0 <= j < |ms|
      ensures Less(key, ms[j].key) && key != ms[j].key
    {
      if j > 0 { LessIsTransitive(key, ms[0].key, ms[j].key); }
      LessIsOrder(key, ms[j].key);
    }
  }

  lemma SortedCons(m: Member, ms: seq<Member>)
    requires Sorted(ms) && forall x :: x in ms ==> Less(m.key, x.key)
    ensures Sorted([m] + ms)
  {
  }

  lemma {:induction false} InsertLast(ms: seq<Member>, key: Bytes, value: Value)
    requires forall i :: 0 <= i < |ms| ==> Less(ms[i].key, key)
    ensures Insert(ms, key, value) == ms + [Member(key, value)]
  {
    if ms != [] {
      LessIsOrder(ms[0].key, key);
      InsertLast(ms[1..], key, value);
      assert ms == [ms[0]] + ms[1..];
    }
  }

  // ---- printing --------------------------------------------------------------------

  function HexDigit(d: nat): byte
    requires d < 16
  {
    if d < 10 then 0x30 + d else 0x57 + d
  }

  /** serialize_str_char. */
  function Escape(c: byte): Bytes {
    if c == QUOTE || c == BACKSLASH || c == 0x2f then [BACKSLASH, c]
    else if c == 0x08 then [BACKSLASH, 0x62]
    else if c == 0x0c then [BACKSLASH, 0x66]
    else if c == NEWLINE then [BACKSLASH, 0x6e]
    else if c == 0x0d then [BACKSLASH, 0x72]
    else if c == 0x09 then [BACKSLASH, 0x74]
    else if c < SPACE || c == 0x7f then [BACKSLASH, 0x75, 0x30, 0x30, HexDigit(c / 16), HexDigit(c % 16)]
    else [c]
  }

  function EscapeAll(s: Bytes): Bytes {
    if s == [] then [] else Escape(s[0]) + EscapeAll(s[1..])
  }

  /** serialize_str. */
  function Quoted(s: Bytes): Bytes {
    [QUOTE] + EscapeAll(s) + [QUOTE]
  }

  function Spaces(n: nat): Bytes {
    if n == 0 then [] else [SPACE] + Spaces(n - 1)
  }

  /** The line break before an element, when prettifying (indent -1 means compact). */
  function Gap(indent: int): Bytes {
    if indent < 0 then [] else [NEWLINE] + Spaces(2 * indent)
  }

  function Inner(indent: int): int {
    if indent == -1 then -1 else indent + 1
  }

  function Width(v: Value): nat {
    match v
    case Arr(items) => |items|
    case Obj(members) => |members|
    case _ => 0
  }

  /** Printing numbers (snprintf) is not part of this model. */
  predicate NumberFree(v: Value) {
    match v
    case Number(_) => false
    case Arr(items) => forall i :: 0 <= i < |items| ==> NumberFree(items[i])
    case Obj(members) => forall i :: 0 <= i < |members| ==> NumberFree(members[i].value)
    case _ => true
  }

  /** value::_serialize. */
  function Print(v: Value, indent: int): Bytes
    requires NumberFree(v) && indent >= -1
    decreases v, Width(v) + 2
  {
    Body(v, indent) + if indent == 0 then [NEWLINE] else []
  }

  function Body(v: Value, indent: int): Bytes
    requires NumberFree(v) && indent >= -1
    decreases v, Width(v) + 1
  {
    match v
    case Null => NULL
    case Bool(b) => if b then TRUE else FALSE
    case Str(s) => Quoted(s)
    case Arr(items) =>
      [OPEN_ARRAY] + (if items == [] then [] else Items(v, 0, Inner(indent)) + Gap(indent)) + [CLOSE_ARRAY]
    case Obj(members) =>
      [OPEN_OBJECT] + (if members == [] then [] else Members(v, 0, Inner(indent)) + Gap(indent)) + [CLOSE_OBJECT]
  }

  /** The items from number k on. */
  function Items(v: Value, k: nat, indent: int): Bytes
    requires v.Arr? && k < |v.items| && NumberFree(v) && indent >= -1
    decreases v, |v.items| - k
  {
    Gap(indent) + Print(v.items[k], indent)
    + if k + 1 < |v.items| then [COMMA] + Items(v, k + 1, indent) else []
  }

  function Members(v: Value, k: nat, indent: int): Bytes
    requires v.Obj? && k < |v.members| && NumberFree(v) && indent >= -1
    decreases v, |v.members| - k
  {
    Gap(indent) + Quoted(v.members[k].key) + [COLON] + (if indent != -1 then [SPACE] else [])
    + Print(v.members[k].value, indent)
    + if k + 1 < |v.members| then [COMMA] + Members(v, k + 1, indent) else []
  }

  /** value::serialize. */
  function Serialize(v: Value, prettify: bool): Bytes
    requires NumberFree(v)
  {
    Print(v, if prettify then 0 else -1)
  }

  // ---- parsing ---------------------------------------------------------------------

  datatype Result<T> = Fail | Done(value: T, rest: Bytes)

  predicate IsSpace(c: byte) {
    c == SPACE || c == 0x09 || c == NEWLINE || c == 0x0d
  }

  function SkipWs(s: Bytes): (r: Bytes)
    ensures |r| <= |s| && (r != [] ==> !IsSpace(r[0]))
  {
    if s != [] && IsSpace(s[0]) then SkipWs(s[1..]) else s
  }

  predicate StartsWith(s: Bytes, c: byte) {
    s != [] && s[0] == c
  }

  predicate IsHex(c: byte) {
    0x30 <= c <= 0x39 || 0x41 <= c <= 0x46 || 0x61 <= c <= 0x66
  }

  function HexValue(c: byte): nat
    requires IsHex(c)
  {
    if c <= 0x39 then c - 0x30 else if c <= 0x46 then c - 0x37 else c - 0x57
  }

  /** The value of the first n hexadecimal digits. */
  function HexNumber(s: Bytes, n: nat): (u: nat)
    requires n <= |s| && forall i :: 0 <= i < n ==> IsHex(s[i])
  {
    if n == 0 then 0 else 16 * HexNumber(s, n - 1) + HexValue(s[n - 1])
  }

  lemma {:induction false} FourHexDigits(s: Bytes)
    requires |s| >= 4 && forall i :: 0 <= i < 4 ==> IsHex(s[i])
    ensures HexNumber(s, 4)
         == HexValue(s[0]) * 0x1000 + HexValue(s[1]) * 0x100 + HexValue(s[2]) * 0x10 + HexValue(s[3]) < 0x1_0000
  {
    hide HexNumber, HexValue;
    HexStep(s, 1);
    HexStep(s, 2);
    HexStep(s, 3);
    HexStep(s, 4);
    HexNone(s);
  }

  lemma HexNone(s: Bytes)
    ensures HexNumber(s, 0) == 0
  {
  }

  lemma HexStep(s: Bytes, n: nat)
    requires 0 < n <= |s| && forall i :: 0 <= i < n ==> IsHex(s[i])
    ensures HexNumber(s, n) == 16 * HexNumber(s, n - 1) + HexValue(s[n - 1]) && HexValue(s[n - 1]) < 16
  {
  }

  /** _parse_quadhex. */
  function ParseQuadHex(s: Bytes): (r: Result<nat>)
    ensures r.Done? ==> r.value < 0x1_0000 && |r.rest| == |s| - 4
  {
    if |s| >= 4 && forall i :: 0 <= i < 4 ==> IsHex(s[i]) then
      FourHexDigits(s);
      Done(HexNumber(s, 4), s[4..])
    else Fail
  }

  /** UTF-8. */
  function Utf8(u: nat): Bytes
    requires u < 0x11_0000
  {
    if u < 0x80 then [u]
    else if u < 0x800 then [0xc0 + u / 0x40, 0x80 + u % 0x40]
    else if u < 0x1_0000 then [0xe0 + u / 0x1000, 0x80 + u / 0x40 % 0x40, 0x80 + u % 0x40]
    else [0xf0 + u / 0x4_0000, 0x80 + u / 0x1000 % 0x40, 0x80 + u / 0x40 % 0x40, 0x80 + u % 0x40]
  }

  /** What a first \uXXXX stands for, together with the second half of a surrogate pair if it is one. */
  function ParsePair(u: nat, s: Bytes): (r: Result<nat>)
    requires u < 0x1_0000
    ensures r.Done? ==> r.value < 0x11_0000 && |r.rest| <= |s|
  {
    if !(0xd800 <= u <= 0xdfff) then Done(u, s)
    else if 0xdc00 <= u || |s| < 2 || s[0] != BACKSLASH || s[1] != 0x75 then Fail
    else
      var second := ParseQuadHex(s[2..]);
      if second.Done? && 0xdc00 <= second.value <= 0xdfff then
        Done(0x1_0000 + (u - 0xd800) * 0x400 + (second.value - 0xdc00), second.rest)
      else Fail
  }

  /** _parse_codepoint. */
  function ParseCodepoint(s: Bytes): (r: Result<Bytes>)
    ensures r.Done? ==> |r.rest| < |s|
  {
    var first := ParseQuadHex(s);
    if first.Fail? then Fail
    else
      var u := ParsePair(first.value, first.rest);
      if u.Fail? then Fail else Done(Utf8(u.value), u.rest)
  }

  /** The escape sequence behind a backslash. */
  function ParseEscape(s: Bytes): (r: Result<Bytes>)
    ensures r.Done? ==> |r.rest| < |s|
  {
    if s == [] then Fail
    else if s[0] == QUOTE || s[0] == BACKSLASH || s[0] == 0x2f then Done([s[0]], s[1..])
    else if s[0] == 0x62 then Done([0x08], s[1..])
    else if s[0] == 0x66 then Done([0x0c], s[1..])
    else if s[0] == 0x6e then Done([NEWLINE], s[1..])
    else if s[0] == 0x72 then Done([0x0d], s[1..])
    else if s[0] == 0x74 then Done([0x09], s[1..])
    else if s[0] == 0x75 then ParseCodepoint(s[1..])
    else Fail
  }

  /** _parse_string, behind the opening quote and with `acc` already read. */
  function ParseString(s: Bytes, acc: Bytes): (r: Result<Bytes>)
    ensures r.Done? ==> |r.rest| < |s|
    decreases |s|
  {
    if s == [] || s[0] < SPACE then Fail
    else if s[0] == QUOTE then Done(acc, s[1..])
    else if s[0] == BACKSLASH then
      var e := ParseEscape(s[1..]);
      if e.Fail? then Fail else ParseString(e.rest, acc + e.value)
    else ParseString(s[1..], acc + [s[0]])
  }

  predicate IsDigit(c: byte) {
    0x30 <= c <= 0x39
  }

  predicate NumberChar(c: byte) {
    IsDigit(c) || c == 0x2b || c == 0x2d || c == 0x2e || c == 0x65 || c == 0x45
  }

  function NumberLength(s: Bytes): (n: nat)
    ensures n <= |s|
  {
    if s != [] && NumberChar(s[0]) then 1 + NumberLength(s[1..]) else 0
  }

  function DigitRun(s: Bytes): (n: nat)
    ensures n <= |s|
  {
    if s != [] && IsDigit(s[0]) then 1 + DigitRun(s[1..]) else 0
  }

  function SkipSign(s: Bytes): Bytes {
    if StartsWith(s, 0x2b) || StartsWith(s, 0x2d) then s[1..] else s
  }

  /** strtod (C locale) consumes all of this token. */
  predicate IsDouble(token: Bytes) {
    var a := SkipSign(token);
    var i := DigitRun(a);
    var b := a[i..];
    var j := if StartsWith(b, 0x2e) then DigitRun(b[1..]) else 0;
    var c := if StartsWith(b, 0x2e) && i + j > 0 then b[1 + j..] else b;
    i + j > 0
    && (c == []
        || ((c[0] == 0x65 || c[0] == 0x45)
            && var e := SkipSign(c[1..]); e != [] && DigitRun(e) == |e|))
  }

  function ParseNumber(s: Bytes): (r: Result<Value>)
    requires s != [] && NumberChar(s[0])
    ensures r.Done? ==> |r.rest| < |s|
  {
    var n := NumberLength(s);
    if IsDouble(s[..n]) then Done(Number(s[..n]), s[n..]) else Fail
  }

  function ParseLiteral(s: Bytes, text: Bytes, v: Value): Result<Value> {
    if text <= s then Done(v, s[|text|..]) else Fail
  }

  /** _parse with default_parse_context. */
  function ParseValue(s: Bytes, depth: nat): (r: Result<Value>)
    ensures r.Done? ==> |r.rest| < |s|
    decreases |s|, 1
  {
    var t := SkipWs(s);
    if t == [] then Fail
    else if t[0] == NULL[0] then ParseLiteral(t, NULL, Null)
    else if t[0] == FALSE[0] then ParseLiteral(t, FALSE, Bool(false))
    else if t[0] == TRUE[0] then ParseLiteral(t, TRUE, Bool(true))
    else if t[0] == QUOTE then
      var r := ParseString(t[1..], []);
      if r.Fail? then Fail else Done(Str(r.value), r.rest)
    else if t[0] == OPEN_ARRAY then ParseArray(t[1..], depth)
    else if t[0] == OPEN_OBJECT then ParseObject(t[1..], depth)
    else if IsDigit(t[0]) || t[0] == 0x2d then ParseNumber(t)
    else Fail
  }

  /** _parse_array; an array uses up one level of depth. */
  function ParseArray(s: Bytes, depth: nat): (r: Result<Value>)
    ensures r.Done? ==> |r.rest| < |s|
    decreases |s|, 3
  {
    var t := SkipWs(s);
    if depth == 0 then Fail
    else if StartsWith(t, CLOSE_ARRAY) then Done(Arr([]), t[1..])
    else
      var r := ParseItems(t, depth - 1, []);
      if r.Fail? then Fail else Done(Arr(r.value), r.rest)
  }

  function ParseItems(s: Bytes, depth: nat, acc: seq<Value>): (r: Result<seq<Value>>)
    ensures r.Done? ==> |r.rest| < |s|
    decreases |s|, 2
  {
    var item := ParseValue(s, depth);
    if item.Fail? then Fail
    else
      var t := SkipWs(item.rest);
      if StartsWith(t, COMMA) then ParseItems(t[1..], depth, acc + [item.value])
      else if StartsWith(t, CLOSE_ARRAY) then Done(acc + [item.value], t[1..])
      else Fail
  }

  /** _parse_object; an object needs a level of depth but does not use it up. */
  function ParseObject(s: Bytes, depth: nat): (r: Result<Value>)
    ensures r.Done? ==> |r.rest| < |s|
    decreases |s|, 3
  {
    var t := SkipWs(s);
    if depth == 0 then Fail
    else if StartsWith(t, CLOSE_OBJECT) then Done(Obj([]), t[1..])
    else
      var r := ParseMembers(t, depth, []);
      if r.Fail? then Fail else Done(Obj(r.value), r.rest)
  }

  /** A key and the colon behind it. */
  function ParseKey(s: Bytes): (r: Result<Bytes>)
    ensures r.Done? ==> |r.rest| < |s|
  {
    var t := SkipWs(s);
    if !StartsWith(t, QUOTE) then Fail
    else
      var key := ParseString(t[1..], []);
      if key.Fail? then Fail
      else
        var u := SkipWs(key.rest);
        if StartsWith(u, COLON) then Done(key.value, u[1..]) else Fail
  }

  function ParseMembers(s: Bytes, depth: nat, acc: seq<Member>): (r: Result<seq<Member>>)
    ensures r.Done? ==> |r.rest| < |s|
    decreases |s|, 2
  {
    var key := ParseKey(s);
    if key.Fail? then Fail
    else
      var item := ParseValue(key.rest, depth);
      if item.Fail? then Fail
      else
        var ms := Insert(acc, key.value, item.value);
        var t := SkipWs(item.rest);
        if StartsWith(t, COMMA) then ParseMembers(t[1..], depth, ms)
        else if StartsWith(t, CLOSE_OBJECT) then Done(ms, t[1..])
        else Fail
  }

  function Parse(s: Bytes): Result<Value> {
    ParseValue(s, DEFAULT_MAX_DEPTHS)
  }

  // ---- the parser inverts the printer ----------------------------------------------

  /** What the C++ types guarantee of a value: the members of objects are in key order. */
  ghost predicate Wf(v: Value) {
    match v
    case Arr(items) => forall i :: 0 <= i < |items| ==> Wf(items[i])
    case Obj(members) => Sorted(members) && forall i :: 0 <= i < |members| ==> Wf(members[i].value)
    case _ => true
  }

  /** Arrays nest at most n deep. */
  ghost predicate NestsWithin(v: Value, n: nat) {
    match v
    case Arr(items) => n > 0 && forall i :: 0 <= i < |items| ==> NestsWithin(items[i], n - 1)
    case Obj(members) => forall i :: 0 <= i < |members| ==> NestsWithin(members[i].value, n)
    case _ => true
  }

  /** Below `depth` levels of arrays there is neither an array nor an object. */
  ghost predicate Fits(v: Value, depth: nat) {
    match v
    case Arr(items) => depth > 0 && forall i :: 0 <= i < |items| ==> Fits(items[i], depth - 1)
    case Obj(members) => depth > 0 && forall i :: 0 <= i < |members| ==> Fits(members[i].value, depth)
    case _ => true
  }

  lemma {:induction false} ShallowFits(v: Value, n: nat)
    ensures NestsWithin(v, n) ==> Fits(v, n + 1)
    ensures Fits(v, n) ==> NestsWithin(v, n)
    decreases v
  {
    match v
    case Arr(items) =>
      if n > 0 {
        forall i | 0 <= i < |items|
          ensures NestsWithin(items[i], n - 1) ==> Fits(items[i], n)
          ensures Fits(items[i], n - 1) ==> NestsWithin(items[i], n - 1)
        {
          ShallowFits(items[i], n - 1);
        }
      }
    case Obj(members) =>
      forall i | 0 <= i < |members|
        ensures NestsWithin(members[i].value, n) ==> Fits(members[i].value, n + 1)
        ensures Fits(members[i].value, n) ==> NestsWithin(members[i].value, n)
      {
        ShallowFits(members[i].value, n);
      }
    case _ =>
  }

  lemma {:induction false} SpacesAreSkipped(n: nat, s: Bytes)
    ensures SkipWs(Spaces(n) + s) == SkipWs(s)
  {
    if n == 0 {
      assert Spaces(n) + s == s;
    } else {
      SpacesAreSkipped(n - 1, s);
      assert (Spaces(n) + s)[1..] == Spaces(n - 1) + s;
    }
  }

  lemma GapIsSkipped(indent: int, s: Bytes)
    ensures SkipWs(Gap(indent) + s) == SkipWs(s)
  {
    if indent < 0 {
      assert Gap(indent) + s == s;
    } else {
      SpacesAreSkipped(2 * indent, s);
      assert (Gap(indent) + s)[1..] == Spaces(2 * indent) + s;
    }
  }

  lemma EscapeIsRead(c: byte, rest: Bytes, acc: Bytes)
    ensures ParseString(Escape(c) + rest, acc) == ParseString(rest, acc + [c])
  {
    var s := Escape(c) + rest;
    if |Escape(c)| == 1 {
      assert s[1..] == rest;
    } else if |Escape(c)| == 2 {
      assert s[1..][1..] == rest;
    } else {
      assert s[1..][1..] == [0x30, 0x30, HexDigit(c / 16), HexDigit(c % 16)] + rest;
      HexByteIsRead(c, rest);
    }
  }

  lemma HexByteIsRead(c: byte, rest: Bytes)
    ensures ParseQuadHex([0x30, 0x30, HexDigit(c / 16), HexDigit(c % 16)] + rest) == Done(c, rest)
  {
    var q := [0x30, 0x30, HexDigit(c / 16), HexDigit(c % 16)] + rest;
    assert q[4..] == rest && forall i :: 0 <= i < 4 ==> IsHex(q[i]);
    FourHexDigits(q);
    hide HexNumber;
  }

  lemma QuoteEnds(rest: Bytes, acc: Bytes)
    ensures ParseString([QUOTE] + rest, acc) == Done(acc, rest)
  {
    assert ([QUOTE] + rest)[1..] == rest;
  }

  lemma FirstMoves(acc: Bytes, text: Bytes)
    requires text != []
    ensures acc + [text[0]] + text[1..] == acc + text
  {
  }

  lemma {:induction false} EscapedIsRead(text: Bytes, rest: Bytes, acc: Bytes)
    ensures ParseString(EscapeAll(text) + ([QUOTE] + rest), acc) == Done(acc + text, rest)
  {
    hide Escape, ParseString;
    var tail := [QUOTE] + rest;
    if text == [] {
      QuoteEnds(rest, acc);
      assert EscapeAll(text) + tail == tail && acc + text == acc;
    } else {
      var others := EscapeAll(text[1..]);
      EscapeIsRead(text[0], others + tail, acc);
      EscapedIsRead(text[1..], rest, acc + [text[0]]);
      Associate(Escape(text[0]), others, tail);
      FirstMoves(acc, text);
    }
  }

  lemma QuotedIsRead(text: Bytes, rest: Bytes)
    ensures var s := Quoted(text) + rest;
            s[0] == QUOTE && SkipWs(s) == s && ParseString(s[1..], []) == Done(text, rest)
  {
    hide EscapeAll, ParseString;
    var s := Quoted(text) + rest;
    EscapedIsRead(text, rest, []);
    assert s[1..] == EscapeAll(text) + ([QUOTE] + rest);
    assert [] + text == text;
  }

  lemma BodyStart(v: Value, indent: int, rest: Bytes)
    requires NumberFree(v) && indent >= -1
    ensures var s := Body(v, indent) + rest; s != [] && SkipWs(s) == s && s[0] != CLOSE_ARRAY
  {
  }

  lemma LiteralIsRead(v: Value, indent: int, rest: Bytes, depth: nat)
    requires v.Null? || v.Bool? || v.Str?
    requires indent >= -1
    ensures ParseValue(Body(v, indent) + rest, depth) == Done(v, rest)
  {
    var s := Body(v, indent) + rest;
    assert s[|Body(v, indent)|..] == rest;
    if v.Str? { QuotedIsRead(v.s, rest); }
  }

  /** The parts of a container: what opens it, its elements, and what closes it, then the rest. */
  lemma ContainerParts(open: byte, elements: Bytes, gap: Bytes, close: byte, rest: Bytes)
    ensures var s := ([open] + (elements + gap) + [close]) + rest;
            s[0] == open && s[1..] == elements + (gap + ([close] + rest))
  {
  }

  lemma EmptyParts(open: byte, close: byte, rest: Bytes)
    ensures var s := ([open] + [] + [close]) + rest; s[0] == open && s[1..] == [close] + rest && ([close] + rest)[1..] == rest
  {
  }

  /** What is printed for a value is read back as that value exactly if it fits the depth. */
  lemma {:induction false} BodyIsRead(v: Value, indent: int, rest: Bytes, depth: nat)
    requires Wf(v) && NumberFree(v) && indent >= -1
    ensures ParseValue(Body(v, indent) + rest, depth) == if Fits(v, depth) then Done(v, rest) else Fail
    decreases v, Width(v) + 1
  {
    match v
    case Arr(items) => ArrayIsRead(v, indent, rest, depth);
    case Obj(members) => ObjectIsRead(v, indent, rest, depth);
    case _ => LiteralIsRead(v, indent, rest, depth);
  }

  lemma {:induction false} ArrayIsRead(v: Value, indent: int, rest: Bytes, depth: nat)
    requires v.Arr? && Wf(v) && NumberFree(v) && indent >= -1
    ensures ParseValue(Body(v, indent) + rest, depth) == if Fits(v, depth) then Done(v, rest) else Fail
    decreases v, |v.items| + 1, 0
  {
    hide Items, ParseItems;
    BodyStart(v, indent, rest);
    if v.items == [] {
      EmptyParts(OPEN_ARRAY, CLOSE_ARRAY, rest);
    } else {
      ContainerParts(OPEN_ARRAY, Items(v, 0, Inner(indent)), Gap(indent), CLOSE_ARRAY, rest);
      GapIsSkipped(indent, [CLOSE_ARRAY] + rest);
      if depth > 0 {
        ItemsAreRead(v, 0, Inner(indent), Gap(indent) + ([CLOSE_ARRAY] + rest), rest, depth - 1);
      }
    }
  }

  lemma {:induction false} ObjectIsRead(v: Value, indent: int, rest: Bytes, depth: nat)
    requires v.Obj? && Wf(v) && NumberFree(v) && indent >= -1
    ensures ParseValue(Body(v, indent) + rest, depth) == if Fits(v, depth) then Done(v, rest) else Fail
    decreases v, |v.members| + 1, 0
  {
    hide Members, ParseMembers;
    BodyStart(v, indent, rest);
    if v.members == [] {
      EmptyParts(OPEN_OBJECT, CLOSE_OBJECT, rest);
    } else {
      ContainerParts(OPEN_OBJECT, Members(v, 0, Inner(indent)), Gap(indent), CLOSE_OBJECT, rest);
      GapIsSkipped(indent, [CLOSE_OBJECT] + rest);
      MembersAreRead(v, 0, Inner(indent), Gap(indent) + ([CLOSE_OBJECT] + rest), rest, depth);
    }
  }

  lemma SkippingTwice(s: Bytes)
    ensures SkipWs(SkipWs(s)) == SkipWs(s)
  {
  }

  /** What follows item k: the next items, or the end of the array. */
  function AfterItem(v: Value, k: nat, inner: int, tail: Bytes): Bytes
    requires v.Arr? && k < |v.items| && NumberFree(v) && inner >= -1
  {
    if k + 1 < |v.items| then [COMMA] + (Items(v, k + 1, inner) + tail) else tail
  }

  lemma ItemParts(v: Value, k: nat, inner: int, tail: Bytes)
    requires v.Arr? && k < |v.items| && NumberFree(v) && inner >= -1 && inner != 0
    ensures Items(v, k, inner) + tail == Gap(inner) + (Body(v.items[k], inner) + AfterItem(v, k, inner, tail))
  {
    hide Gap, Body;
    var body := Body(v.items[k], inner);
    assert body + [] == body;
    if k + 1 < |v.items| {
      var next := Items(v, k + 1, inner);
      assert (Gap(inner) + body + ([COMMA] + next)) + tail == Gap(inner) + (body + ([COMMA] + (next + tail)));
    } else {
      assert (Gap(inner) + body + []) + tail == Gap(inner) + (body + tail);
    }
  }

  /** The items from number k on are read, up to `rest`, if they all fit the depth. */
  ghost predicate ItemsRead(s: Bytes, v: Value, k: nat, rest: Bytes, depth: nat)
    requires v.Arr? && k <= |v.items|
  {
    ParseItems(s, depth, v.items[..k])
    == if forall i :: k <= i < |v.items| ==> Fits(v.items[i], depth) then Done(v.items, rest) else Fail
  }

  lemma {:induction false} ItemsAreRead(v: Value, k: nat, inner: int, tail: Bytes, rest: Bytes, depth: nat)
    requires v.Arr? && k < |v.items| && Wf(v) && NumberFree(v) && inner >= -1 && inner != 0
    requires SkipWs(tail) == [CLOSE_ARRAY] + rest
    ensures var t := SkipWs(Items(v, k, inner) + tail);
            t != [] && t[0] != CLOSE_ARRAY && ItemsRead(t, v, k, rest, depth)
    decreases v, |v.items| - k
  {
    var item, more := v.items[k], AfterItem(v, k, inner, tail);
    assert Wf(item) && NumberFree(item);
    hide Items, Body, ParseValue, ParseItems, Fits, Wf, NumberFree, SkipWs, ItemsRead;
    var t := Body(item, inner) + more;
    ItemStart(v, k, inner, tail);
    BodyIsRead(item, inner, more, depth);
    if k + 1 < |v.items| {
      var next := Items(v, k + 1, inner) + tail;
      ItemsAreRead(v, k + 1, inner, tail, rest, depth);
      ItemsSkip(next, v, k + 1, rest, depth);
      ItemStep(v, k, t, more, next, rest, depth);
    } else {
      ItemStep(v, k, t, more, [], rest, depth);
    }
  }

  lemma ItemStart(v: Value, k: nat, inner: int, tail: Bytes)
    requires v.Arr? && k < |v.items| && NumberFree(v) && inner >= -1 && inner != 0
    ensures var t := Body(v.items[k], inner) + AfterItem(v, k, inner, tail);
            SkipWs(Items(v, k, inner) + tail) == t && t != [] && t[0] != CLOSE_ARRAY
  {
    var more := AfterItem(v, k, inner, tail);
    ItemParts(v, k, inner, tail);
    GapIsSkipped(inner, Body(v.items[k], inner) + more);
    BodyStart(v.items[k], inner, more);
  }

  lemma ItemStep(v: Value, k: nat, t: Bytes, more: Bytes, next: Bytes, rest: Bytes, depth: nat)
    requires v.Arr? && k < |v.items|
    requires ParseValue(t, depth) == if Fits(v.items[k], depth) then Done(v.items[k], more) else Fail
    requires k + 1 < |v.items| ==> more == [COMMA] + next && ItemsRead(next, v, k + 1, rest, depth)
    requires k + 1 == |v.items| ==> SkipWs(more) == [CLOSE_ARRAY] + rest
    ensures ItemsRead(t, v, k, rest, depth)
  {
    hide Fits, ParseValue;
    assert v.items[..k] + [v.items[k]] == v.items[..k + 1];
    if k + 1 < |v.items| {
      CommaStarts(COMMA, next);
    } else {
      assert ([CLOSE_ARRAY] + rest)[1..] == rest && v.items[..k + 1] == v.items;
    }
  }

  lemma CommaStarts(c: byte, s: Bytes)
    requires !IsSpace(c)
    ensures SkipWs([c] + s) == [c] + s && ([c] + s)[1..] == s
  {
  }

  lemma ItemsSkip(s: Bytes, v: Value, k: nat, rest: Bytes, depth: nat)
    requires v.Arr? && k <= |v.items|
    ensures ItemsRead(SkipWs(s), v, k, rest, depth) == ItemsRead(s, v, k, rest, depth)
  {
    SkippingTwice(s);
    assert ParseValue(SkipWs(s), depth) == ParseValue(s, depth);
  }

  lemma KeyIsRead(indent: int, key: Bytes, rest: Bytes)
    ensures ParseKey(Gap(indent) + (Quoted(key) + ([COLON] + rest))) == Done(key, rest)
  {
    hide Quoted, ParseString;
    GapIsSkipped(indent, Quoted(key) + ([COLON] + rest));
    QuotedIsRead(key, [COLON] + rest);
    assert ([COLON] + rest)[1..] == rest;
  }

  /** What follows member k: the next members, or the end of the object. */
  function AfterMember(v: Value, k: nat, inner: int, tail: Bytes): Bytes
    requires v.Obj? && k < |v.members| && NumberFree(v) && inner >= -1
  {
    if k + 1 < |v.members| then [COMMA] + (Members(v, k + 1, inner) + tail) else tail
  }

  function Space(inner: int): Bytes {
    if inner != -1 then [SPACE] else []
  }

  lemma MemberParts(v: Value, k: nat, inner: int, tail: Bytes)
    requires v.Obj? && k < |v.members| && NumberFree(v) && inner >= -1 && inner != 0
    ensures var value := Space(inner) + (Body(v.members[k].value, inner) + AfterMember(v, k, inner, tail));
            Members(v, k, inner) + tail == Gap(inner) + (Quoted(v.members[k].key) + ([COLON] + value))
  {
    hide Gap, Body, Quoted;
    var (gap, key, body) := (Gap(inner), Quoted(v.members[k].key), Body(v.members[k].value, inner));
    assert body + [] == body;
    if k + 1 < |v.members| {
      var next := Members(v, k + 1, inner);
      assert (gap + key + [COLON] + Space(inner) + body + ([COMMA] + next)) + tail
          == gap + (key + ([COLON] + (Space(inner) + (body + ([COMMA] + (next + tail))))));
    } else {
      assert (gap + key + [COLON] + Space(inner) + body + []) + tail == gap + (key + ([COLON] + (Space(inner) + (body + tail))));
    }
  }

  lemma MemberKey(v: Value, k: nat, inner: int, tail: Bytes, depth: nat) returns (value: Bytes)
    requires v.Obj? && k < |v.members| && NumberFree(v) && inner >= -1 && inner != 0
    ensures var (m, s) := (v.members[k], Members(v, k, inner) + tail);
            && StartsWith(SkipWs(s), QUOTE) && ParseKey(s) == Done(m.key, value)
            && ParseValue(value, depth) == ParseValue(Body(m.value, inner) + AfterMember(v, k, inner, tail), depth)
  {
    var m, more := v.members[k], AfterMember(v, k, inner, tail);
    assert NumberFree(m.value);
    hide Members, Gap, Body, ParseValue, ParseKey, Quoted, NumberFree, SkipWs;
    value := Space(inner) + (Body(m.value, inner) + more);
    MemberParts(v, k, inner, tail);
    KeyIsRead(inner, m.key, value);
    MemberStart(inner, m.key, [COLON] + value);
    SpaceIsSkipped(inner, Body(m.value, inner) + more, depth);
  }

  /** The members from number k on are read, up to `rest`, if they all fit the depth. */
  ghost predicate MembersRead(s: Bytes, v: Value, k: nat, rest: Bytes, depth: nat)
    requires v.Obj? && k <= |v.members|
  {
    ParseMembers(s, depth, v.members[..k])
    == if forall i :: k <= i < |v.members| ==> Fits(v.members[i].value, depth) then Done(v.members, rest) else Fail
  }

  lemma {:induction false} MembersAreRead(v: Value, k: nat, inner: int, tail: Bytes, rest: Bytes, depth: nat)
    requires v.Obj? && k < |v.members| && Wf(v) && NumberFree(v) && inner >= -1 && inner != 0
    requires SkipWs(tail) == [CLOSE_OBJECT] + rest
    ensures var t := SkipWs(Members(v, k, inner) + tail);
            t != [] && t[0] != CLOSE_OBJECT && MembersRead(t, v, k, rest, depth)
    decreases v, |v.members| - k
  {
    var m, more := v.members[k], AfterMember(v, k, inner, tail);
    assert Wf(m.value) && NumberFree(m.value) && Sorted(v.members);
    hide Members, Body, ParseValue, ParseMembers, ParseKey, Fits, Wf, NumberFree, SkipWs, Sorted, MembersRead;
    var s := Members(v, k, inner) + tail;
    var value := MemberKey(v, k, inner, tail, depth);
    BodyIsRead(m.value, inner, more, depth);
    if k + 1 < |v.members| {
      var next := Members(v, k + 1, inner) + tail;
      MembersAreRead(v, k + 1, inner, tail, rest, depth);
      MembersSkip(next, v, k + 1, rest, depth);
      MemberStep(v, k, s, value, more, next, rest, depth);
    } else {
      MemberStep(v, k, s, value, more, [], rest, depth);
    }
    MembersSkip(s, v, k, rest, depth);
  }

  lemma MemberStep(v: Value, k: nat, s: Bytes, value: Bytes, more: Bytes, next: Bytes, rest: Bytes, depth: nat)
    requires v.Obj? && k < |v.members| && Sorted(v.members)
    requires ParseKey(s) == Done(v.members[k].key, value)
    requires ParseValue(value, depth) == if Fits(v.members[k].value, depth) then Done(v.members[k].value, more) else Fail
    requires k + 1 < |v.members| ==> more == [COMMA] + next && MembersRead(next, v, k + 1, rest, depth)
    requires k + 1 == |v.members| ==> SkipWs(more) == [CLOSE_OBJECT] + rest
    ensures MembersRead(s, v, k, rest, depth)
  {
    hide Fits, ParseValue, ParseKey, Insert, Less;
    var m := v.members[k];
    InsertLast(v.members[..k], m.key, m.value);
    assert v.members[..k] + [m] == v.members[..k + 1];
    if k + 1 < |v.members| {
      CommaStarts(COMMA, next);
    } else {
      assert ([CLOSE_OBJECT] + rest)[1..] == rest && v.members[..k + 1] == v.members;
    }
  }

  lemma MemberStart(inner: int, key: Bytes, rest: Bytes)
    ensures StartsWith(SkipWs(Gap(inner) + (Quoted(key) + rest)), QUOTE)
  {
    GapIsSkipped(inner, Quoted(key) + rest);
    QuotedIsRead(key, rest);
  }

  lemma SpaceIsSkipped(inner: int, s: Bytes, depth: nat)
    ensures ParseValue(Space(inner) + s, depth) == ParseValue(s, depth)
  {
    if inner != -1 {
      assert ([SPACE] + s)[1..] == s;
    } else {
      assert [] + s == s;
    }
  }

  lemma MembersSkip(s: Bytes, v: Value, k: nat, rest: Bytes, depth: nat)
    requires v.Obj? && k <= |v.members|
    ensures MembersRead(SkipWs(s), v, k, rest, depth) == MembersRead(s, v, k, rest, depth)
  {
    SkippingTwice(s);
    assert ParseKey(SkipWs(s)) == ParseKey(s);
  }

  /** Parsing what was serialized, compact or prettified, gives the value back, up to the final line
      break, exactly if the value fits the depth limit. */
  lemma RoundTrip(v: Value, prettify: bool)
    requires Wf(v) && NumberFree(v)
    ensures Parse(Serialize(v, prettify))
         == if Fits(v, DEFAULT_MAX_DEPTHS) then Done(v, if prettify then [NEWLINE] else []) else Fail
  {
    BodyIsRead(v, if prettify then 0 else -1, if prettify then [NEWLINE] else [], DEFAULT_MAX_DEPTHS);
  }

  /** Array nesting below the limit is enough. */
  lemma ShallowRoundTrip(v: Value, prettify: bool)
    requires Wf(v) && NumberFree(v) && NestsWithin(v, DEFAULT_MAX_DEPTHS - 1)
    ensures Parse(Serialize(v, prettify)) == Done(v, if prettify then [NEWLINE] else [])
  {
    ShallowFits(v, DEFAULT_MAX_DEPTHS - 1);
    RoundTrip(v, prettify);
  }

  /** Different values have different texts. */
  lemma SerializeIsInjective(v: Value, w: Value, prettify: bool)
    requires Wf(v) && NumberFree(v) && NestsWithin(v, DEFAULT_MAX_DEPTHS - 1)
    requires Wf(w) && NumberFree(w) && NestsWithin(w, DEFAULT_MAX_DEPTHS - 1)
    ensures Serialize(v, prettify) == Serialize(w, prettify) ==> v == w
  {
    ShallowRoundTrip(v, prettify);
    ShallowRoundTrip(w, prettify);
  }

  // ---- \u escapes (RFC 8259 section 7, RFC 3629) -----------------------------------

  function Hex4(u: nat): Bytes
    requires u < 0x1_0000
  {
    [HexDigit(u / 0x1000), HexDigit(u / 0x100 % 16), HexDigit(u / 0x10 % 16), HexDigit(u % 16)]
  }

  /** What stands behind the first \u: four digits, or a surrogate pair. */
  function UnicodeEscape(u: nat): Bytes
    requires u < 0x11_0000
  {
    if u < 0x1_0000 then Hex4(u)
    else Hex4(0xd800 + (u - 0x1_0000) / 0x400) + [BACKSLASH, 0x75] + Hex4(0xdc00 + (u - 0x1_0000) % 0x400)
  }

  lemma HexIsRead(u: nat, rest: Bytes)
    requires u < 0x1_0000
    ensures ParseQuadHex(Hex4(u) + rest) == Done(u, rest)
  {
    var s := Hex4(u) + rest;
    Nibbles(u);
    HexDigitsAreRead();
    FourHexDigits(s);
    assert s[4..] == rest;
  }

  lemma HexDigitsAreRead()
    ensures forall d :: 0 <= d < 16 ==> IsHex(HexDigit(d)) && HexValue(HexDigit(d)) == d
  {
  }

  lemma Nibbles(u: nat)
    requires u < 0x1_0000
    ensures u == u / 0x1000 * 0x1000 + u / 0x100 % 16 * 0x100 + u / 0x10 % 16 * 0x10 + u % 16
  {
    assert u / 0x10 / 0x10 == u / 0x100 && u / 0x100 / 0x10 == u / 0x1000;
  }

  /** Every code point, escaped as the standard says, is read as its UTF-8 bytes. */
  lemma CodepointIsRead(u: nat, rest: Bytes)
    requires u < 0x11_0000 && !(0xd800 <= u <= 0xdfff)
    ensures ParseCodepoint(UnicodeEscape(u) + rest) == Done(Utf8(u), rest)
  {
    if u < 0x1_0000 {
      HexIsRead(u, rest);
    } else {
      var hi, lo := 0xd800 + (u - 0x1_0000) / 0x400, 0xdc00 + (u - 0x1_0000) % 0x400;
      var tail := [BACKSLASH, 0x75] + (Hex4(lo) + rest);
      assert UnicodeEscape(u) + rest == Hex4(hi) + tail;
      HexIsRead(hi, tail);
      assert tail[2..] == Hex4(lo) + rest;
      HexIsRead(lo, rest);
    }
  }

  /** The code point a UTF-8 sequence stands for. */
  function DecodeUtf8(b: Bytes): int {
    if |b| == 1 && b[0] < 0x80 then b[0]
    else if |b| == 2 && 0xc0 <= b[0] < 0xe0 then Bits(b[0], 0xc0) * 0x40 + Bits(b[1], 0x80)
    else if |b| == 3 && 0xe0 <= b[0] < 0xf0 then Bits(b[0], 0xe0) * 0x1000 + Bits(b[1], 0x80) * 0x40 + Bits(b[2], 0x80)
    else if |b| == 4 && 0xf0 <= b[0] then
      Bits(b[0], 0xf0) * 0x4_0000 + Bits(b[1], 0x80) * 0x1000 + Bits(b[2], 0x80) * 0x40 + Bits(b[3], 0x80)
    else -1
  }

  function Bits(b: byte, mark: int): int {
    b as int - mark
  }

  /** The first code point that needs n bytes. */
  function FirstOf(n: nat): nat {
    if n <= 1 then 0 else if n == 2 then 0x80 else if n == 3 then 0x800 else 0x1_0000
  }

  /** Well-formed: continuation bytes behind the first, the shortest form, and no surrogate. */
  lemma Utf8IsDecoded(u: nat)
    requires u < 0x11_0000 && !(0xd800 <= u <= 0xdfff)
    ensures var b := Utf8(u);
            && DecodeUtf8(b) == u && (forall i :: 0 < i < |b| ==> 0x80 <= b[i] < 0xc0)
            && FirstOf(|b|) <= u && (|b| < 4 ==> u < FirstOf(|b| + 1))
            && !(|b| == 3 && b[0] == 0xed && b[1] >= 0xa0)
  {
    Split(u);
    Split(u / 0x40);
    Split(u / 0x1000);
    assert u / 0x40 / 0x40 == u / 0x1000 && u / 0x1000 / 0x40 == u / 0x4_0000;
  }

  lemma Split(u: nat)
    ensures u == u / 0x40 * 0x40 + u % 0x40
  {
  }

  // ---- whatever is parsed ----------------------------------------------------------

  ghost predicate AllWf(vs: seq<Value>, depth: nat) {
    forall i :: 0 <= i < |vs| ==> Wf(vs[i]) && Fits(vs[i], depth)
  }

  ghost predicate AllMembersWf(ms: seq<Member>, depth: nat) {
    Sorted(ms) && forall m :: m in ms ==> Wf(m.value) && Fits(m.value, depth)
  }

  /** Any text at all: a value that is accepted has its members in order and respects the depth. */
  lemma {:induction false} ParsedIsWf(s: Bytes, depth: nat)
    ensures var r := ParseValue(s, depth); r.Done? ==> Wf(r.value) && Fits(r.value, depth)
    decreases |s|, 1
  {
    var t := SkipWs(s);
    if t != [] && depth > 0 {
      if t[0] == OPEN_ARRAY {
        ParsedItemsAreWf(SkipWs(t[1..]), depth - 1, []);
      } else if t[0] == OPEN_OBJECT {
        ParsedMembersAreWf(SkipWs(t[1..]), depth, []);
      }
    }
  }

  lemma {:induction false} ParsedItemsAreWf(s: Bytes, depth: nat, acc: seq<Value>)
    requires AllWf(acc, depth)
    ensures var r := ParseItems(s, depth, acc); r.Done? ==> AllWf(r.value, depth)
    decreases |s|, 2
  {
    var item := ParseValue(s, depth);
    ParsedIsWf(s, depth);
    if item.Done? {
      var t := SkipWs(item.rest);
      if StartsWith(t, COMMA) { ParsedItemsAreWf(t[1..], depth, acc + [item.value]); }
    }
  }

  lemma {:induction false} ParsedMembersAreWf(s: Bytes, depth: nat, acc: seq<Member>)
    requires AllMembersWf(acc, depth)
    ensures var r := ParseMembers(s, depth, acc); r.Done? ==> AllMembersWf(r.value, depth)
    decreases |s|, 2
  {
    var key := ParseKey(s);
    if key.Done? {
      var item := ParseValue(key.rest, depth);
      ParsedIsWf(key.rest, depth);
      if item.Done? {
        InsertIsUpdate(acc, key.value, item.value);
        var t := SkipWs(item.rest);
        if StartsWith(t, COMMA) { ParsedMembersAreWf(t[1..], depth, Insert(acc, key.value, item.value)); }
      }
    }
  }

  /** Printing what was parsed and parsing it again changes nothing. */
  lemma ReparseIsStable(s: Bytes, prettify: bool)
    requires Parse(s).Done? && NumberFree(Parse(s).value)
    ensures Parse(Serialize(Parse(s).value, prettify)) == Done(Parse(s).value, if prettify then [NEWLINE] else [])
  {
    ParsedIsWf(s, DEFAULT_MAX_DEPTHS);
    RoundTrip(Parse(s).value, prettify);
  }
}
