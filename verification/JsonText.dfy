/** JSON trees as text: what the parser accepts and what the writer prints (utils/json.c).
    A character is one byte of a C string; a parse function returns the text it has not consumed. */
module JsonText {
  import opened Base

  const MAX_STRING := 2048
  const MAX_ARRAY := 256
  const MAX_DEPTH := 32
  const EXACT := 0x20_0000_0000_0000 as real

  datatype Json =
    | Obj(members: seq<Member>) | Arr(items: seq<Json>) | Str(text: string) | Num(number: real)
    | Bool(flag: bool) | Null

  datatype Member = Member(key: string, value: Json)

  // ---------------------------------------------------------------- parser

  predicate IsSpace(c: char) {
    c == ' ' || '\t' <= c <= '\r'
  }

  predicate IsDigit(c: char) {
    '0' <= c <= '9'
  }

  function DigitOf(c: char): real
    requires IsDigit(c)
  {
    (c as int - '0' as int) as real
  }

  function SkipSpace(s: string): (r: string)
    ensures |r| <= |s| && (|r| > 0 ==> !IsSpace(r[0]))
  {
    if |s| > 0 && IsSpace(s[0]) then SkipSpace(s[1..]) else s
  }

  /** json_parse_char. */
  function Expect(s: string, c: char): (r: Option<string>)
    ensures r.Some? ==> |r.value| < |s|
  {
    var t := SkipSpace(s);
    if |t| > 0 && t[0] == c then Some(t[1..]) else None
  }

  function Unescape(c: char): char {
    if c == 'n' then '\n' else if c == 't' then '\t' else if c == 'r' then '\r' else c
  }

  /** The character loop of json_parse_string_raw: stops at a quote, at the end or when the buffer is
      full; fails after a lone backslash at the end. */
  function Chars(s: string, out: string): (r: Option<(string, string)>)
    ensures r.Some? ==> |r.value.1| <= |s|
  {
    if |s| == 0 || s[0] == '"' || |out| + 1 >= MAX_STRING then Some((out, s))
    else if s[0] != '\\' then Chars(s[1..], out + [s[0]])
    else if |s| == 1 then None
    else Chars(s[2..], out + [Unescape(s[1])])
  }

  /** json_parse_string_raw. */
  function ParseString(s: string): (r: Option<(string, string)>)
    ensures r.Some? ==> |r.value.1| < |s|
  {
    var s1 := Expect(s, '"');
    if s1.None? then None else
    var chars := Chars(s1.value, []);
    if chars.None? then None else
    var s2 := Expect(chars.value.1, '"');
    if s2.None? then None else Some((chars.value.0, s2.value))
  }

  function Digits(s: string, num: real): (r: (real, string))
    ensures |r.1| <= |s|
  {
    if |s| > 0 && IsDigit(s[0]) then Digits(s[1..], num * 10.0 + DigitOf(s[0])) else (num, s)
  }

  function Fraction(s: string, frac: real, div: real): (r: (real, string))
    requires div > 0.0
    ensures |r.1| <= |s|
  {
    if |s| > 0 && IsDigit(s[0]) then Fraction(s[1..], frac * 10.0 + DigitOf(s[0]), div * 10.0) else (frac / div, s)
  }

  /** json_parse_number. */
  function ParseNumber(s: string): (r: Option<(real, string)>)
    ensures r.Some? ==> |r.value.1| < |s|
  {
    var negative := |s| > 0 && s[0] == '-';
    var s1 := if negative then s[1..] else s;
    if |s1| == 0 || !IsDigit(s1[0]) then None else
    var (whole, s2) := Digits(s1[1..], DigitOf(s1[0]));
    var (num, s3) :=
      if |s2| > 0 && s2[0] == '.' then
        var (frac, s4) := Fraction(s2[1..], 0.0, 1.0);
        (whole + frac, s4)
      else (whole, s2);
    Some((if negative then -num else num, s3))
  }

  /** json_parse_keyword. */
  function Keyword(s: string, word: string, v: Json): (r: Option<(Json, string)>)
    requires |word| > 0
    ensures r.Some? ==> |r.value.1| < |s|
  {
    if |s| >= |word| && s[..|word|] == word then Some((v, s[|word|..])) else None
  }

  /** json_parse_value, with depth containers open around it. */
  function ParseValue(s: string, depth: nat): (r: Option<(Json, string)>)
    ensures r.Some? ==> |r.value.1| < |s|
    decreases |s|, 1
  {
    var t := SkipSpace(s);
    if |t| == 0 then None
    else if t[0] == '{' then ParseObject(t[1..], depth)
    else if t[0] == '[' then ParseArray(t[1..], depth)
    else if t[0] == '"' then (
      var r := ParseString(t);
      if r.None? then None else Some((Str(r.value.0), r.value.1)))
    else if t[0] == '-' || IsDigit(t[0]) then (
      var r := ParseNumber(t);
      if r.None? then None else Some((Num(r.value.0), r.value.1)))
    else if t[0] == 't' then Keyword(t, "true", Bool(true))
    else if t[0] == 'f' then Keyword(t, "false", Bool(false))
    else if t[0] == 'n' then Keyword(t, "null", Null)
    else None
  }

  /** json_parse_object behind its opening brace. */
  function ParseObject(s: string, depth: nat): (r: Option<(Json, string)>)
    ensures r.Some? ==> |r.value.1| < |s|
    decreases |s|, 3
  {
    if depth + 1 > MAX_DEPTH then None else
    var close := Expect(s, '}');
    if close.Some? then Some((Obj([]), close.value)) else ParseMembers(s, depth + 1, [])
  }

  /** json_parse_array behind its opening bracket. */
  function ParseArray(s: string, depth: nat): (r: Option<(Json, string)>)
    ensures r.Some? ==> |r.value.1| < |s|
    decreases |s|, 3
  {
    if depth + 1 > MAX_DEPTH then None else
    var close := Expect(s, ']');
    if close.Some? then Some((Arr([]), close.value)) else ParseItems(s, depth + 1, [])
  }

  /** One key, colon and value. */
  function ParseMember(s: string, depth: nat): (r: Option<(Member, string)>)
    ensures r.Some? ==> |r.value.1| < |s|
    decreases |s|, 0
  {
    var key := ParseString(s);
    if key.None? then None else
    var s1 := Expect(key.value.1, ':');
    if s1.None? then None else
    var v := ParseValue(s1.value, depth);
    if v.None? then None else Some((Member(key.value.0, v.value.0), v.value.1))
  }

  /** The loop of json_parse_object, acc being the members so far. */
  function ParseMembers(s: string, depth: nat, acc: seq<Member>): (r: Option<(Json, string)>)
    ensures r.Some? ==> |r.value.1| < |s|
    decreases |s|, 1
  {
    var m := ParseMember(s, depth);
    if m.None? then None else
    var more := acc + [m.value.0];
    var close, comma := Expect(m.value.1, '}'), Expect(m.value.1, ',');
    if close.Some? then Some((Obj(more), close.value))
    else if comma.Some? then ParseMembers(comma.value, depth, more)
    else None
  }

  /** The loop of json_parse_array. */
  function ParseItems(s: string, depth: nat, acc: seq<Json>): (r: Option<(Json, string)>)
    ensures r.Some? ==> |r.value.1| < |s|
    decreases |s|, 2
  {
    var v := ParseValue(s, depth);
    if v.None? || |acc| >= MAX_ARRAY then None else
    var more := acc + [v.value.0];
    var close, comma := Expect(v.value.1, ']'), Expect(v.value.1, ',');
    if close.Some? then Some((Arr(more), close.value))
    else if comma.Some? then ParseItems(comma.value, depth, more)
    else None
  }

  /** json_parse: one value, and nothing but white space behind it. */
  function Parse(s: string): Option<Json> {
    var v := ParseValue(s, 0);
    if v.None? || |SkipSpace(v.value.1)| > 0 then None else Some(v.value.0)
  }

  // ---------------------------------------------------------------- writer

  function IndentTo(n: nat, tail: string): string {
    if n == 0 then tail else [' '] + IndentTo(n - 1, tail)
  }

  function Escape(c: char): (e: string)
    ensures 1 <= |e| <= 2
  {
    if c == '"' then ['\\', '"'] else if c == '\\' then ['\\', '\\'] else if c == '\n' then ['\\', 'n']
    else if c == '\t' then ['\\', 't'] else if c == '\r' then ['\\', 'r'] else [c]
  }

  function EscapeTo(text: string, tail: string): string {
    if |text| == 0 then tail else Escape(text[0]) + EscapeTo(text[1..], tail)
  }

  /** json_write_string, followed by tail. */
  function StringTo(text: string, tail: string): string {
    ['"'] + EscapeTo(text, ['"'] + tail)
  }

  /** The decimal digits of n, followed by tail. */
  function NatTo(n: nat, tail: string): string {
    var d := ['0' + (n % 10) as char];
    if n < 10 then d + tail else NatTo(n / 10, d + tail)
  }

  function IntTo(n: int, tail: string): string {
    if n < 0 then ['-'] + NatTo(-n, tail) else NatTo(n, tail)
  }

  predicate IsWhole(x: real) {
    x == x.Floor as real
  }

  /** json_write at an indentation, followed by tail. other prints numbers that are not whole. */
  function WriteTo(v: Json, indent: nat, other: real -> string, tail: string): string
    decreases v, 1, 0
  {
    match v
    case Str(text) => StringTo(text, tail)
    case Num(x) => if IsWhole(x) then IntTo(x.Floor, tail) else other(x) + tail
    case Bool(b) => (if b then "true" else "false") + tail
    case Null => "null" + tail
    case Obj(_) => ['{', '\n'] + MembersTo(v, 0, indent, other, tail)
    case Arr(items) => if |items| == 0 then ['[', ']'] + tail else ['[', '\n'] + ItemsTo(v, 0, indent, other, tail)
  }

  function Separator(last: bool): string {
    if last then ['\n'] else [',', '\n']
  }

  function MembersTo(v: Json, i: nat, indent: nat, other: real -> string, tail: string): string
    requires v.Obj? && i <= |v.members|
    decreases v, 0, |v.members| - i
  {
    if i == |v.members| then IndentTo(indent, ['}'] + tail) else
    IndentTo(indent + 2, StringTo(v.members[i].key, [':', ' '] +
      WriteTo(v.members[i].value, indent + 2, other,
        Separator(i + 1 == |v.members|) + MembersTo(v, i + 1, indent, other, tail))))
  }

  function ItemsTo(v: Json, i: nat, indent: nat, other: real -> string, tail: string): string
    requires v.Arr? && i <= |v.items|
    decreases v, 0, |v.items| - i
  {
    if i == |v.items| then IndentTo(indent, [']'] + tail) else
    IndentTo(indent + 2,
      WriteTo(v.items[i], indent + 2, other,
        Separator(i + 1 == |v.items|) + ItemsTo(v, i + 1, indent, other, tail)))
  }

  // ---------------------------------------------------------------- the trees the fields can hold

  function Max(a: nat, b: nat): nat {
    if a < b then b else a
  }

  /** Containers on the longest path from the root. */
  function Depth(v: Json): nat
    decreases v, 1, 0
  {
    match v
    case Obj(_) => 1 + DepthOfMembers(v, 0)
    case Arr(_) => 1 + DepthOfItems(v, 0)
    case _ => 0
  }

  function DepthOfMembers(v: Json, i: nat): nat
    requires v.Obj? && i <= |v.members|
    decreases v, 0, |v.members| - i
  {
    if i == |v.members| then 0 else Max(Depth(v.members[i].value), DepthOfMembers(v, i + 1))
  }

  function DepthOfItems(v: Json, i: nat): nat
    requires v.Arr? && i <= |v.items|
    decreases v, 0, |v.items| - i
  {
    if i == |v.items| then 0 else Max(Depth(v.items[i]), DepthOfItems(v, i + 1))
  }

  /** Strings and arrays within their fixed-size fields. */
  predicate Fits(v: Json)
    decreases v
  {
    match v
    case Obj(ms) => forall i :: 0 <= i < |ms| ==> |ms[i].key| < MAX_STRING && Fits(ms[i].value)
    case Arr(items) => |items| <= MAX_ARRAY && forall i :: 0 <= i < |items| ==> Fits(items[i])
    case Str(text) => |text| < MAX_STRING
    case _ => true
  }

  /** All numbers are integers that a double holds exactly. */
  predicate Whole(v: Json)
    decreases v
  {
    match v
    case Obj(ms) => forall i :: 0 <= i < |ms| ==> Whole(ms[i].value)
    case Arr(items) => forall i :: 0 <= i < |items| ==> Whole(items[i])
    case Num(x) => IsWhole(x) && -EXACT <= x <= EXACT
    case _ => true
  }
}
