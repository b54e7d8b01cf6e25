/** The recursive-descent parser of utils/json.c, moving through its input. */
module JsonParser {
  import opened Base
  import opened JsonText

  lemma {:induction false} SkipAgain(s: string)
    ensures SkipSpace(SkipSpace(s)) == SkipSpace(s)
  {
    if |s| > 0 && IsSpace(s[0]) {
      SkipAgain(s[1..]);
    }
  }

  /** White space in front of a token makes no difference. */
  lemma Skipped(s: string, c: char, depth: nat)
    ensures Expect(SkipSpace(s), c) == Expect(s, c)
    ensures ParseString(SkipSpace(s)) == ParseString(s)
    ensures ParseValue(SkipSpace(s), depth) == ParseValue(s, depth)
  {
    SkipAgain(s);
  }

  lemma SkippedMembers(s: string, depth: nat, acc: seq<Member>)
    ensures ParseMembers(SkipSpace(s), depth, acc) == ParseMembers(s, depth, acc)
  {
    hide ParseString, Expect, ParseValue;
    Skipped(s, ' ', depth);
  }

  lemma SkippedItems(s: string, depth: nat, acc: seq<Json>)
    ensures ParseItems(SkipSpace(s), depth, acc) == ParseItems(s, depth, acc)
  {
    hide ParseString, Expect, ParseValue;
    Skipped(s, ' ', depth);
  }

  class Parser {
    const text: string
    var pos: nat
    var depth: nat

    ghost predicate Valid()
      reads this
    {
      pos <= |text|
    }

    /** What is still to be read. */
    ghost function Rest(): string
      requires Valid()
      reads this
    {
      text[pos..]
    }

    constructor (input: string)
      ensures Valid() && text == input && Rest() == input && depth == 0
    {
      text, pos, depth := input, 0, 0;
    }

    /** `p->pos++`. */
    method Step() returns (c: char)
      requires Valid() && pos < |text|
      modifies `pos
      ensures Valid() && old(Rest()) == [c] + Rest() && c == old(text[pos]) && pos == old(pos) + 1
    {
      c := text[pos];
      pos := pos + 1;
    }

    /** json_parse_whitespace. */
    method ParseWhitespace()
      requires Valid()
      modifies `pos
      ensures Valid() && Rest() == SkipSpace(old(Rest())) && old(pos) <= pos
    {
      while pos < |text| && IsSpace(text[pos])
        invariant Valid() && SkipSpace(Rest()) == SkipSpace(old(Rest())) && old(pos) <= pos
      {
        pos := pos + 1;
      }
    }

    /** json_parse_char. */
    method ParseChar(c: char) returns (ok: bool)
      requires Valid()
      modifies `pos
      ensures Valid() && old(pos) <= pos && (ok ==> old(pos) < pos)
      ensures var r := Expect(old(Rest()), c); ok == r.Some? && Rest() == if ok then r.value else SkipSpace(old(Rest()))
    {
      hide SkipSpace;
      ParseWhitespace();
      ok := pos < |text| && text[pos] == c;
      if ok {
        pos := pos + 1;
      }
    }

    /** The character loop of json_parse_string_raw. */
    method ParseChars() returns (r: Option<string>)
      requires Valid()
      modifies `pos
      ensures Valid() && old(pos) <= pos
      ensures var e := Chars(old(Rest()), []); if e.None? then r.None? else r == Some(e.value.0) && Rest() == e.value.1
    {
      var out := "";
      while pos < |text| && text[pos] != '"' && |out| + 1 < MAX_STRING
        invariant Valid() && old(pos) <= pos && Chars(Rest(), out) == Chars(old(Rest()), [])
        decreases |text| - pos
      {
        var c := Step();
        if c == '\\' {
          if pos >= |text| {
            return None;
          }
          c := Step();
          c := Unescape(c);
        }
        out := out + [c];
      }
      r := Some(out);
    }

    /** json_parse_string_raw. */
    method ParseStringRaw() returns (r: Option<string>)
      requires Valid()
      modifies `pos
      ensures Valid() && old(pos) <= pos && (r.Some? ==> old(pos) < pos)
      ensures var e := ParseString(old(Rest()));
              if e.None? then r.None? else r == Some(e.value.0) && Rest() == e.value.1
    {
      hide Expect, Chars, SkipSpace;
      r := None;
      var ok := ParseChar('"');
      if ok {
        r := ParseChars();
        if r.Some? {
          ok := ParseChar('"');
          if !ok {
            r := None;
          }
        }
      }
    }

    method ParseDigits(start: real) returns (num: real)
      requires Valid()
      modifies `pos
      ensures Valid() && (num, Rest()) == Digits(old(Rest()), start) && old(pos) <= pos
    {
      num := start;
      while pos < |text| && IsDigit(text[pos])
        invariant Valid() && Digits(Rest(), num) == Digits(old(Rest()), start) && old(pos) <= pos
      {
        num := num * 10.0 + DigitOf(text[pos]);
        pos := pos + 1;
      }
    }

    method ParseFraction() returns (part: real)
      requires Valid()
      modifies `pos
      ensures Valid() && (part, Rest()) == Fraction(old(Rest()), 0.0, 1.0) && old(pos) <= pos
    {
      var frac, div := 0.0, 1.0;
      while pos < |text| && IsDigit(text[pos])
        invariant Valid() && div > 0.0 && old(pos) <= pos
        invariant Fraction(Rest(), frac, div) == Fraction(old(Rest()), 0.0, 1.0)
      {
        frac := frac * 10.0 + DigitOf(text[pos]);
        div := div * 10.0;
        pos := pos + 1;
      }
      part := frac / div;
    }

    /** json_parse_number. */
    method ParseNumber() returns (r: Option<real>)
      requires Valid()
      modifies `pos
      ensures Valid() && old(pos) <= pos && (r.Some? ==> old(pos) < pos)
      ensures var e := JsonText.ParseNumber(old(Rest()));
              if e.None? then r.None? else r == Some(e.value.0) && Rest() == e.value.1
    {
      hide Digits, Fraction;
      var start, negative := pos, false;
      if pos < |text| && text[pos] == '-' {
        negative := true;
        pos := pos + 1;
      }
      if pos >= |text| || !IsDigit(text[pos]) {
        pos := start;
        return None;
      }
      ghost var s1 := Rest();
      var first := DigitOf(text[pos]);
      pos := pos + 1;
      assert Rest() == s1[1..];
      var num := ParseDigits(first);
      if pos < |text| && text[pos] == '.' {
        pos := pos + 1;
        var part := ParseFraction();
        num := num + part;
      }
      r := Some(if negative then -num else num);
    }

    /** json_parse_keyword. */
    method ParseKeyword(word: string, v: Json) returns (r: Option<Json>)
      requires Valid() && |word| > 0
      modifies `pos
      ensures Valid() && old(pos) <= pos && (r.Some? ==> old(pos) < pos)
      ensures var e := Keyword(old(Rest()), word, v);
              if e.None? then r.None? else r == Some(e.value.0) && Rest() == e.value.1
    {
      if |text| - pos < |word| || text[pos..pos + |word|] != word {
        return None;
      }
      assert old(Rest())[..|word|] == word;
      pos := pos + |word|;
      r := Some(v);
    }

    /** json_parse_value. */
    method ParseValue() returns (r: Option<Json>)
      requires Valid()
      modifies `pos, `depth
      ensures Valid() && old(pos) <= pos && (r.Some? ==> old(pos) < pos && depth == old(depth))
      ensures var e := JsonText.ParseValue(old(Rest()), old(depth));
              if e.None? then r.None? else r == Some(e.value.0) && Rest() == e.value.1
      decreases |text| - pos, 1
    {
      hide SkipSpace, ParseString, JsonText.ParseNumber, Keyword, JsonText.ParseObject, JsonText.ParseArray;
      ParseWhitespace();
      if pos >= |text| {
        return None;
      }
      var c := text[pos];
      if c == '{' {
        r := ParseObject();
      } else if c == '[' {
        r := ParseArray();
      } else if c == '"' {
        var s := ParseStringRaw();
        r := if s.None? then None else Some(Str(s.value));
      } else if c == '-' || IsDigit(c) {
        var x := ParseNumber();
        r := if x.None? then None else Some(Num(x.value));
      } else if c == 't' {
        r := ParseKeyword("true", Bool(true));
      } else if c == 'f' {
        r := ParseKeyword("false", Bool(false));
      } else if c == 'n' {
        r := ParseKeyword("null", Null);
      } else {
        r := None;
      }
    }

    /** json_parse_object. */
    method ParseObject() returns (r: Option<Json>)
      requires Valid() && pos < |text| && text[pos] == '{'
      modifies `pos, `depth
      ensures Valid() && old(pos) <= pos && (r.Some? ==> old(pos) < pos && depth == old(depth))
      ensures var e := JsonText.ParseObject(old(Rest())[1..], old(depth));
              if e.None? then r.None? else r == Some(e.value.0) && Rest() == e.value.1
      decreases |text| - pos, 0
    {
      hide SkipSpace, Expect, ParseMembers;
      var _ := Step();
      depth := depth + 1;
      if depth > MAX_DEPTH {
        return None;
      }
      ghost var s := Rest();
      var ok := ParseChar('}');
      if ok {
        r := Some(Obj([]));
      } else {
        SkippedMembers(s, depth, []);
        r := ParseMemberLoop();
        if r.None? {
          return;
        }
      }
      depth := depth - 1;
    }

    /** One key, colon and value. */
    method ParseMember() returns (r: Option<Member>)
      requires Valid()
      modifies `pos, `depth
      ensures Valid() && old(pos) <= pos && (r.Some? ==> old(pos) < pos && depth == old(depth))
      ensures var e := JsonText.ParseMember(old(Rest()), old(depth));
              if e.None? then r.None? else r == Some(e.value.0) && Rest() == e.value.1
      decreases |text| - pos, 2
    {
      hide SkipSpace, Expect, ParseString, JsonText.ParseValue;
      r := None;
      var key := ParseStringRaw();
      if key.Some? {
        var ok := ParseChar(':');
        if ok {
          var v := ParseValue();
          if v.Some? {
            r := Some(Member(key.value, v.value));
          }
        }
      }
    }

    method ParseMemberLoop() returns (r: Option<Json>)
      requires Valid()
      modifies `pos, `depth
      ensures Valid() && old(pos) <= pos && (r.Some? ==> old(pos) < pos && depth == old(depth))
      ensures var e := ParseMembers(old(Rest()), old(depth), []);
              if e.None? then r.None? else r == Some(e.value.0) && Rest() == e.value.1
      decreases |text| - pos, 3
    {
      hide SkipSpace, Expect, JsonText.ParseMember;
      var members: seq<Member> := [];
      while true
        invariant Valid() && old(pos) <= pos && depth == old(depth)
        invariant ParseMembers(Rest(), depth, members) == ParseMembers(old(Rest()), old(depth), [])
        decreases |text| - pos
      {
        var m := ParseMember();
        if m.None? {
          return None;
        }
        members := members + [m.value];
        ghost var s := Rest();
        var ok := ParseChar('}');
        if ok {
          return Some(Obj(members));
        }
        Skipped(s, ',', depth);
        ok := ParseChar(',');
        if !ok {
          return None;
        }
      }
    }

    /** json_parse_array. */
    method ParseArray() returns (r: Option<Json>)
      requires Valid() && pos < |text| && text[pos] == '['
      modifies `pos, `depth
      ensures Valid() && old(pos) <= pos && (r.Some? ==> old(pos) < pos && depth == old(depth))
      ensures var e := JsonText.ParseArray(old(Rest())[1..], old(depth));
              if e.None? then r.None? else r == Some(e.value.0) && Rest() == e.value.1
      decreases |text| - pos, 0
    {
      hide SkipSpace, Expect, ParseItems;
      var _ := Step();
      depth := depth + 1;
      if depth > MAX_DEPTH {
        return None;
      }
      ghost var s := Rest();
      var ok := ParseChar(']');
      if ok {
        r := Some(Arr([]));
      } else {
        SkippedItems(s, depth, []);
        r := ParseItemLoop();
        if r.None? {
          return;
        }
      }
      depth := depth - 1;
    }

    method ParseItemLoop() returns (r: Option<Json>)
      requires Valid()
      modifies `pos, `depth
      ensures Valid() && old(pos) <= pos && (r.Some? ==> old(pos) < pos && depth == old(depth))
      ensures var e := ParseItems(old(Rest()), old(depth), []);
              if e.None? then r.None? else r == Some(e.value.0) && Rest() == e.value.1
      decreases |text| - pos, 3
    {
      hide SkipSpace, Expect, JsonText.ParseValue;
      var items: seq<Json> := [];
      while true
        invariant Valid() && old(pos) <= pos && depth == old(depth)
        invariant ParseItems(Rest(), depth, items) == ParseItems(old(Rest()), old(depth), [])
        decreases |text| - pos
      {
        var v := ParseValue();
        if v.None? || |items| >= MAX_ARRAY {
          return None;
        }
        items := items + [v.value];
        ghost var s := Rest();
        var ok := ParseChar(']');
        if ok {
          return Some(Arr(items));
        }
        Skipped(s, ',', depth);
        ok := ParseChar(',');
        if !ok {
          return None;
        }
      }
    }
  }

  /** json_parse. */
  method ParseText(input: string) returns (r: Option<Json>)
    ensures r == Parse(input)
  {
    hide SkipSpace, ParseValue;
    var p := new Parser(input);
    r := p.ParseValue();
    if r.Some? {
      p.ParseWhitespace();
      if p.pos != |p.text| {
        r := None;
      }
    }
  }
}
