/** Reading back what the writer prints, and what any accepted text can contain. */
module JsonRoundTrip {
  import opened Base
  import opened JsonText

  // ---------------------------------------------------------------- tokens

  lemma SkipIndent(n: nat, tail: string)
    ensures SkipSpace(IndentTo(n, tail)) == SkipSpace(tail)
  {
    if n > 0 {
      SkipIndent(n - 1, tail);
      assert ([' '] + IndentTo(n - 1, tail))[1..] == IndentTo(n - 1, tail);
    }
  }

  lemma SkipOne(c: char, tail: string)
    requires IsSpace(c)
    ensures SkipSpace([c] + tail) == SkipSpace(tail)
  {
    assert ([c] + tail)[1..] == tail;
  }

  /** Expect looks only at what follows the white space. */
  lemma ExpectAt(s: string, c: char, tail: string, want: char)
    requires SkipSpace(s) == [c] + tail
    ensures Expect(s, want) == if c == want then Some(tail) else None
  {
    assert ([c] + tail)[1..] == tail;
  }

  lemma SkipNone(c: char, tail: string)
    requires !IsSpace(c)
    ensures SkipSpace([c] + tail) == [c] + tail
  {
  }

  lemma {:induction false} CharsBack(text: string, tail: string, out: string)
    requires |out| + |text| < MAX_STRING
    ensures Chars(EscapeTo(text, ['"'] + tail), out) == Some((out + text, ['"'] + tail))
    decreases |text|
  {
    if |text| == 0 {
      assert out + text == out;
    } else {
      var rest := EscapeTo(text[1..], ['"'] + tail);
      CharsBack(text[1..], tail, out + [text[0]]);
      assert (out + [text[0]]) + text[1..] == out + text;
      var e := Escape(text[0]);
      assert (e + rest)[|e|..] == rest;
      assert |e| == 2 ==> (e + rest)[1] == e[1] && Unescape(e[1]) == text[0];
    }
  }

  /** Every string shorter than the buffer is read back as it was, escapes included. */
  lemma StringBack(s: string, text: string, tail: string)
    requires SkipSpace(s) == StringTo(text, tail) && |text| < MAX_STRING
    ensures ParseString(s) == Some((text, tail))
  {
    hide SkipSpace, Chars, EscapeTo, Expect;
    ExpectAt(s, '"', EscapeTo(text, ['"'] + tail), '"');
    CharsBack(text, tail, []);
    assert [] + text == text;
    assert SkipSpace(['"'] + tail) == ['"'] + tail by { SkipNone('"', tail); }
    ExpectAt(['"'] + tail, '"', tail, '"');
  }

  /** The decimal value of the digits of n read after x. */
  function Shifted(x: real, n: nat): real {
    (if n < 10 then x else Shifted(x, n / 10)) * 10.0 + (n % 10) as real
  }

  lemma {:induction false} ShiftedFromZero(n: nat)
    ensures Shifted(0.0, n) == n as real
  {
    if n >= 10 {
      ShiftedFromZero(n / 10);
      assert n as real == (n / 10) as real * 10.0 + (n % 10) as real;
    }
  }

  lemma {:induction false} DigitsBack(n: nat, tail: string, x: real)
    ensures Digits(NatTo(n, tail), x) == Digits(tail, Shifted(x, n))
  {
    var c := '0' + (n % 10) as char;
    assert DigitOf(c) == (n % 10) as real;
    assert ([c] + tail)[1..] == tail;
    if n >= 10 {
      DigitsBack(n / 10, [c] + tail, x);
    }
  }

  lemma {:induction false} StartsWithDigit(n: nat, tail: string)
    ensures |NatTo(n, tail)| > 0 && IsDigit(NatTo(n, tail)[0])
  {
    if n >= 10 {
      StartsWithDigit(n / 10, ['0' + (n % 10) as char] + tail);
    }
  }

  /** Nothing that would continue a number. */
  predicate Ends(tail: string) {
    |tail| == 0 || (!IsDigit(tail[0]) && tail[0] != '.')
  }

  lemma NumberBack(n: int, tail: string)
    requires Ends(tail)
    ensures ParseNumber(IntTo(n, tail)) == Some((n as real, tail))
    ensures var s := IntTo(n, tail); |s| > 0 && (s[0] == '-' || IsDigit(s[0]))
  {
    var m := if n < 0 then -n else n;
    var digits := NatTo(m, tail);
    StartsWithDigit(m, tail);
    DigitsBack(m, tail, 0.0);
    ShiftedFromZero(m);
    assert n < 0 ==> IntTo(n, tail)[1..] == digits;
    hide NatTo, Shifted;
    assert Digits(digits, 0.0) == Digits(digits[1..], DigitOf(digits[0]));
  }

  // ---------------------------------------------------------------- values

  /** What parsing a printed value must give: the value, unless it is nested too deeply. */
  function Expected(v: Json, depth: nat, tail: string): Option<(Json, string)> {
    if depth + Depth(v) <= MAX_DEPTH then Some((v, tail)) else None
  }

  lemma ScalarBack(v: Json, indent: nat, other: real -> string, tail: string, s: string, depth: nat)
    requires Fits(v) && Whole(v) && Ends(tail) && !v.Obj? && !v.Arr?
    requires SkipSpace(s) == SkipSpace(WriteTo(v, indent, other, tail))
    ensures ParseValue(s, depth) == Some((v, tail))
  {
    hide SkipSpace, ParseNumber, ParseString, StringTo, IntTo, EscapeTo;
    match v {
      case Str(text) =>
        assert StringTo(text, tail) == ['"'] + EscapeTo(text, ['"'] + tail) by { StringIs(text, tail); }
        SkipNone('"', EscapeTo(text, ['"'] + tail));
        var t := SkipSpace(s);
        SkipNone('"', EscapeTo(text, ['"'] + tail));
        assert t == StringTo(text, tail) && SkipSpace(t) == t;
        StringBack(t, text, tail);
      case Num(x) =>
        NumberBack(x.Floor, tail);
        var t := IntTo(x.Floor, tail);
        assert t == [t[0]] + t[1..];
        SkipNone(t[0], t[1..]);
      case Bool(b) =>
        WordBack(if b then "true" else "false", tail, v);
      case Null =>
        WordBack("null", tail, v);
      case _ =>
    }
  }

  lemma StringIs(text: string, tail: string)
    ensures StringTo(text, tail) == ['"'] + EscapeTo(text, ['"'] + tail)
  {
  }

  lemma WordBack(word: string, tail: string, v: Json)
    requires |word| > 0 && !IsSpace(word[0])
    ensures SkipSpace(word + tail) == word + tail && Keyword(word + tail, word, v) == Some((v, tail))
  {
  }

  lemma StringStarts(n: nat, text: string, tail: string)
    ensures SkipSpace(['\n'] + IndentTo(n, StringTo(text, tail))) == StringTo(text, tail)
  {
    hide SkipSpace, IndentTo, EscapeTo;
    SkipOne('\n', IndentTo(n, StringTo(text, tail)));
    SkipIndent(n, StringTo(text, tail));
    SkipNone('"', EscapeTo(text, ['"'] + tail));
  }

  lemma CloseStarts(n: nat, c: char, tail: string)
    requires !IsSpace(c)
    ensures SkipSpace(['\n'] + IndentTo(n, [c] + tail)) == [c] + tail
  {
    hide SkipSpace, IndentTo;
    SkipOne('\n', IndentTo(n, [c] + tail));
    SkipIndent(n, [c] + tail);
    SkipNone(c, tail);
  }

  /** Behind a value comes a comma, or the end of its container. */
  lemma SeparatorStarts(last: bool, n: nat, c: char, tail: string, rest: string)
    requires !IsSpace(c) && c != ',' && (last ==> rest == IndentTo(n, [c] + tail))
    ensures var s := Separator(last) + rest;
            && Ends(s) && Expect(s, c) == (if last then Some(tail) else None)
            && Expect(s, ',') == (if last then None else Some(['\n'] + rest))
  {
    hide SkipSpace, IndentTo, Expect;
    var s := Separator(last) + rest;
    if last {
      CloseStarts(n, c, tail);
      ExpectAt(s, c, tail, c);
      ExpectAt(s, c, tail, ',');
    } else {
      assert s == [','] + (['\n'] + rest);
      SkipNone(',', ['\n'] + rest);
      ExpectAt(s, ',', ['\n'] + rest, ',');
      ExpectAt(s, ',', ['\n'] + rest, c);
    }
  }

  /** Reading back a value, wherever in a document and however far indented it was printed. */
  lemma {:induction false} ValueBack(v: Json, indent: nat, other: real -> string, tail: string, s: string, depth: nat)
    requires Fits(v) && Whole(v) && Ends(tail) && SkipSpace(s) == SkipSpace(WriteTo(v, indent, other, tail))
    requires depth <= MAX_DEPTH
    ensures ParseValue(s, depth) == Expected(v, depth, tail)
    decreases v, 1, 0
  {
    hide SkipSpace, Expect, ParseMembers, ParseItems, IndentTo, MembersTo, ItemsTo, Fits, Whole, Separator;
    match v {
      case Obj(ms) =>
        var body := ['\n'] + MembersTo(v, 0, indent, other, tail);
        assert WriteTo(v, indent, other, tail) == ['{'] + body;
        SkipNone('{', body);
        assert (['{'] + body)[1..] == body;
        ObjectOpens(v, indent, other, tail);
        if depth + 1 <= MAX_DEPTH && |ms| > 0 {
          MembersBack(v, 0, indent, other, tail, depth + 1);
          assert ms[..0] == [];
        }
      case Arr(items) =>
        var body := if |items| == 0 then [']'] + tail else ['\n'] + ItemsTo(v, 0, indent, other, tail);
        assert WriteTo(v, indent, other, tail) == ['['] + body;
        SkipNone('[', body);
        assert (['['] + body)[1..] == body;
        if |items| == 0 {
          SkipNone(']', tail);
          ExpectAt(body, ']', tail, ']');
        } else if depth + 1 <= MAX_DEPTH {
          ItemsOpen(v, indent, other, tail);
          ItemsBack(v, 0, indent, other, tail, depth + 1);
          assert items[..0] == [];
        }
      case _ => ScalarBack(v, indent, other, tail, s, depth);
    }
  }

  lemma ObjectOpens(v: Json, indent: nat, other: real -> string, tail: string)
    requires v.Obj?
    ensures Expect(['\n'] + MembersTo(v, 0, indent, other, tail), '}') == if |v.members| == 0 then Some(tail) else None
  {
    hide SkipSpace, Expect, IndentTo, EscapeTo, WriteTo;
    var s := ['\n'] + MembersTo(v, 0, indent, other, tail);
    if |v.members| == 0 {
      CloseStarts(indent, '}', tail);
      ExpectAt(s, '}', tail, '}');
    } else {
      var rest := [':', ' '] + WriteTo(v.members[0].value, indent + 2, other,
        Separator(1 == |v.members|) + MembersTo(v, 1, indent, other, tail));
      StringStarts(indent + 2, v.members[0].key, rest);
      ExpectAt(s, '"', EscapeTo(v.members[0].key, ['"'] + rest), '}');
    }
  }

  lemma ValueStarts(v: Json, indent: nat, other: real -> string, tail: string)
    requires Whole(v)
    ensures var s := WriteTo(v, indent, other, tail); |s| > 0 && !IsSpace(s[0]) && s[0] != ']'
  {
    if v.Num? {
      var n := v.number.Floor;
      StartsWithDigit(if n < 0 then -n else n, tail);
    }
  }

  lemma ItemsOpen(v: Json, indent: nat, other: real -> string, tail: string)
    requires v.Arr? && |v.items| > 0 && Whole(v)
    ensures Expect(['\n'] + ItemsTo(v, 0, indent, other, tail), ']') == None
  {
    var rest := Separator(1 == |v.items|) + ItemsTo(v, 1, indent, other, tail);
    var w := WriteTo(v.items[0], indent + 2, other, rest);
    ValueStarts(v.items[0], indent + 2, other, rest);
    assert ItemsTo(v, 0, indent, other, tail) == IndentTo(indent + 2, w);
    hide SkipSpace, Expect, IndentTo, WriteTo, ItemsTo;
    SkipOne('\n', IndentTo(indent + 2, w));
    SkipIndent(indent + 2, w);
    assert w == [w[0]] + w[1..];
    SkipNone(w[0], w[1..]);
    ExpectAt(['\n'] + IndentTo(indent + 2, w), w[0], w[1..], ']');
  }

  lemma PartFits(v: Json, i: nat)
    requires Fits(v) && Whole(v)
    ensures v.Obj? && i < |v.members| ==>
              Fits(v.members[i].value) && Whole(v.members[i].value) && |v.members[i].key| < MAX_STRING
    ensures v.Arr? ==> |v.items| <= MAX_ARRAY && (i < |v.items| ==> Fits(v.items[i]) && Whole(v.items[i]))
  {
  }

  /** The text of what follows member or item i. */
  function AfterMember(v: Json, i: nat, indent: nat, other: real -> string, tail: string): string
    requires v.Obj? && i < |v.members|
  {
    Separator(i + 1 == |v.members|) + MembersTo(v, i + 1, indent, other, tail)
  }

  function AfterItem(v: Json, i: nat, indent: nat, other: real -> string, tail: string): string
    requires v.Arr? && i < |v.items|
  {
    Separator(i + 1 == |v.items|) + ItemsTo(v, i + 1, indent, other, tail)
  }

  lemma AfterMemberReads(v: Json, i: nat, indent: nat, other: real -> string, tail: string)
    requires v.Obj? && i < |v.members|
    ensures var s, last := AfterMember(v, i, indent, other, tail), i + 1 == |v.members|;
            && Ends(s) && Expect(s, '}') == (if last then Some(tail) else None)
            && Expect(s, ',') == (if last then None else Some(['\n'] + MembersTo(v, i + 1, indent, other, tail)))
  {
    SeparatorStarts(i + 1 == |v.members|, indent, '}', tail, MembersTo(v, i + 1, indent, other, tail)) by {
      hide WriteTo, StringTo;
    }
  }

  lemma AfterItemReads(v: Json, i: nat, indent: nat, other: real -> string, tail: string)
    requires v.Arr? && i < |v.items|
    ensures var s, last := AfterItem(v, i, indent, other, tail), i + 1 == |v.items|;
            && Ends(s) && Expect(s, ']') == (if last then Some(tail) else None)
            && Expect(s, ',') == (if last then None else Some(['\n'] + ItemsTo(v, i + 1, indent, other, tail)))
  {
    SeparatorStarts(i + 1 == |v.items|, indent, ']', tail, ItemsTo(v, i + 1, indent, other, tail)) by {
      hide WriteTo;
    }
  }

  lemma KeyBack(n: nat, key: string, w: string)
    requires |key| < MAX_STRING
    ensures ParseString(['\n'] + IndentTo(n, StringTo(key, [':', ' '] + w))) == Some((key, [':', ' '] + w))
    ensures Expect([':', ' '] + w, ':') == Some([' '] + w) && SkipSpace([' '] + w) == SkipSpace(w)
  {
    hide SkipSpace, Expect, ParseString, IndentTo, StringTo;
    StringStarts(n, key, [':', ' '] + w);
    StringBack(['\n'] + IndentTo(n, StringTo(key, [':', ' '] + w)), key, [':', ' '] + w);
    assert [':', ' '] + w == [':'] + ([' '] + w);
    SkipNone(':', [' '] + w);
    ExpectAt([':', ' '] + w, ':', [' '] + w, ':');
    SkipOne(' ', w);
  }

  lemma MemberIs(v: Json, i: nat, indent: nat, other: real -> string, tail: string)
    requires v.Obj? && i < |v.members|
    ensures var w := WriteTo(v.members[i].value, indent + 2, other, AfterMember(v, i, indent, other, tail));
            MembersTo(v, i, indent, other, tail) == IndentTo(indent + 2, StringTo(v.members[i].key, [':', ' '] + w))
  {
    hide WriteTo, StringTo, IndentTo;
  }

  lemma {:induction false} MemberBack(v: Json, i: nat, indent: nat, other: real -> string, tail: string, d: nat)
    requires v.Obj? && i < |v.members| && Fits(v) && Whole(v) && d <= MAX_DEPTH
    ensures ParseMember(['\n'] + MembersTo(v, i, indent, other, tail), d) ==
            if d + Depth(v.members[i].value) <= MAX_DEPTH
            then Some((v.members[i], AfterMember(v, i, indent, other, tail)))
            else None
    decreases v, 0, |v.members| - i, 0
  {
    PartFits(v, i);
    MemberIs(v, i, indent, other, tail);
    AfterMemberReads(v, i, indent, other, tail);
    hide SkipSpace, Expect, ParseValue, ParseString, IndentTo, MembersTo, WriteTo, Fits, Whole, StringTo, AfterMember,
      Depth;
    var m := v.members[i];
    var rest := AfterMember(v, i, indent, other, tail);
    var w := WriteTo(m.value, indent + 2, other, rest);
    KeyBack(indent + 2, m.key, w);
    ValueBack(m.value, indent + 2, other, rest, [' '] + w, d);
  }

  lemma {:induction false} MembersBack(v: Json, i: nat, indent: nat, other: real -> string, tail: string, d: nat)
    requires v.Obj? && i < |v.members| && Fits(v) && Whole(v) && d <= MAX_DEPTH
    ensures ParseMembers(['\n'] + MembersTo(v, i, indent, other, tail), d, v.members[..i]) ==
            if d + DepthOfMembers(v, i) <= MAX_DEPTH then Some((v, tail)) else None
    decreases v, 0, |v.members| - i, 1
  {
    hide Expect, ParseMember, MembersTo, AfterMember, Depth, Fits, Whole;
    MemberBack(v, i, indent, other, tail, d);
    AfterMemberReads(v, i, indent, other, tail);
    assert v.members[..i] + [v.members[i]] == v.members[..i + 1];
    if i + 1 < |v.members| {
      MembersBack(v, i + 1, indent, other, tail, d);
    } else {
      assert v.members[..i + 1] == v.members;
    }
  }

  lemma {:induction false} ItemBack(v: Json, i: nat, indent: nat, other: real -> string, tail: string, d: nat)
    requires v.Arr? && i < |v.items| && Fits(v) && Whole(v) && d <= MAX_DEPTH
    ensures ParseValue(['\n'] + ItemsTo(v, i, indent, other, tail), d) ==
            Expected(v.items[i], d, AfterItem(v, i, indent, other, tail))
    decreases v, 0, |v.items| - i, 0
  {
    var rest := AfterItem(v, i, indent, other, tail);
    var w := WriteTo(v.items[i], indent + 2, other, rest);
    assert ItemsTo(v, i, indent, other, tail) == IndentTo(indent + 2, w);
    PartFits(v, i);
    AfterItemReads(v, i, indent, other, tail);
    hide SkipSpace, Expect, ParseValue, IndentTo, ItemsTo, WriteTo, AfterItem, Depth, Fits, Whole, Expected;
    SkipOne('\n', IndentTo(indent + 2, w));
    SkipIndent(indent + 2, w);
    ValueBack(v.items[i], indent + 2, other, rest, ['\n'] + IndentTo(indent + 2, w), d);
  }

  lemma {:induction false} ItemsBack(v: Json, i: nat, indent: nat, other: real -> string, tail: string, d: nat)
    requires v.Arr? && i < |v.items| && Fits(v) && Whole(v) && d <= MAX_DEPTH
    ensures ParseItems(['\n'] + ItemsTo(v, i, indent, other, tail), d, v.items[..i]) ==
            if d + DepthOfItems(v, i) <= MAX_DEPTH then Some((v, tail)) else None
    decreases v, 0, |v.items| - i, 1
  {
    PartFits(v, i);
    hide Expect, ParseValue, ItemsTo, AfterItem, Depth, Fits, Whole;
    ItemBack(v, i, indent, other, tail, d);
    AfterItemReads(v, i, indent, other, tail);
    assert v.items[..i] + [v.items[i]] == v.items[..i + 1];
    if i + 1 < |v.items| {
      ItemsBack(v, i + 1, indent, other, tail, d);
    } else {
      assert v.items[..i + 1] == v.items;
    }
  }

  /** The round trip: for every tree whose strings and arrays fit and whose numbers are exact integers,
      at every indentation, parsing the printed text gives the tree back if and only if its containers
      are nested at most 32 deep. */
  lemma RoundTrip(v: Json, indent: nat, other: real -> string)
    requires Fits(v) && Whole(v)
    ensures Parse(WriteTo(v, indent, other, [])) == if Depth(v) <= MAX_DEPTH then Some(v) else None
  {
    ValueBack(v, indent, other, [], WriteTo(v, indent, other, []), 0);
  }

  // ---------------------------------------------------------------- what the parser can build

  /** No text, however malformed, makes the parser overfill a string, an array or the nesting limit. */
  lemma {:induction false} ParsedValueFits(s: string, depth: nat)
    requires depth <= MAX_DEPTH
    ensures var r := ParseValue(s, depth); r.Some? ==> Fits(r.value.0) && depth + Depth(r.value.0) <= MAX_DEPTH
    decreases |s|, 1
  {
    hide Expect, ParseString, ParseMembers, ParseItems, ParseNumber;
    var t := SkipSpace(s);
    if |t| > 0 && t[0] == '{' && depth + 1 <= MAX_DEPTH {
      ParsedMembersFit(t[1..], depth + 1, []);
    } else if |t| > 0 && t[0] == '[' && depth + 1 <= MAX_DEPTH {
      ParsedItemsFit(t[1..], depth + 1, []);
    } else {
      ParsedStringFits(t);
    }
  }

  lemma {:induction false} CharsFit(s: string, out: string)
    requires |out| < MAX_STRING
    ensures Chars(s, out).Some? ==> |Chars(s, out).value.0| < MAX_STRING
    decreases |s|
  {
    if |s| > 1 && s[0] == '\\' && |out| + 1 < MAX_STRING {
      CharsFit(s[2..], out + [Unescape(s[1])]);
    } else if |s| > 0 && s[0] != '"' && s[0] != '\\' && |out| + 1 < MAX_STRING {
      CharsFit(s[1..], out + [s[0]]);
    }
  }

  lemma ParsedStringFits(s: string)
    ensures ParseString(s).Some? ==> |ParseString(s).value.0| < MAX_STRING
  {
    hide Chars, Expect;
    var s1 := Expect(s, '"');
    if s1.Some? {
      CharsFit(s1.value, []);
    }
  }

  /** The members so far fit and leave room for the containers around them. */
  ghost predicate MembersFit(acc: seq<Member>, depth: nat) {
    forall i :: 0 <= i < |acc| ==>
      |acc[i].key| < MAX_STRING && Fits(acc[i].value) && depth + Depth(acc[i].value) <= MAX_DEPTH
  }

  ghost predicate ItemsFit(acc: seq<Json>, depth: nat) {
    |acc| <= MAX_ARRAY && forall i :: 0 <= i < |acc| ==> Fits(acc[i]) && depth + Depth(acc[i]) <= MAX_DEPTH
  }

  lemma {:induction false} MembersDepth(v: Json, i: nat, depth: nat)
    requires v.Obj? && i <= |v.members| && depth <= MAX_DEPTH && MembersFit(v.members, depth)
    ensures depth + DepthOfMembers(v, i) <= MAX_DEPTH
    decreases |v.members| - i
  {
    hide Fits, Depth;
    if i < |v.members| {
      MembersDepth(v, i + 1, depth);
    }
  }

  lemma {:induction false} ItemsDepth(v: Json, i: nat, depth: nat)
    requires v.Arr? && i <= |v.items| && depth <= MAX_DEPTH && ItemsFit(v.items, depth)
    ensures depth + DepthOfItems(v, i) <= MAX_DEPTH
    decreases |v.items| - i
  {
    hide Fits, Depth;
    if i < |v.items| {
      ItemsDepth(v, i + 1, depth);
    }
  }

  lemma ObjectFits(ms: seq<Member>, depth: nat)
    requires 1 <= depth <= MAX_DEPTH && MembersFit(ms, depth)
    ensures Fits(Obj(ms)) && depth - 1 + Depth(Obj(ms)) <= MAX_DEPTH
  {
    MembersDepth(Obj(ms), 0, depth);
  }

  lemma ArrayFits(items: seq<Json>, depth: nat)
    requires 1 <= depth <= MAX_DEPTH && ItemsFit(items, depth)
    ensures Fits(Arr(items)) && depth - 1 + Depth(Arr(items)) <= MAX_DEPTH
  {
    ItemsDepth(Arr(items), 0, depth);
  }

  lemma {:induction false} ParsedMembersFit(s: string, depth: nat, acc: seq<Member>)
    requires 1 <= depth <= MAX_DEPTH && MembersFit(acc, depth)
    ensures var r := ParseMembers(s, depth, acc);
            r.Some? ==> Fits(r.value.0) && depth - 1 + Depth(r.value.0) <= MAX_DEPTH
    decreases |s|, 0, 1
  {
    hide Expect, Fits, Depth, ParseMember;
    ParsedMemberFits(s, depth);
    var m := ParseMember(s, depth);
    if m.Some? {
      var more := acc + [m.value.0];
      assert MembersFit(more, depth);
      hide MembersFit;
      ObjectFits(more, depth);
      var comma := Expect(m.value.1, ',');
      if comma.Some? {
        ParsedMembersFit(comma.value, depth, more);
      }
    }
  }

  lemma {:induction false} ParsedMemberFits(s: string, depth: nat)
    requires 1 <= depth <= MAX_DEPTH
    ensures var r := ParseMember(s, depth); r.Some? ==> MembersFit([r.value.0], depth)
    decreases |s|, 0, 0
  {
    hide Expect, Fits, Depth, ParseValue, ParseString;
    ParsedStringFits(s);
    var key := ParseString(s);
    if key.Some? {
      var s1 := Expect(key.value.1, ':');
      if s1.Some? {
        ParsedValueFits(s1.value, depth);
      }
    }
  }

  lemma {:induction false} ParsedItemsFit(s: string, depth: nat, acc: seq<Json>)
    requires 1 <= depth <= MAX_DEPTH && ItemsFit(acc, depth)
    ensures var r := ParseItems(s, depth, acc);
            r.Some? ==> Fits(r.value.0) && depth - 1 + Depth(r.value.0) <= MAX_DEPTH
    decreases |s|, 2
  {
    hide Expect, Fits, Depth, ParseValue;
    ParsedValueFits(s, depth);
    var v := ParseValue(s, depth);
    if v.Some? && |acc| < MAX_ARRAY {
      var more := acc + [v.value.0];
      assert ItemsFit(more, depth);
      hide ItemsFit;
      ArrayFits(more, depth);
      var comma := Expect(v.value.1, ',');
      if comma.Some? {
        ParsedItemsFit(comma.value, depth, more);
      }
    }
  }

  /** Whatever is accepted fits its fields; if it holds only exact integers, printing it at any
      indentation and parsing again changes nothing. */
  lemma ParsePrintParse(s: string, indent: nat, other: real -> string)
    ensures var v := Parse(s);
            v.Some? ==> Fits(v.value) && Depth(v.value) <= MAX_DEPTH
                        && (Whole(v.value) ==> Parse(WriteTo(v.value, indent, other, [])) == v)
  {
    hide ParseValue, Fits, Depth, Whole, SkipSpace, WriteTo;
    ParsedValueFits(s, 0);
    var v := Parse(s);
    if v.Some? && Whole(v.value) {
      assert Fits(v.value);
      RoundTrip(v.value, indent, other);
    }
  }
}
