/** Which texts the parser reads, and as what (utils/json.c), against the grammar of RFC 8259: any white space,
    any number without an exponent, any string whose escapes are of one letter. */
module JsonGrammar {
  import opened Base
  import opened JsonText
  import opened JsonRoundTrip

  /** A character of a string, as it stands or behind a backslash. */
  datatype Written = Plain(c: char) | Escaped(c: char)

  /** A text by its derivation: before and after are the white space around a value, inside is that of an
      empty container, mid stands before a colon. */
  datatype Doc =
    | True | False | Nil | Text(chars: seq<Written>) | Number(minus: bool, whole: string, fraction: Option<string>)
    | List(inside: string, items: seq<Item>) | Record(inside: string, members: seq<Pair>)

  datatype Item = Item(before: string, value: Doc, after: string)

  datatype Pair = Pair(before: string, key: seq<Written>, mid: string, item: Item)

  // ---------------------------------------------------------------- the standard

  /** ws of section 2. */
  predicate White(s: string) {
    forall i :: 0 <= i < |s| ==> s[i] == ' ' || s[i] == '\t' || s[i] == '\n' || s[i] == '\r'
  }

  predicate Numeral(s: string) {
    |s| > 0 && forall i :: 0 <= i < |s| ==> '0' <= s[i] <= '9'
  }

  /** char of section 7, without \b, \f and \u. */
  predicate StandardChar(w: Written) {
    match w
    case Plain(c) => c != '"' && c != '\\'
    case Escaped(c) => c == '"' || c == '\\' || c == '/' || c == 'n' || c == 'r' || c == 't'
  }

  predicate StandardString(s: seq<Written>) {
    forall i :: 0 <= i < |s| ==> StandardChar(s[i])
  }

  predicate Standard(d: Doc)
    decreases d
  {
    match d
    case Text(chars) => StandardString(chars)
    case Number(_, whole, fraction) => Numeral(whole) && (fraction.Some? ==> Numeral(fraction.value))
    case List(inside, items) =>
      White(inside) && forall i :: 0 <= i < |items| ==>
        White(items[i].before) && White(items[i].after) && Standard(items[i].value)
    case Record(inside, members) =>
      White(inside) && forall i :: 0 <= i < |members| ==>
        && White(members[i].before) && White(members[i].mid) && StandardString(members[i].key)
        && White(members[i].item.before) && White(members[i].item.after) && Standard(members[i].item.value)
    case _ => true
  }

  function SpellChar(w: Written): string {
    match w
    case Plain(c) => [c]
    case Escaped(c) => ['\\', c]
  }

  function SpellString(s: seq<Written>, tail: string): string {
    if |s| == 0 then ['"'] + tail else SpellChar(s[0]) + SpellString(s[1..], tail)
  }

  /** The text, followed by tail. */
  function Spell(d: Doc, tail: string): string
    decreases d, 1, 0
  {
    match d
    case True => "true" + tail
    case False => "false" + tail
    case Nil => "null" + tail
    case Text(chars) => ['"'] + SpellString(chars, tail)
    case Number(minus, whole, fraction) =>
      (if minus then ['-'] else []) + (whole + ((if fraction.Some? then ['.'] + fraction.value else []) + tail))
    case List(inside, items) => ['['] + if |items| == 0 then inside + ([']'] + tail) else SpellItems(d, 0, tail)
    case Record(inside, members) => ['{'] + if |members| == 0 then inside + (['}'] + tail) else SpellPairs(d, 0, tail)
  }

  function SpellItems(d: Doc, i: nat, tail: string): string
    requires d.List? && i < |d.items|
    decreases d, 0, |d.items| - i
  {
    var more := if i + 1 == |d.items| then [']'] + tail else [','] + SpellItems(d, i + 1, tail);
    d.items[i].before + Spell(d.items[i].value, d.items[i].after + more)
  }

  function SpellPairs(d: Doc, i: nat, tail: string): string
    requires d.Record? && i < |d.members|
    decreases d, 0, |d.members| - i
  {
    var m := d.members[i];
    var more := if i + 1 == |d.members| then ['}'] + tail else [','] + SpellPairs(d, i + 1, tail);
    m.before + (['"'] + SpellString(m.key,
                                    m.mid + ([':'] + (m.item.before + Spell(m.item.value, m.item.after + more)))))
  }

  // ---------------------------------------------------------------- what it stands for

  function MeantChar(w: Written): char {
    match w
    case Plain(c) => c
    case Escaped(c) => if c == 'n' then '\n' else if c == 't' then '\t' else if c == 'r' then '\r' else c
  }

  function MeantString(s: seq<Written>): string {
    seq(|s|, i requires 0 <= i < |s| => MeantChar(s[i]))
  }

  function Decimal(s: string): int
    requires forall i :: 0 <= i < |s| ==> '0' <= s[i] <= '9'
  {
    if |s| == 0 then 0 else 10 * Decimal(s[..|s| - 1]) + (s[|s| - 1] as int - '0' as int)
  }

  function Ten(n: nat): int {
    if n == 0 then 1 else 10 * Ten(n - 1)
  }

  lemma TenIsPositive(n: nat)
    ensures Ten(n) > 0
  {
  }

  function MeantNumber(whole: string, fraction: Option<string>): real
    requires Numeral(whole) && (fraction.Some? ==> Numeral(fraction.value))
  {
    if fraction.None? then Decimal(whole) as real else
    TenIsPositive(|fraction.value|);
    Decimal(whole) as real + Decimal(fraction.value) as real / Ten(|fraction.value|) as real
  }

  function Meaning(d: Doc): Json
    requires Standard(d)
    decreases d
  {
    match d
    case True => Bool(true)
    case False => Bool(false)
    case Nil => Null
    case Text(chars) => Str(MeantString(chars))
    case Number(minus, whole, fraction) =>
      var n := MeantNumber(whole, fraction);
      Num(if minus then -n else n)
    case List(_, items) => Arr(seq(|items|, i requires 0 <= i < |items| => Meaning(items[i].value)))
    case Record(_, members) =>
      Obj(seq(|members|, i requires 0 <= i < |members| =>
        Member(MeantString(members[i].key), Meaning(members[i].item.value))))
  }

  // ---------------------------------------------------------------- tokens

  lemma {:induction false} SkipWhite(s: string, tail: string)
    requires White(s)
    ensures SkipSpace(s + tail) == SkipSpace(tail)
  {
    if |s| > 0 {
      assert (s + tail)[1..] == s[1..] + tail && (s + tail)[0] == s[0];
      SkipWhite(s[1..], tail);
    } else {
      assert s + tail == tail;
    }
  }

  /** White space, then c. */
  lemma TokenRead(s: string, c: char, tail: string, want: char)
    requires White(s) && !IsSpace(c)
    ensures SkipSpace(s + ([c] + tail)) == [c] + tail
    ensures Expect(s + ([c] + tail), want) == if c == want then Some(tail) else None
  {
    hide SkipSpace, Expect;
    SkipWhite(s, [c] + tail);
    SkipNone(c, tail);
    ExpectAt(s + ([c] + tail), c, tail, want);
  }

  lemma {:induction false} CharsRead(s: seq<Written>, tail: string, out: string)
    requires StandardString(s) && |out| + |s| < MAX_STRING
    ensures Chars(SpellString(s, tail), out) == Some((out + MeantString(s), ['"'] + tail))
    decreases |s|
  {
    if |s| == 0 {
      assert out + MeantString(s) == out;
    } else {
      var rest := SpellString(s[1..], tail);
      var e := SpellChar(s[0]);
      assert StandardChar(s[0]);
      CharsRead(s[1..], tail, out + [MeantChar(s[0])]);
      assert (out + [MeantChar(s[0])]) + MeantString(s[1..]) == out + MeantString(s);
      assert (e + rest)[|e|..] == rest;
      assert |e| == 2 ==> (e + rest)[1] == e[1];
    }
  }

  /** A string, behind any white space. */
  lemma StringRead(before: string, s: seq<Written>, tail: string)
    requires White(before) && StandardString(s) && |s| < MAX_STRING
    ensures ParseString(before + (['"'] + SpellString(s, tail))) == Some((MeantString(s), tail))
  {
    hide SkipSpace, Chars, SpellString, Expect;
    TokenRead(before, '"', SpellString(s, tail), '"');
    CharsRead(s, tail, []);
    assert [] + MeantString(s) == MeantString(s);
    TokenRead([], '"', tail, '"');
    assert [] + (['"'] + tail) == ['"'] + tail;
  }

  lemma {:induction false} DigitsRead(s: string, tail: string, x: int)
    requires (forall i :: 0 <= i < |s| ==> '0' <= s[i] <= '9') && (|tail| > 0 ==> !IsDigit(tail[0]))
    ensures Digits(s + tail, x as real) == ((x * Ten(|s|) + Decimal(s)) as real, tail)
    decreases |s|
  {
    if |s| == 0 {
      assert s + tail == tail;
    } else {
      var d := s[0] as int - '0' as int;
      assert (s + tail)[1..] == s[1..] + tail && (s + tail)[0] == s[0];
      DigitsRead(s[1..], tail, 10 * x + d);
      FirstDigit(s);
      assert x as real * 10.0 + DigitOf(s[0]) == (10 * x + d) as real;
      Distribute(x, d, Ten(|s| - 1));
    }
  }

  lemma Distribute(x: int, d: int, t: int)
    ensures (10 * x + d) * t == x * (10 * t) + d * t
  {
  }

  lemma {:induction false} FirstDigit(s: string)
    requires |s| > 0 && forall i :: 0 <= i < |s| ==> '0' <= s[i] <= '9'
    ensures Decimal(s) == (s[0] as int - '0' as int) * Ten(|s| - 1) + Decimal(s[1..])
    decreases |s|
  {
    if |s| > 1 {
      var init := s[..|s| - 1];
      FirstDigit(init);
      assert init[1..] == s[1..][..|s| - 2] && s[1..][|s| - 2] == s[|s| - 1];
      Distribute(0, s[0] as int - '0' as int, Ten(|s| - 2));
      TimesTen(s[0] as int - '0' as int, Ten(|s| - 2));
    } else {
      assert s[..0] == [] && s[1..] == [];
      assert Decimal(s[..0]) == 0 && Ten(0) == 1;
    }
  }

  lemma TimesTen(d: int, t: int)
    ensures 10 * (d * t) == d * (10 * t)
  {
  }

  lemma {:induction false} FractionRead(s: string, tail: string, x: int, n: nat)
    requires (forall i :: 0 <= i < |s| ==> '0' <= s[i] <= '9') && (|tail| > 0 ==> !IsDigit(tail[0]))
    requires Ten(n) > 0 && Ten(n + |s|) > 0
    ensures Fraction(s + tail, x as real, Ten(n) as real) ==
            ((x * Ten(|s|) + Decimal(s)) as real / Ten(n + |s|) as real, tail)
    decreases |s|
  {
    if |s| == 0 {
      assert s + tail == tail;
    } else {
      var d := s[0] as int - '0' as int;
      assert (s + tail)[1..] == s[1..] + tail && (s + tail)[0] == s[0];
      TenIsPositive(n + 1);
      FractionRead(s[1..], tail, 10 * x + d, n + 1);
      FirstDigit(s);
      assert x as real * 10.0 + DigitOf(s[0]) == (10 * x + d) as real;
      assert Ten(n) as real * 10.0 == Ten(n + 1) as real;
      Distribute(x, d, Ten(|s| - 1));
    }
  }

  /** A number behind its sign, if its digits are read up to more. */
  lemma SignRead(minus: bool, s: string, whole: real, more: string)
    requires |s| > 0 && IsDigit(s[0]) && Digits(s[1..], DigitOf(s[0])) == (whole, more)
    ensures var (n, rest) := if |more| > 0 && more[0] == '.' then
                               var (f, behind) := Fraction(more[1..], 0.0, 1.0);
                               (whole + f, behind)
                             else (whole, more);
            ParseNumber((if minus then ['-'] else []) + s) == Some((if minus then -n else n, rest))
  {
    hide Digits, Fraction;
    assert minus ==> (['-'] + s)[1..] == s;
    assert !minus ==> [] + s == s;
  }

  lemma NumberRead(minus: bool, whole: string, fraction: Option<string>, tail: string)
    requires Numeral(whole) && (fraction.Some? ==> Numeral(fraction.value)) && Ends(tail)
    ensures var n := MeantNumber(whole, fraction);
            ParseNumber(Spell(Number(minus, whole, fraction), tail)) == Some((if minus then -n else n, tail))
    ensures var s := Spell(Number(minus, whole, fraction), tail); |s| > 0 && (s[0] == '-' || IsDigit(s[0]))
  {
    hide Digits, Fraction, Decimal, Ten, ParseNumber;
    var more := (if fraction.Some? then ['.'] + fraction.value else []) + tail;
    var s := whole + more;
    assert s[0] == whole[0] && s[1..] == whole[1..] + more;
    DigitsFromFirst(whole, more);
    SignRead(minus, s, Decimal(whole) as real, more);
    if fraction.Some? {
      assert more == ['.'] + (fraction.value + tail) && more[1..] == fraction.value + tail;
      TenIsPositive(|fraction.value|);
      FractionFromNought(fraction.value, tail);
    } else {
      assert more == tail;
    }
  }

  lemma FractionFromNought(s: string, tail: string)
    requires Numeral(s) && Ends(tail) && Ten(|s|) > 0
    ensures Fraction(s + tail, 0.0, 1.0) == (Decimal(s) as real / Ten(|s|) as real, tail)
  {
    FractionRead(s, tail, 0, 0);
    hide Fraction, Decimal;
  }

  lemma DigitsFromFirst(whole: string, more: string)
    requires Numeral(whole) && (|more| > 0 ==> !IsDigit(more[0]))
    ensures Digits(whole[1..] + more, DigitOf(whole[0])) == (Decimal(whole) as real, more)
  {
    hide Digits, Decimal, Ten;
    var d := whole[0] as int - '0' as int;
    DigitsRead(whole[1..], more, d);
    FirstDigit(whole);
    assert d as real == DigitOf(whole[0]);
  }

  // ---------------------------------------------------------------- values

  /** Strings and arrays within the fixed-size fields. */
  predicate Holds(d: Doc)
    decreases d
  {
    match d
    case Text(chars) => |chars| < 2048
    case List(_, items) => |items| <= 256 && forall i :: 0 <= i < |items| ==> Holds(items[i].value)
    case Record(_, members) =>
      forall i :: 0 <= i < |members| ==> |members[i].key| < 2048 && Holds(members[i].item.value)
    case _ => true
  }

  lemma ScalarRead(d: Doc, before: string, tail: string, depth: nat)
    requires Standard(d) && Holds(d) && White(before) && Ends(tail) && !d.List? && !d.Record?
    ensures ParseValue(before + Spell(d, tail), depth) == Some((Meaning(d), tail))
  {
    hide SkipSpace, ParseNumber, ParseString, SpellString, MeantNumber, Expect;
    var s := Spell(d, tail);
    match d {
      case Text(chars) =>
        TokenRead(before, '"', SpellString(chars, tail), '"');
        StringRead([], chars, tail);
        assert [] + (['"'] + SpellString(chars, tail)) == s;
      case Number(minus, whole, fraction) =>
        NumberRead(minus, whole, fraction, tail);
        assert s == [s[0]] + s[1..];
        TokenRead(before, s[0], s[1..], s[0]);
      case True =>
        WordRead("true", before, tail, Bool(true));
      case False =>
        WordRead("false", before, tail, Bool(false));
      case Nil =>
        WordRead("null", before, tail, Null);
      case _ =>
    }
  }

  lemma WordRead(word: string, before: string, tail: string, v: Json)
    requires |word| > 0 && !IsSpace(word[0]) && White(before)
    ensures SkipSpace(before + (word + tail)) == word + tail && Keyword(word + tail, word, v) == Some((v, tail))
  {
    hide SkipSpace;
    assert word + tail == [word[0]] + (word[1..] + tail);
    TokenRead(before, word[0], word[1..] + tail, word[0]);
  }

  /** What reading a value must give: what it stands for, unless it is nested too deeply. */
  function Result(d: Doc, depth: nat, tail: string): Option<(Json, string)>
    requires Standard(d)
  {
    if depth + Depth(Meaning(d)) <= MAX_DEPTH then Some((Meaning(d), tail)) else None
  }

  lemma {:induction false} ValueRead(d: Doc, before: string, tail: string, depth: nat)
    requires Standard(d) && Holds(d) && White(before) && Ends(tail) && depth <= MAX_DEPTH
    ensures ParseValue(before + Spell(d, tail), depth) == Result(d, depth, tail)
    decreases d, 1, 0
  {
    hide SkipSpace, Expect, ParseMembers, ParseItems, SpellItems, SpellPairs, Standard, Holds, Meaning, Depth;
    match d {
      case List(inside, items) => ListRead(d, before, tail, depth);
      case Record(inside, members) => RecordRead(d, before, tail, depth);
      case _ =>
        ScalarRead(d, before, tail, depth);
        assert Depth(Meaning(d)) == 0 by { ScalarIsFlat(d); }
    }
  }

  lemma ScalarIsFlat(d: Doc)
    requires Standard(d) && !d.List? && !d.Record?
    ensures Depth(Meaning(d)) == 0
  {
  }

  /** The text behind item i: white space, and then a comma or the end. */
  function AfterSpelled(d: Doc, i: nat, tail: string): string
    requires d.List? && i < |d.items|
  {
    d.items[i].after + if i + 1 == |d.items| then [']'] + tail else [','] + SpellItems(d, i + 1, tail)
  }

  lemma SeparatorRead(after: string, c: char, tail: string)
    requires White(after) && (c == ',' || c == ']' || c == '}')
    ensures var s := after + ([c] + tail);
            Ends(s) && forall want :: Expect(s, want) == if c == want then Some(tail) else None
  {
    hide SkipSpace, Expect;
    forall want
      ensures Expect(after + ([c] + tail), want) == if c == want then Some(tail) else None
    {
      TokenRead(after, c, tail, want);
    }
  }

  lemma ListParts(d: Doc, i: nat)
    requires d.List? && i < |d.items| && Standard(d) && Holds(d)
    ensures White(d.items[i].before) && White(d.items[i].after) && Standard(d.items[i].value) && Holds(d.items[i].value)
    ensures |d.items| <= MAX_ARRAY
    ensures Meaning(d).Arr? && |Meaning(d).items| == |d.items| && Meaning(d).items[i] == Meaning(d.items[i].value)
  {
  }

  lemma ListRead(d: Doc, before: string, tail: string, depth: nat)
    requires d.List? && Standard(d) && Holds(d) && White(before) && Ends(tail) && depth <= MAX_DEPTH
    ensures ParseValue(before + Spell(d, tail), depth) == Result(d, depth, tail)
    decreases d, 0, |d.items| + 1, 0
  {
    hide SkipSpace, Expect, ParseItems, SpellItems, Standard, Holds, Meaning, DepthOfItems, Spell;
    assert White(d.inside) && Meaning(d).Arr? && |Meaning(d).items| == |d.items| by { ListShape(d); }
    var body := if |d.items| == 0 then d.inside + ([']'] + tail) else SpellItems(d, 0, tail);
    assert Spell(d, tail) == ['['] + body by { ListSpelled(d, tail); }
    TokenRead(before, '[', body, '[');
    assert (['['] + body)[1..] == body;
    var v := Meaning(d);
    assert Depth(v) == 1 + DepthOfItems(v, 0);
    if |d.items| == 0 {
      TokenRead(d.inside, ']', tail, ']');
      assert v == Arr([]);
      assert DepthOfItems(v, 0) == 0 by { NoItems(v); }
    } else if depth + 1 <= MAX_DEPTH {
      ItemStarts(d, tail);
      ItemsRead(d, 0, tail, depth + 1);
      assert v.items[..0] == [];
    }
  }

  lemma NoItems(v: Json)
    requires v.Arr? && |v.items| == 0
    ensures DepthOfItems(v, 0) == 0
  {
  }

  lemma ListShape(d: Doc)
    requires d.List? && Standard(d)
    ensures White(d.inside) && Meaning(d).Arr? && |Meaning(d).items| == |d.items|
  {
  }

  lemma ListSpelled(d: Doc, tail: string)
    requires d.List?
    ensures Spell(d, tail) == ['['] + if |d.items| == 0 then d.inside + ([']'] + tail) else SpellItems(d, 0, tail)
  {
  }

  /** A value never starts with white space or a closing bracket. */
  lemma ValueBegins(d: Doc, tail: string)
    requires Standard(d)
    ensures var s := Spell(d, tail); |s| > 0 && !IsSpace(s[0]) && s[0] != ']'
  {
    if d.Number? {
      assert d.whole[0] in d.whole;
    }
  }

  lemma ItemStarts(d: Doc, tail: string)
    requires d.List? && |d.items| > 0 && Standard(d) && Holds(d)
    ensures Expect(SpellItems(d, 0, tail), ']') == None
  {
    ListParts(d, 0);
    var w := Spell(d.items[0].value, AfterSpelled(d, 0, tail));
    assert SpellItems(d, 0, tail) == d.items[0].before + w;
    ValueBegins(d.items[0].value, AfterSpelled(d, 0, tail));
    hide SkipSpace, Expect, Spell, SpellItems, AfterSpelled;
    assert w == [w[0]] + w[1..];
    TokenRead(d.items[0].before, w[0], w[1..], ']');
  }

  lemma AfterSpelledRead(d: Doc, i: nat, tail: string)
    requires d.List? && i < |d.items| && Standard(d) && Holds(d)
    ensures var s, last := AfterSpelled(d, i, tail), i + 1 == |d.items|;
            && Ends(s) && Expect(s, ']') == (if last then Some(tail) else None)
            && Expect(s, ',') == (if last then None else Some(SpellItems(d, i + 1, tail)))
  {
    ListParts(d, i);
    hide SkipSpace, Expect, SpellItems;
    if i + 1 == |d.items| {
      SeparatorRead(d.items[i].after, ']', tail);
    } else {
      SeparatorRead(d.items[i].after, ',', SpellItems(d, i + 1, tail));
    }
  }

  lemma {:induction false} ItemRead(d: Doc, i: nat, tail: string, depth: nat)
    requires d.List? && i < |d.items| && Standard(d) && Holds(d) && depth <= MAX_DEPTH
    ensures Meaning(d).Arr? && |Meaning(d).items| == |d.items|
    ensures var v := Meaning(d).items[i];
            ParseValue(SpellItems(d, i, tail), depth) ==
            if depth + Depth(v) <= MAX_DEPTH then Some((v, AfterSpelled(d, i, tail))) else None
    decreases d, 0, |d.items| - i, 0
  {
    ListParts(d, i);
    var x := d.items[i];
    assert SpellItems(d, i, tail) == x.before + Spell(x.value, AfterSpelled(d, i, tail)) by { hide Spell; }
    AfterSpelledRead(d, i, tail);
    hide Expect, ParseValue, SpellItems, AfterSpelled, Depth, Standard, Holds, Meaning, Spell;
    ValueRead(x.value, x.before, AfterSpelled(d, i, tail), depth);
  }

  lemma {:induction false} ItemsRead(d: Doc, i: nat, tail: string, depth: nat)
    requires d.List? && i < |d.items| && Standard(d) && Holds(d) && depth <= MAX_DEPTH
    ensures Meaning(d).Arr? && |Meaning(d).items| == |d.items|
    ensures ParseItems(SpellItems(d, i, tail), depth, Meaning(d).items[..i]) ==
            if depth + DepthOfItems(Meaning(d), i) <= MAX_DEPTH then Some((Meaning(d), tail)) else None
    decreases d, 0, |d.items| - i, 1
  {
    hide Expect, ParseValue, SpellItems, AfterSpelled, Depth, Standard, Holds, Meaning;
    ListParts(d, i);
    var v := Meaning(d);
    ItemRead(d, i, tail, depth);
    AfterSpelledRead(d, i, tail);
    assert v.items[..i] + [v.items[i]] == v.items[..i + 1];
    if i + 1 < |d.items| {
      ItemsRead(d, i + 1, tail, depth);
    } else {
      assert v.items[..i + 1] == v.items;
    }
  }

  // ---------------------------------------------------------------- objects

  function AfterPair(d: Doc, i: nat, tail: string): string
    requires d.Record? && i < |d.members|
  {
    d.members[i].item.after + if i + 1 == |d.members| then ['}'] + tail else [','] + SpellPairs(d, i + 1, tail)
  }

  lemma RecordShape(d: Doc)
    requires d.Record? && Standard(d)
    ensures White(d.inside) && Meaning(d).Obj? && |Meaning(d).members| == |d.members|
  {
  }

  lemma RecordParts(d: Doc, i: nat)
    requires d.Record? && i < |d.members| && Standard(d) && Holds(d)
    ensures var m := d.members[i];
            && White(m.before) && White(m.mid) && StandardString(m.key) && |m.key| < MAX_STRING
            && White(m.item.before) && White(m.item.after) && Standard(m.item.value) && Holds(m.item.value)
            && Meaning(d).Obj? && |Meaning(d).members| == |d.members|
            && Meaning(d).members[i] == Member(MeantString(m.key), Meaning(m.item.value))
  {
  }

  lemma RecordSpelled(d: Doc, tail: string)
    requires d.Record?
    ensures Spell(d, tail) == ['{'] + if |d.members| == 0 then d.inside + (['}'] + tail) else SpellPairs(d, 0, tail)
  {
  }

  lemma NoMembers(v: Json)
    requires v.Obj? && |v.members| == 0
    ensures DepthOfMembers(v, 0) == 0
  {
  }

  lemma RecordRead(d: Doc, before: string, tail: string, depth: nat)
    requires d.Record? && Standard(d) && Holds(d) && White(before) && Ends(tail) && depth <= MAX_DEPTH
    ensures ParseValue(before + Spell(d, tail), depth) == Result(d, depth, tail)
    decreases d, 0, |d.members| + 1, 0
  {
    hide SkipSpace, Expect, ParseMembers, SpellPairs, Standard, Holds, Meaning, DepthOfMembers, Spell;
    RecordShape(d);
    var body := if |d.members| == 0 then d.inside + (['}'] + tail) else SpellPairs(d, 0, tail);
    RecordSpelled(d, tail);
    TokenRead(before, '{', body, '{');
    assert (['{'] + body)[1..] == body;
    var v := Meaning(d);
    assert Depth(v) == 1 + DepthOfMembers(v, 0);
    if |d.members| == 0 {
      TokenRead(d.inside, '}', tail, '}');
      assert v == Obj([]);
      NoMembers(v);
    } else if depth + 1 <= MAX_DEPTH {
      PairStarts(d, tail);
      PairsRead(d, 0, tail, depth + 1);
      assert v.members[..0] == [];
    }
  }

  /** The text of member i behind its key. */
  function BehindKey(d: Doc, i: nat, tail: string): string
    requires d.Record? && i < |d.members|
  {
    var m := d.members[i];
    m.mid + ([':'] + (m.item.before + Spell(m.item.value, AfterPair(d, i, tail))))
  }

  lemma PairSpelled(d: Doc, i: nat, tail: string)
    requires d.Record? && i < |d.members|
    ensures var m := d.members[i];
            SpellPairs(d, i, tail) == m.before + (['"'] + SpellString(m.key, BehindKey(d, i, tail)))
  {
    hide Spell, SpellString;
  }

  lemma PairStarts(d: Doc, tail: string)
    requires d.Record? && |d.members| > 0 && Standard(d) && Holds(d)
    ensures Expect(SpellPairs(d, 0, tail), '}') == None
  {
    RecordParts(d, 0);
    PairSpelled(d, 0, tail);
    hide SkipSpace, Expect, SpellPairs, SpellString, BehindKey;
    TokenRead(d.members[0].before, '"', SpellString(d.members[0].key, BehindKey(d, 0, tail)), '}');
  }

  lemma AfterPairRead(d: Doc, i: nat, tail: string)
    requires d.Record? && i < |d.members| && Standard(d) && Holds(d)
    ensures var s, last := AfterPair(d, i, tail), i + 1 == |d.members|;
            && Ends(s) && Expect(s, '}') == (if last then Some(tail) else None)
            && Expect(s, ',') == (if last then None else Some(SpellPairs(d, i + 1, tail)))
  {
    RecordParts(d, i);
    hide SkipSpace, Expect, SpellPairs;
    if i + 1 == |d.members| {
      SeparatorRead(d.members[i].item.after, '}', tail);
    } else {
      SeparatorRead(d.members[i].item.after, ',', SpellPairs(d, i + 1, tail));
    }
  }

  lemma {:induction false} PairRead(d: Doc, i: nat, tail: string, depth: nat)
    requires d.Record? && i < |d.members| && Standard(d) && Holds(d) && depth <= MAX_DEPTH
    ensures Meaning(d).Obj? && |Meaning(d).members| == |d.members|
    ensures var m := Meaning(d).members[i];
            ParseMember(SpellPairs(d, i, tail), depth) ==
            if depth + Depth(m.value) <= MAX_DEPTH then Some((m, AfterPair(d, i, tail))) else None
    decreases d, 0, |d.members| - i, 0
  {
    RecordParts(d, i);
    PairSpelled(d, i, tail);
    AfterPairRead(d, i, tail);
    var m := d.members[i];
    var value := m.item.before + Spell(m.item.value, AfterPair(d, i, tail));
    assert BehindKey(d, i, tail) == m.mid + ([':'] + value) by { hide Spell, AfterPair; }
    hide SkipSpace, Expect, ParseValue, ParseString, SpellPairs, SpellString, BehindKey, AfterPair, Depth, Standard,
      Holds, Meaning, Spell;
    StringRead(m.before, m.key, BehindKey(d, i, tail));
    TokenRead(m.mid, ':', value, ':');
    ValueRead(m.item.value, m.item.before, AfterPair(d, i, tail), depth);
  }

  lemma {:induction false} PairsRead(d: Doc, i: nat, tail: string, depth: nat)
    requires d.Record? && i < |d.members| && Standard(d) && Holds(d) && depth <= MAX_DEPTH
    ensures Meaning(d).Obj? && |Meaning(d).members| == |d.members|
    ensures ParseMembers(SpellPairs(d, i, tail), depth, Meaning(d).members[..i]) ==
            if depth + DepthOfMembers(Meaning(d), i) <= MAX_DEPTH then Some((Meaning(d), tail)) else None
    decreases d, 0, |d.members| - i, 1
  {
    hide Expect, ParseMember, SpellPairs, AfterPair, Depth, Standard, Holds, Meaning;
    RecordShape(d);
    var v := Meaning(d);
    PairRead(d, i, tail, depth);
    AfterPairRead(d, i, tail);
    assert v.members[..i] + [v.members[i]] == v.members[..i + 1];
    if i + 1 < |d.members| {
      PairsRead(d, i + 1, tail, depth);
    } else {
      assert v.members[..i + 1] == v.members;
    }
  }

  // ---------------------------------------------------------------- whole texts

  /** Every standard text within the limits is read as what it stands for, whatever white space it has, if and
      only if its containers are nested at most 32 deep. */
  lemma StandardTextsRead(d: Doc, before: string, after: string)
    requires Standard(d) && Holds(d) && White(before) && White(after)
    ensures Parse(before + Spell(d, after)) == if Depth(Meaning(d)) <= 32 then Some(Meaning(d)) else None
  {
    hide Spell, Standard, Holds, Meaning, Depth, ParseValue;
    assert Ends(after);
    ValueRead(d, before, after, 0);
    assert after + [] == after;
    SkipWhite(after, []);
  }

  // ---------------------------------------------------------------- where the parser differs

  /** A text that is a number with an exponent is refused. */
  lemma ExponentRefused(d: Doc, before: string, e: char, rest: string)
    requires d.Number? && Standard(d) && White(before) && (e == 'e' || e == 'E')
    ensures Parse(before + Spell(d, [e] + rest)) == None
  {
    hide Spell, Standard, Meaning, Depth, ParseValue;
    assert Holds(d);
    ScalarRead(d, before, [e] + rest, 0);
    SkipNone(e, rest);
  }

  /** The escapes of b and f and of code points are read as the letter behind the backslash. */
  lemma OtherEscapesStay(before: string, first: seq<Written>, c: char, then_: seq<Written>, after: string)
    requires StandardString(first) && StandardString(then_) && |first| + 1 + |then_| < MAX_STRING
    requires c == 'b' || c == 'f' || c == 'u'
    requires White(before) && White(after)
    ensures Parse(before + (['"'] + SpellString(first + [Escaped(c)] + then_, after))) ==
            Some(Str(MeantString(first) + [c] + MeantString(then_)))
  {
    hide SkipSpace, Chars, SpellString, Expect, MeantString;
    var text := first + [Escaped(c)] + then_;
    TokenRead(before, '"', SpellString(text, after), '"');
    TokenRead([], '"', SpellString(text, after), '"');
    assert [] + (['"'] + SpellString(text, after)) == ['"'] + SpellString(text, after);
    EscapeStays(first, c, then_, after, []);
    assert [] + MeantString(first) + [c] + MeantString(then_) == MeantString(first) + [c] + MeantString(then_);
    TokenRead([], '"', after, '"');
    assert [] + (['"'] + after) == ['"'] + after;
    SkipWhite(after, []);
    assert after + [] == after;
    assert SkipSpace([]) == [] by { NothingToSkip(); }
  }

  lemma NothingToSkip()
    ensures SkipSpace([]) == []
  {
  }

  lemma {:induction false} EscapeStays(first: seq<Written>, c: char, then_: seq<Written>, tail: string, out: string)
    requires StandardString(first) && StandardString(then_) && |out| + |first| + 1 + |then_| < MAX_STRING
    requires c == 'b' || c == 'f' || c == 'u'
    ensures Chars(SpellString(first + [Escaped(c)] + then_, tail), out) ==
            Some((out + MeantString(first) + [c] + MeantString(then_), ['"'] + tail))
    decreases |first|
  {
    var text := first + [Escaped(c)] + then_;
    var rest := SpellString(text[1..], tail);
    if |first| == 0 {
      assert text[1..] == then_ && text[0] == Escaped(c);
      CharsRead(then_, tail, out + [c]);
      var s := ['\\', c] + rest;
      assert s[2..] == rest && SpellString(text, tail) == s;
      assert out + MeantString(first) + [c] == out + [c];
    } else {
      var e := SpellChar(first[0]);
      assert StandardChar(first[0]);
      assert text[0] == first[0] && text[1..] == first[1..] + [Escaped(c)] + then_;
      EscapeStays(first[1..], c, then_, tail, out + [MeantChar(first[0])]);
      assert (out + [MeantChar(first[0])]) + MeantString(first[1..]) == out + MeantString(first);
      assert (e + rest)[|e|..] == rest;
      assert |e| == 2 ==> (e + rest)[1] == e[1];
    }
  }
}
