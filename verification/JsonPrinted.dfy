/** What the writer prints (json_write, utils/json.c), derivation by derivation: standard text, indented by two
    blanks a level, that stands for the tree it was made from. */
module JsonPrinted {
  import opened Base
  import opened JsonText
  import opened JsonGrammar

  function Blanks(n: nat): string {
    seq(n, i => ' ')
  }

  function NewLine(n: nat): string {
    ['\n'] + Blanks(n)
  }

  /** Quotes, backslashes, line ends, tabs and carriage returns are escaped. */
  function EscapedChar(c: char): Written {
    if c == '"' || c == '\\' then Escaped(c)
    else if c == '\n' then Escaped('n')
    else if c == '\t' then Escaped('t')
    else if c == '\r' then Escaped('r')
    else Plain(c)
  }

  function EscapedString(text: string): seq<Written> {
    seq(|text|, i requires 0 <= i < |text| => EscapedChar(text[i]))
  }

  function Magnitude(n: int): nat {
    if n < 0 then -n else n
  }

  /** The derivation of the text of a tree of integers, strings and words. */
  function Printed(v: Json, indent: nat): Doc
    decreases v
  {
    match v
    case Str(text) => Text(EscapedString(text))
    case Num(x) => Number(x < 0.0, NatTo(Magnitude(x.Floor), []), None)
    case Bool(b) => if b then True else False
    case Null => Nil
    case Arr(items) =>
      List([], seq(|items|, i requires 0 <= i < |items| =>
        Item(NewLine(indent + 2), Printed(items[i], indent + 2), if i + 1 == |items| then NewLine(indent) else [])))
    case Obj(ms) =>
      Record(NewLine(indent), seq(|ms|, i requires 0 <= i < |ms| =>
        Pair(NewLine(indent + 2), EscapedString(ms[i].key), [],
             Item([' '], Printed(ms[i].value, indent + 2), if i + 1 == |ms| then NewLine(indent) else []))))
  }

  // ---------------------------------------------------------------- tokens

  lemma {:induction false} IndentIsBlanks(n: nat, tail: string)
    ensures IndentTo(n, tail) == Blanks(n) + tail
  {
    if n > 0 {
      IndentIsBlanks(n - 1, tail);
      assert Blanks(n) == [' '] + Blanks(n - 1);
    }
  }

  lemma {:induction false} EscapesSpelled(text: string, tail: string)
    ensures EscapeTo(text, ['"'] + tail) == SpellString(EscapedString(text), tail)
    ensures MeantString(EscapedString(text)) == text && StandardString(EscapedString(text))
  {
    if |text| > 0 {
      EscapesSpelled(text[1..], tail);
      assert EscapedString(text)[1..] == EscapedString(text[1..]);
      assert MeantString(EscapedString(text)) == [text[0]] + MeantString(EscapedString(text[1..]));
    }
  }

  lemma {:induction false} DigitsOf(n: nat, tail: string)
    ensures NatTo(n, tail) == NatTo(n, []) + tail
  {
    var d := ['0' + (n % 10) as char];
    if n >= 10 {
      DigitsOf(n / 10, d + tail);
      DigitsOf(n / 10, d + []);
      assert NatTo(n / 10, []) + (d + []) + tail == NatTo(n / 10, []) + (d + tail);
    } else {
      assert d + [] + tail == d + tail;
    }
  }

  lemma {:induction false} DecimalDigits(n: nat)
    ensures Numeral(NatTo(n, [])) && Decimal(NatTo(n, [])) == n
  {
    var d := ['0' + (n % 10) as char];
    if n >= 10 {
      DigitsOf(n / 10, d + []);
      DecimalDigits(n / 10);
      assert NatTo(n, []) == NatTo(n / 10, []) + d;
      assert (NatTo(n / 10, []) + d)[..|NatTo(n / 10, [])|] == NatTo(n / 10, []);
    } else {
      assert NatTo(n, []) == d && d[..0] == [];
      assert Decimal(d[..0]) == 0;
    }
  }

  // ---------------------------------------------------------------- values

  lemma ScalarPrinted(v: Json, indent: nat, other: real -> string, tail: string)
    requires Whole(v) && !v.Arr? && !v.Obj?
    ensures WriteTo(v, indent, other, tail) == Spell(Printed(v, indent), tail)
    ensures Standard(Printed(v, indent)) && Meaning(Printed(v, indent)) == v
  {
    hide NatTo, EscapeTo, SpellString, Decimal, EscapedString, MeantString, StandardString, Numeral;
    match v {
      case Str(text) => EscapesSpelled(text, tail);
      case Num(x) =>
        var m := Magnitude(x.Floor);
        DigitsOf(m, tail);
        DecimalDigits(m);
        assert [] + tail == tail && [] + (NatTo(m, []) + tail) == NatTo(m, []) + tail;
      case _ =>
    }
  }

  lemma ListMeans(d: Doc, v: Json)
    requires d.List? && v.Arr? && |d.items| == |v.items| && White(d.inside)
    requires forall i :: 0 <= i < |d.items| ==>
      && White(d.items[i].before) && White(d.items[i].after)
      && Standard(d.items[i].value) && Meaning(d.items[i].value) == v.items[i]
    ensures Standard(d) && Meaning(d) == v
  {
    hide White;
    assert Meaning(d).items == v.items;
  }

  lemma RecordMeans(d: Doc, v: Json)
    requires d.Record? && v.Obj? && |d.members| == |v.members| && White(d.inside)
    requires forall i :: 0 <= i < |d.members| ==>
      && White(d.members[i].before) && White(d.members[i].mid) && StandardString(d.members[i].key)
      && MeantString(d.members[i].key) == v.members[i].key
      && White(d.members[i].item.before) && White(d.members[i].item.after)
      && Standard(d.members[i].item.value) && Meaning(d.members[i].item.value) == v.members[i].value
    ensures Standard(d) && Meaning(d) == v
  {
    hide White, StandardString, MeantString;
    assert Meaning(d).members == v.members;
  }

  lemma WhiteLines(n: nat)
    ensures White(NewLine(n)) && White([]) && White([' '])
  {
  }

  lemma {:induction false} PrintedMeans(v: Json, indent: nat)
    requires Whole(v)
    ensures Standard(Printed(v, indent)) && Meaning(Printed(v, indent)) == v
    decreases v
  {
    hide Standard, Meaning, White, NewLine, StandardString, MeantString, EscapedString;
    WhiteLines(indent);
    WhiteLines(indent + 2);
    var d := Printed(v, indent);
    match v {
      case Arr(items) =>
        forall i | 0 <= i < |items|
          ensures Standard(d.items[i].value) && Meaning(d.items[i].value) == items[i]
        {
          PrintedMeans(items[i], indent + 2);
        }
        ListMeans(d, v);
      case Obj(ms) =>
        forall i | 0 <= i < |ms|
          ensures Standard(d.members[i].item.value) && Meaning(d.members[i].item.value) == ms[i].value
          ensures StandardString(d.members[i].key) && MeantString(d.members[i].key) == ms[i].key
        {
          PrintedMeans(ms[i].value, indent + 2);
          EscapesSpelled(ms[i].key, []);
        }
        RecordMeans(d, v);
      case _ => ScalarPrinted(v, indent, x => [], []);
    }
  }

  /** What stands behind a value: the end of its container on a new line, or a comma and the next on one. */
  lemma BehindValue(last: bool, indent: nat, c: char, tail: string, rest: string, next: string)
    requires if last then rest == IndentTo(indent, [c] + tail) else ['\n'] + rest == next
    ensures Separator(last) + rest ==
            (if last then NewLine(indent) else []) + (if last then [c] + tail else [','] + next)
  {
    hide IndentTo, Blanks;
    if last {
      IndentIsBlanks(indent, [c] + tail);
      assert ['\n'] + (Blanks(indent) + ([c] + tail)) == (['\n'] + Blanks(indent)) + ([c] + tail);
    } else {
      assert [',', '\n'] + rest == [','] + (['\n'] + rest);
      assert [] + ([','] + next) == [','] + next;
    }
  }

  lemma Indented(n: nat, text: string)
    ensures ['\n'] + IndentTo(n, text) == NewLine(n) + text
  {
    hide IndentTo, Blanks;
    IndentIsBlanks(n, text);
    assert ['\n'] + (Blanks(n) + text) == (['\n'] + Blanks(n)) + text;
  }

  lemma {:induction false} ItemsPrinted(v: Json, i: nat, indent: nat, other: real -> string, tail: string)
    requires v.Arr? && Whole(v) && i < |v.items|
    ensures ['\n'] + ItemsTo(v, i, indent, other, tail) == SpellItems(Printed(v, indent), i, tail)
    decreases v, 0, |v.items| - i
  {
    var d, last := Printed(v, indent), i + 1 == |v.items|;
    var rest := ItemsTo(v, i + 1, indent, other, tail);
    var next := if last then [] else SpellItems(d, i + 1, tail);
    if !last {
      ItemsPrinted(v, i + 1, indent, other, tail);
    }
    hide IndentTo, SpellItems, NewLine;
    BehindValue(last, indent, ']', tail, rest, next);
    PrintsText(v.items[i], indent + 2, other, Separator(last) + rest);
    ItemUnfolds(v, i, indent, other, tail);
    hide Printed, ItemsTo, Separator, WriteTo, Spell;
    Indented(indent + 2, WriteTo(v.items[i], indent + 2, other, Separator(last) + rest));
  }

  lemma ItemUnfolds(v: Json, i: nat, indent: nat, other: real -> string, tail: string)
    requires v.Arr? && i < |v.items|
    ensures var d, last := Printed(v, indent), i + 1 == |v.items|;
            && ItemsTo(v, i, indent, other, tail) ==
               IndentTo(indent + 2, WriteTo(v.items[i], indent + 2, other,
                                            Separator(last) + ItemsTo(v, i + 1, indent, other, tail)))
            && d.List? && |d.items| == |v.items|
            && SpellItems(d, i, tail) ==
               NewLine(indent + 2) +
               Spell(Printed(v.items[i], indent + 2),
                     (if last then NewLine(indent) else []) +
                     (if last then [']'] + tail else [','] + SpellItems(d, i + 1, tail)))
  {
    hide WriteTo, Spell, IndentTo, NewLine;
  }

  lemma {:induction false} PairsPrinted(v: Json, i: nat, indent: nat, other: real -> string, tail: string)
    requires v.Obj? && Whole(v) && i < |v.members|
    ensures ['\n'] + MembersTo(v, i, indent, other, tail) == SpellPairs(Printed(v, indent), i, tail)
    decreases v, 0, |v.members| - i
  {
    var d, last := Printed(v, indent), i + 1 == |v.members|;
    var rest := MembersTo(v, i + 1, indent, other, tail);
    var next := if last then [] else SpellPairs(d, i + 1, tail);
    if !last {
      PairsPrinted(v, i + 1, indent, other, tail);
    }
    hide IndentTo, SpellPairs, NewLine, EscapeTo, SpellString;
    BehindValue(last, indent, '}', tail, rest, next);
    PrintsText(v.members[i].value, indent + 2, other, Separator(last) + rest);
    PairUnfolds(v, i, indent, other, tail);
    hide Printed, MembersTo, Separator;
    var w := WriteTo(v.members[i].value, indent + 2, other, Separator(last) + rest);
    KeyPrinted(v.members[i].key, w);
    hide WriteTo, Spell, EscapedString;
    Indented(indent + 2, ['"'] + EscapeTo(v.members[i].key, ['"'] + ([':', ' '] + w)));
  }

  lemma KeyPrinted(key: string, w: string)
    ensures EscapeTo(key, ['"'] + ([':', ' '] + w)) == SpellString(EscapedString(key), [] + ([':'] + ([' '] + w)))
  {
    hide EscapeTo, SpellString, EscapedString;
    EscapesSpelled(key, [':', ' '] + w);
    assert [':', ' '] + w == [':'] + ([' '] + w) == [] + ([':'] + ([' '] + w));
  }

  lemma PairUnfolds(v: Json, i: nat, indent: nat, other: real -> string, tail: string)
    requires v.Obj? && i < |v.members|
    ensures var d, last, key := Printed(v, indent), i + 1 == |v.members|, v.members[i].key;
            && MembersTo(v, i, indent, other, tail) ==
               IndentTo(indent + 2, ['"'] + EscapeTo(key, ['"'] + ([':', ' '] +
                 WriteTo(v.members[i].value, indent + 2, other,
                         Separator(last) + MembersTo(v, i + 1, indent, other, tail)))))
            && d.Record? && |d.members| == |v.members|
            && SpellPairs(d, i, tail) ==
               NewLine(indent + 2) + (['"'] + SpellString(EscapedString(key), [] + ([':'] + ([' '] +
                 Spell(Printed(v.members[i].value, indent + 2),
                       (if last then NewLine(indent) else []) +
                       (if last then ['}'] + tail else [','] + SpellPairs(d, i + 1, tail)))))))
  {
    hide WriteTo, Spell, IndentTo, NewLine, EscapeTo, SpellString, EscapedString;
  }

  lemma {:induction false} PrintsText(v: Json, indent: nat, other: real -> string, tail: string)
    requires Whole(v)
    ensures WriteTo(v, indent, other, tail) == Spell(Printed(v, indent), tail)
    decreases v, 1, 0
  {
    hide SpellItems, SpellPairs, ItemsTo, MembersTo, IndentTo, NewLine;
    match v {
      case Arr(items) =>
        if |items| > 0 {
          ItemsPrinted(v, 0, indent, other, tail);
          assert ['[', '\n'] + ItemsTo(v, 0, indent, other, tail) ==
                 ['['] + (['\n'] + ItemsTo(v, 0, indent, other, tail));
        } else {
          assert ['['] + ([] + ([']'] + tail)) == ['[', ']'] + tail;
        }
      case Obj(ms) =>
        assert ['{', '\n'] + MembersTo(v, 0, indent, other, tail) ==
               ['{'] + (['\n'] + MembersTo(v, 0, indent, other, tail));
        if |ms| > 0 {
          PairsPrinted(v, 0, indent, other, tail);
        } else {
          NoPairs(v, indent, other, tail);
          Indented(indent, ['}'] + tail);
        }
      case _ => ScalarPrinted(v, indent, other, tail);
    }
  }

  lemma NoPairs(v: Json, indent: nat, other: real -> string, tail: string)
    requires v.Obj? && |v.members| == 0
    ensures MembersTo(v, 0, indent, other, tail) == IndentTo(indent, ['}'] + tail)
  {
  }

  /** Everything printed is standard text, and stands for what it was printed from. */
  lemma PrintsStandardText(v: Json, indent: nat, other: real -> string)
    requires Whole(v)
    ensures var d := Printed(v, indent);
            Standard(d) && Meaning(d) == v && WriteTo(v, indent, other, []) == Spell(d, [])
  {
    PrintedMeans(v, indent);
    PrintsText(v, indent, other, []);
  }
}
