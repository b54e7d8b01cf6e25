/** The indenting writer of utils/json.c, appending to a stream. */
module JsonWriter {
  import opened Base
  import opened JsonText

  // ---------------------------------------------------------------- text before a tail

  lemma {:induction false} IndentSplits(n: nat, tail: string)
    ensures IndentTo(n, tail) == IndentTo(n, []) + tail
  {
    if n > 0 {
      IndentSplits(n - 1, tail);
    }
  }

  lemma {:induction false} EscapeSplits(text: string, tail: string)
    ensures EscapeTo(text, tail) == EscapeTo(text, []) + tail
  {
    if |text| > 0 {
      EscapeSplits(text[1..], tail);
    }
  }

  lemma StringSplits(text: string, tail: string)
    ensures StringTo(text, tail) == StringTo(text, []) + tail
  {
    EscapeSplits(text, ['"'] + tail);
    EscapeSplits(text, ['"']);
    assert ['"'] + [] == ['"'];
  }

  lemma {:induction false} NatSplits(n: nat, tail: string)
    ensures NatTo(n, tail) == NatTo(n, []) + tail
  {
    if n >= 10 {
      var d := ['0' + (n % 10) as char];
      assert d + [] == d;
      NatSplits(n / 10, d + tail);
      NatSplits(n / 10, d);
    }
  }

  lemma IntSplits(n: int, tail: string)
    ensures IntTo(n, tail) == IntTo(n, []) + tail
  {
    NatSplits(if n < 0 then -n else n, tail);
  }

  /** The text of a value does not depend on what follows it. */
  lemma {:induction false} WriteSplits(v: Json, indent: nat, other: real -> string, tail: string)
    ensures WriteTo(v, indent, other, tail) == WriteTo(v, indent, other, []) + tail
    decreases v, 1, 0
  {
    hide StringTo, IntTo, MembersTo, ItemsTo;
    match v {
      case Str(text) => StringSplits(text, tail);
      case Num(x) => IntSplits(x.Floor, tail);
      case Obj(_) => MembersSplit(v, 0, indent, other, tail);
      case Arr(items) => if |items| > 0 { ItemsSplit(v, 0, indent, other, tail); }
      case _ =>
    }
  }

  lemma {:induction false} MembersSplit(v: Json, i: nat, indent: nat, other: real -> string, tail: string)
    requires v.Obj? && i <= |v.members|
    ensures MembersTo(v, i, indent, other, tail) == MembersTo(v, i, indent, other, []) + tail
    decreases v, 0, |v.members| - i
  {
    hide IndentTo, StringTo, WriteTo;
    if i == |v.members| {
      IndentSplits(indent, ['}'] + tail);
      IndentSplits(indent, ['}'] + []);
    } else {
      MembersSplit(v, i + 1, indent, other, tail);
      MemberSplits(v.members[i], |v.members| == i + 1, indent, other, MembersTo(v, i + 1, indent, other, []));
      MemberSplits(v.members[i], |v.members| == i + 1, indent, other, MembersTo(v, i + 1, indent, other, tail));
    }
  }

  /** The text of one member with its separator. */
  function MemberText(m: Member, last: bool, indent: nat, other: real -> string): string {
    IndentTo(indent + 2, []) + StringTo(m.key, []) + [':', ' '] + WriteTo(m.value, indent + 2, other, []) +
    Separator(last)
  }

  lemma {:induction false} MemberSplits(m: Member, last: bool, indent: nat, other: real -> string, rest: string)
    ensures IndentTo(indent + 2,
                     StringTo(m.key, [':', ' '] + WriteTo(m.value, indent + 2, other, Separator(last) + rest))) ==
            MemberText(m, last, indent, other) + rest
    decreases m, 2, 0
  {
    hide IndentTo, StringTo, WriteTo, Separator;
    var w := WriteTo(m.value, indent + 2, other, Separator(last) + rest);
    IndentSplits(indent + 2, StringTo(m.key, [':', ' '] + w));
    StringSplits(m.key, [':', ' '] + w);
    WriteSplits(m.value, indent + 2, other, Separator(last) + rest);
  }

  function ItemText(v: Json, last: bool, indent: nat, other: real -> string): string {
    IndentTo(indent + 2, []) + WriteTo(v, indent + 2, other, []) + Separator(last)
  }

  lemma {:induction false} ItemSplits(v: Json, last: bool, indent: nat, other: real -> string, rest: string)
    ensures IndentTo(indent + 2, WriteTo(v, indent + 2, other, Separator(last) + rest)) ==
            ItemText(v, last, indent, other) + rest
    decreases v, 2, 0
  {
    hide IndentTo, WriteTo, Separator;
    IndentSplits(indent + 2, WriteTo(v, indent + 2, other, Separator(last) + rest));
    WriteSplits(v, indent + 2, other, Separator(last) + rest);
  }

  lemma {:induction false} ItemsSplit(v: Json, i: nat, indent: nat, other: real -> string, tail: string)
    requires v.Arr? && i <= |v.items|
    ensures ItemsTo(v, i, indent, other, tail) == ItemsTo(v, i, indent, other, []) + tail
    decreases v, 0, |v.items| - i
  {
    hide IndentTo, WriteTo;
    if i == |v.items| {
      IndentSplits(indent, [']'] + tail);
      IndentSplits(indent, [']'] + []);
    } else {
      ItemsSplit(v, i + 1, indent, other, tail);
      ItemSplits(v.items[i], |v.items| == i + 1, indent, other, ItemsTo(v, i + 1, indent, other, []));
      ItemSplits(v.items[i], |v.items| == i + 1, indent, other, ItemsTo(v, i + 1, indent, other, tail));
    }
  }

  // ---------------------------------------------------------------- the writer

  lemma EscapeStep(text: string, i: nat)
    requires i < |text|
    ensures EscapeTo(text[i..], ['"']) == Escape(text[i]) + EscapeTo(text[i + 1..], ['"'])
  {
    assert text[i..][1..] == text[i + 1..];
  }

  lemma EscapeEnd(text: string)
    ensures EscapeTo(text[|text|..], ['"']) == ['"']
  {
  }

  lemma Moved(a: string, b: string, c: string)
    ensures a + (b + c) == a + b + c
  {
  }

  class Writer {
    var out: string
    const other: real -> string

    constructor (g: real -> string)
      ensures out == "" && other == g
    {
      out, other := "", g;
    }

    /** fputc and fputs. */
    method Put(s: string)
      modifies this
      ensures out == old(out) + s
    {
      out := out + s;
    }

    /** json_write_indent. */
    method WriteIndent(indent: nat)
      modifies this
      ensures out == old(out) + IndentTo(indent, [])
    {
      var i := 0;
      while i < indent
        invariant i <= indent && out + IndentTo(indent - i, []) == old(out) + IndentTo(indent, [])
      {
        assert IndentTo(indent - i, []) == [' '] + IndentTo(indent - i - 1, []);
        Put([' ']);
        i := i + 1;
      }
    }

    /** json_write_string. */
    method WriteString(text: string)
      modifies this
      ensures out == old(out) + StringTo(text, [])
    {
      hide EscapeTo, Escape;
      Put(['"']);
      var i := 0;
      ghost var goal := out + EscapeTo(text, ['"']);
      assert text[0..] == text && ['"'] + [] == ['"'];
      while i < |text|
        invariant i <= |text| && out + EscapeTo(text[i..], ['"']) == goal
      {
        EscapeStep(text, i);
        Moved(out, Escape(text[i]), EscapeTo(text[i + 1..], ['"']));
        Put(Escape(text[i]));
        i := i + 1;
      }
      EscapeEnd(text);
      Put(['"']);
    }

    /** json_write. */
    method Write(v: Json, indent: nat)
      modifies this
      ensures out == old(out) + WriteTo(v, indent, other, [])
      decreases v, 1
    {
      hide StringTo, IntTo, MembersTo, ItemsTo, IndentTo;
      match v {
        case Str(text) => WriteString(text);
        case Num(x) => Put(if IsWhole(x) then IntTo(x.Floor, []) else other(x));
        case Bool(b) => Put(if b then "true" else "false");
        case Null => Put("null");
        case Obj(_) =>
          Put(['{', '\n']);
          WriteMembers(v, indent);
        case Arr(items) =>
          if |items| == 0 {
            Put(['[', ']']);
          } else {
            Put(['[', '\n']);
            WriteItems(v, indent);
          }
      }
    }

    method WriteMembers(v: Json, indent: nat)
      requires v.Obj?
      modifies this
      ensures out == old(out) + MembersTo(v, 0, indent, other, [])
      decreases v, 0
    {
      hide StringTo, IndentTo, WriteTo, MembersTo, Separator;
      var i := 0;
      while i < |v.members|
        invariant i <= |v.members|
        invariant out + MembersTo(v, i, indent, other, []) == old(out) + MembersTo(v, 0, indent, other, [])
      {
        MembersToIs(v, i, indent, other);
        WriteMember(v.members[i], i + 1 == |v.members|, indent);
        i := i + 1;
      }
      MembersToIs(v, i, indent, other);
      WriteIndent(indent);
      Put(['}']);
    }

    method WriteMember(m: Member, last: bool, indent: nat)
      modifies this
      ensures out == old(out) + MemberText(m, last, indent, other)
      decreases m, 2
    {
      hide StringTo, IndentTo, WriteTo;
      WriteIndent(indent + 2);
      WriteString(m.key);
      Put([':', ' ']);
      Write(m.value, indent + 2);
      if !last {
        Put([',']);
      }
      Put(['\n']);
    }

    method WriteItems(v: Json, indent: nat)
      requires v.Arr?
      modifies this
      ensures out == old(out) + ItemsTo(v, 0, indent, other, [])
      decreases v, 0
    {
      hide StringTo, IndentTo, WriteTo, ItemsTo;
      var i := 0;
      while i < |v.items|
        invariant i <= |v.items|
        invariant out + ItemsTo(v, i, indent, other, []) == old(out) + ItemsTo(v, 0, indent, other, [])
      {
        ItemsToIs(v, i, indent, other);
        WriteIndent(indent + 2);
        Write(v.items[i], indent + 2);
        if i + 1 < |v.items| {
          Put([',']);
        }
        Put(['\n']);
        i := i + 1;
      }
      ItemsToIs(v, i, indent, other);
      WriteIndent(indent);
      Put([']']);
    }
  }

  /** The rest of an object: one member and the members behind it, or the closing brace. */
  lemma MembersToIs(v: Json, i: nat, indent: nat, other: real -> string)
    requires v.Obj? && i <= |v.members|
    ensures MembersTo(v, i, indent, other, []) ==
            if i == |v.members| then IndentTo(indent, []) + ['}']
            else MemberText(v.members[i], i + 1 == |v.members|, indent, other) + MembersTo(v, i + 1, indent, other, [])
  {
    hide StringTo, IndentTo, WriteTo;
    if i == |v.members| {
      IndentSplits(indent, ['}'] + []);
    } else {
      MemberSplits(v.members[i], i + 1 == |v.members|, indent, other, MembersTo(v, i + 1, indent, other, []));
    }
  }

  lemma ItemsToIs(v: Json, i: nat, indent: nat, other: real -> string)
    requires v.Arr? && i <= |v.items|
    ensures ItemsTo(v, i, indent, other, []) ==
            if i == |v.items| then IndentTo(indent, []) + [']']
            else ItemText(v.items[i], i + 1 == |v.items|, indent, other) + ItemsTo(v, i + 1, indent, other, [])
  {
    hide StringTo, IndentTo, WriteTo;
    if i == |v.items| {
      IndentSplits(indent, [']'] + []);
    } else {
      ItemSplits(v.items[i], i + 1 == |v.items|, indent, other, ItemsTo(v, i + 1, indent, other, []));
    }
  }
}
