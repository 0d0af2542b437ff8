/** How many bytes a printed value has, and what replacing one field does to that. */
module Sizes {
  import opened Json
  import Utf8
  import Base64

  /** The bytes of a text. */
  function TextSize(s: string): nat {
    |Utf8.Encode(s)|
  }

  /** The bytes of JSON.stringify(v). */
  function Size(v: Json): nat {
    TextSize(Print(v))
  }

  lemma TextSizeConcat(a: string, b: string)
    ensures TextSize(a + b) == TextSize(a) + TextSize(b)
  {
    Utf8.EncodeConcat(a, b);
  }

  lemma CharSize(c: char)
    requires (c as int) < 0x80
    ensures TextSize([c]) == 1
  {
    Utf8.EncodeAscii([c]);
  }

  /** A field: its key, a colon and its value. */
  function FieldSize(f: Field): nat {
    TextSize(Quote(f.key)) + 1 + Size(f.value)
  }

  function FieldsSum(fs: seq<Field>): nat {
    if fs == [] then 0 else FieldSize(fs[0]) + FieldsSum(fs[1..])
  }

  lemma EntrySize(key: string, text: string)
    ensures TextSize(Entry(key, text)) == TextSize(Quote(key)) + 1 + TextSize(text)
  {
    TextSizeConcat(Quote(key) + [':'], text);
    TextSizeConcat(Quote(key), [':']);
    CharSize(':');
  }

  /** The fields from `i` on, and a comma before each but the first of all. */
  lemma {:induction false} PrintFieldsSize(v: Json, i: nat)
    requires v.JObj? && i <= |v.fields|
    ensures TextSize(PrintFields(v, i))
      == FieldsSum(v.fields[i..]) + if i == 0 && v.fields != [] then |v.fields| - 1 else |v.fields| - i
    decreases |v.fields| - i
  {
    FieldsStep(v, i);
    if i < |v.fields| {
      PrintFieldsSize(v, i + 1);
      var f := v.fields[i];
      var comma, entry := if i > 0 then [','] else "", Entry(f.key, Print(f.value));
      EntrySize(f.key, Print(f.value));
      TextSizeConcat(comma + entry, PrintFields(v, i + 1));
      TextSizeConcat(comma, entry);
      CharSize(',');
      assert v.fields[i..][1..] == v.fields[i + 1..];
    }
  }

  lemma ObjectSize(fs: seq<Field>)
    ensures Size(JObj(fs)) == FieldsSum(fs) + if fs == [] then 2 else |fs| + 1
  {
    var v := JObj(fs);
    PrintFieldsSize(v, 0);
    TextSizeConcat(['{'] + PrintFields(v, 0), ['}']);
    TextSizeConcat(['{'], PrintFields(v, 0));
    CharSize('{');
    CharSize('}');
    assert fs[0..] == fs;
  }

  /** Whatever the two values, the object grows as the value does. */
  lemma {:induction false} SetFieldSum(fs: seq<Field>, key: string, a: Json, b: Json)
    ensures |SetField(fs, key, a)| == |SetField(fs, key, b)| > 0
    ensures FieldsSum(SetField(fs, key, a)) + Size(b) == FieldsSum(SetField(fs, key, b)) + Size(a)
  {
    var x, y := SetField(fs, key, a), SetField(fs, key, b);
    if fs == [] {
    } else if fs[0].key == key {
      assert x[1..] == fs[1..] && y[1..] == fs[1..];
    } else {
      SetFieldSum(fs[1..], key, a, b);
      assert x[1..] == SetField(fs[1..], key, a) && y[1..] == SetField(fs[1..], key, b);
    }
  }

  lemma PutSize(v: Json, key: string, a: Json, b: Json)
    requires v.JObj?
    ensures Size(v.Put(key, a)) + Size(b) == Size(v.Put(key, b)) + Size(a)
  {
    SetFieldSum(v.fields, key, a, b);
    ObjectSize(SetField(v.fields, key, a));
    ObjectSize(SetField(v.fields, key, b));
  }

  lemma {:induction false} PlainEscapes(s: string)
    requires Base64.Plain(s)
    ensures EscapeAll(s) == s && Utf8.Ascii(s)
  {
    if s != "" {
      PlainEscapes(s[1..]);
      PlainEscape(s[0]);
      assert s == [s[0]] + s[1..];
    }
  }

  lemma PlainEscape(c: char)
    requires 0x20 <= c as int < 0x7F && c != '\"' && c != '\\'
    ensures Escape(c) == [c]
  {}

  /** A plain string takes one byte a character, and its quotes. */
  lemma PlainSize(s: string)
    requires Base64.Plain(s)
    ensures Size(JStr(s)) == |s| + 2
  {
    PlainEscapes(s);
    assert Quote(s) == ['\"'] + s + ['\"'];
    Utf8.EncodeAscii(Quote(s));
  }
}
