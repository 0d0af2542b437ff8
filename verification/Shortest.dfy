/**
 * Canonical text is the shortest there is: no text that JSON.parse reads as the same value has fewer characters.  So it
 * holds no white space, and escapes nothing that need not be escaped nor in a longer way than need be.
 */
module Shortest {
  import opened Wrappers
  import opened Json
  import opened JsonParser

  // ---------------------------------------------------------------- strings and numbers

  lemma EscapeShortest(t: string)
    requires ParseChar(t).Parsed?
    ensures |Escape(ParseChar(t).value)| <= |t| - |ParseChar(t).rest|
  {}

  lemma {:induction false} CharsShortest(t: string)
    requires ParseChars(t).Parsed?
    ensures |EscapeAll(ParseChars(t).value)| + 1 <= |t| - |ParseChars(t).rest|
  {
    if t[0] != '\"' {
      var c, rest := ParseChar(t).value, ParseChar(t).rest;
      EscapeShortest(t);
      CharsShortest(rest);
      var cs := ParseChars(rest).value;
      assert ([c] + cs)[1..] == cs;
    }
  }

  /** What is escaped: the quote, the backslash and control characters, with small letters in hexadecimal. */
  lemma EscapedOnly(c: char)
    ensures Escape(c) == [c] <==> c != '\"' && c != '\\' && c as int >= 0x20
    ensures Escape(c) != [c] ==> forall i | 0 <= i < |Escape(c)| :: !('A' <= Escape(c)[i] <= 'Z')
  {}

  lemma {:induction false} DigitsLength(s: string, n: nat)
    requires n > 0
    ensures ParseDigits(s, n).value > 0
    ensures |Digits(ParseDigits(s, n).value)| == |Digits(n)| + |s| - |ParseDigits(s, n).rest|
  {
    if s != "" && Digit(s[0]) {
      var d := s[0] as nat - '0' as nat;
      TenTimes(n, d);
      DigitsLength(s[1..], 10 * n + d);
    }
  }

  lemma TenTimes(n: nat, d: nat)
    requires n > 0 && d < 10
    ensures (10 * n + d) / 10 == n && |Digits(10 * n + d)| == |Digits(n)| + 1
  {}

  lemma NatShortest(s: string)
    requires ParseNat(s).Parsed?
    ensures |Digits(ParseNat(s).value)| <= |s| - |ParseNat(s).rest|
  {
    if s[0] != '0' {
      DigitsLength(s[1..], s[0] as nat - '0' as nat);
    }
  }

  lemma ScalarShortest(s: string)
    requires ParseScalar(s).Parsed?
    ensures |Print(ParseScalar(s).value)| <= |s| - |ParseScalar(s).rest|
  {
    if s[0] == '\"' {
      CharsShortest(s[1..]);
    } else if s[0] == '-' {
      NatShortest(s[1..]);
    } else if !Starts(s, "null") && !Starts(s, "true") && !Starts(s, "false") {
      NatShortest(s);
    }
  }

  // ---------------------------------------------------------------- how long a printed value is

  function ItemsLength(items: seq<Json>): nat {
    if items == [] then 0
    else ItemsLength(items[..|items| - 1]) + |Print(items[|items| - 1])| + 1
  }

  /** A field and the comma that goes with it. */
  function FieldLength(f: Field): nat {
    |Quote(f.key)| + |Print(f.value)| + 2
  }

  function FieldsLength(fs: seq<Field>): nat {
    if fs == [] then 0 else FieldLength(fs[0]) + FieldsLength(fs[1..])
  }

  lemma {:induction false} PrintItemsLength(v: Json, i: nat)
    requires v.JArr? && i <= |v.items|
    ensures |PrintItems(v, i)| + ItemsLength(v.items[..i])
      == ItemsLength(v.items) - if i == 0 && v.items != [] then 1 else 0
    decreases |v.items| - i
  {
    ItemsStep(v, i);
    if i == |v.items| {
      assert v.items[..i] == v.items;
    } else {
      PrintItemsLength(v, i + 1);
      assert v.items[..i + 1][..i] == v.items[..i];
    }
  }

  lemma ArrayLength(items: seq<Json>)
    ensures |Print(JArr(items))| == ItemsLength(items) + if items == [] then 2 else 1
  {
    PrintItemsLength(JArr(items), 0);
  }

  lemma {:induction false} PrintFieldsLength(v: Json, i: nat)
    requires v.JObj? && i <= |v.fields|
    ensures |PrintFields(v, i)| == FieldsLength(v.fields[i..]) - if i == 0 && v.fields != [] then 1 else 0
    decreases |v.fields| - i
  {
    FieldsStep(v, i);
    if i < |v.fields| {
      PrintFieldsLength(v, i + 1);
      assert v.fields[i..][1..] == v.fields[i + 1..];
    }
  }

  lemma ObjectLength(fs: seq<Field>)
    ensures |Print(JObj(fs))| == FieldsLength(fs) + if fs == [] then 2 else 1
  {
    PrintFieldsLength(JObj(fs), 0);
    assert fs[0..] == fs;
  }

  /** Setting a field adds what the field takes, at most. */
  lemma {:induction false} SetFieldLength(fs: seq<Field>, key: string, v: Json)
    ensures FieldsLength(SetField(fs, key, v)) <= FieldsLength(fs) + FieldLength(Field(key, v))
  {
    if fs != [] {
      if fs[0].key == key {
        assert SetField(fs, key, v)[1..] == fs[1..];
      } else {
        SetFieldLength(fs[1..], key, v);
        assert SetField(fs, key, v)[1..] == SetField(fs[1..], key, v);
      }
    }
  }

  // ---------------------------------------------------------------- a parsed value prints no longer

  lemma {:induction false} ValueShortest(s: string)
    requires ParseValue(s).Parsed?
    ensures |Print(ParseValue(s).value)| <= |s| - |ParseValue(s).rest|
    decreases |s|, 1
  {
    var t := Skip(s);
    if t != "" && t[0] == '[' {
      ArrayLength([]);
      if !Closed(t[1..], ']') {
        ElementsShortest(t[1..], []);
      }
    } else if t != "" && t[0] == '{' {
      ObjectLength([]);
      if !Closed(t[1..], '}') {
        MembersShortest(t[1..], []);
      }
    } else {
      ScalarShortest(t);
    }
  }

  predicate Closed(s: string, bracket: char) {
    Skip(s) != "" && Skip(s)[0] == bracket
  }

  lemma {:induction false} ElementsShortest(s: string, acc: seq<Json>)
    requires (forall i | 0 <= i < |acc| :: WellFormed(acc[i])) && ParseElements(s, acc).Parsed?
    ensures |Print(ParseElements(s, acc).value)| <= ItemsLength(acc) + |s| - |ParseElements(s, acc).rest| + 1
    decreases |s|, 2
  {
    var v, rest := ParseValue(s).value, ParseValue(s).rest;
    ValueShortest(s);
    var u, more := Skip(rest), acc + [v];
    assert more[..|acc|] == acc;
    if u[0] == ',' {
      ElementsShortest(u[1..], more);
    } else {
      ArrayLength(more);
    }
  }

  lemma KeyShortest(s: string)
    requires ParseKey(s).Parsed?
    ensures |Quote(ParseKey(s).value)| + 1 <= |s| - |ParseKey(s).rest|
  {
    CharsShortest(Skip(s)[1..]);
  }

  lemma {:induction false} MembersShortest(s: string, acc: seq<Field>)
    requires WellFormed(JObj(acc)) && ParseMembers(s, acc).Parsed?
    ensures |Print(ParseMembers(s, acc).value)| <= FieldsLength(acc) + |s| - |ParseMembers(s, acc).rest| + 1
    decreases |s|, 2
  {
    var key, after := ParseKey(s).value, ParseKey(s).rest;
    KeyShortest(s);
    var v, rest := ParseValue(after).value, ParseValue(after).rest;
    ValueShortest(after);
    SetFieldWellFormed(acc, key, v);
    SetFieldLength(acc, key, v);
    var u, fs := Skip(rest), SetField(acc, key, v);
    if u[0] == ',' {
      MembersShortest(u[1..], fs);
    } else {
      ObjectLength(fs);
    }
  }

  // ---------------------------------------------------------------- the order of keys takes no room

  /** The fields of an object under these keys. */
  function LengthAt(v: Json, ks: seq<string>): nat {
    if ks == [] then 0
    else (if Get(v, ks[0]).Some? then FieldLength(Field(ks[0], Get(v, ks[0]).value)) else 0) + LengthAt(v, ks[1..])
  }

  lemma {:induction false} InsertLength(v: Json, k: string, ks: seq<string>)
    ensures LengthAt(v, Insert(k, ks)) == LengthAt(v, [k] + ks)
  {
    assert ([k] + ks)[1..] == ks;
    if ks != [] && !KeyLess(k, ks[0]) {
      InsertLength(v, k, ks[1..]);
      assert ([k] + ks[1..])[1..] == ks[1..] && ([ks[0]] + Insert(k, ks[1..]))[1..] == Insert(k, ks[1..]);
    }
  }

  lemma {:induction false} SortLength(v: Json, ks: seq<string>)
    ensures LengthAt(v, SortKeys(ks)) == LengthAt(v, ks)
  {
    if ks != [] {
      SortLength(v, ks[1..]);
      InsertLength(v, ks[0], SortKeys(ks[1..]));
      assert ([ks[0]] + SortKeys(ks[1..]))[1..] == SortKeys(ks[1..]);
    }
  }

  /** The fields from `i` on, read by their keys. */
  lemma {:induction false} FieldsLengthAt(v: Json, i: nat)
    requires WellFormed(v) && v.JObj? && i <= |v.fields|
    ensures FieldsLength(v.fields[i..]) == LengthAt(v, Keys(v.fields)[i..])
    decreases |v.fields| - i
  {
    if i < |v.fields| {
      FieldsLengthAt(v, i + 1);
      GetAt(v.fields, i);
      assert v.fields[i..][1..] == v.fields[i + 1..] && Keys(v.fields)[i..][1..] == Keys(v.fields)[i + 1..];
    }
  }

  /** And of the canonical form, when every field's value prints as long. */
  lemma {:induction false} CanonFieldsLength(v: Json, ks: seq<string>)
    requires v.JObj? && forall k | k in ks :: k in Keys(v.fields)
    requires forall k | k in ks ::
      Get(v, k).Some? && |Print(Canon(Get(v, k).value))| == |Print(Get(v, k).value)|
    ensures FieldsLength(CanonFields(v, ks)) == LengthAt(v, ks)
  {
    if ks != [] {
      assert ks[0] in ks && forall k | k in ks[1..] :: k in ks;
      CanonFieldsLength(v, ks[1..]);
      GetPart(v, ks[0]);
      assert CanonFields(v, ks)[1..] == CanonFields(v, ks[1..]);
    }
  }

  lemma {:induction false} CanonItemsLength(v: Json, w: Json, n: nat)
    requires v.JArr? && w.JArr? && n <= |v.items| == |w.items|
    requires forall i | 0 <= i < n :: |Print(v.items[i])| == |Print(w.items[i])|
    ensures ItemsLength(v.items[..n]) == ItemsLength(w.items[..n])
  {
    if n > 0 {
      CanonItemsLength(v, w, n - 1);
      assert v.items[..n][..n - 1] == v.items[..n - 1] && w.items[..n][..n - 1] == w.items[..n - 1];
    }
  }

  /** Sorting the keys changes nothing in length. */
  lemma {:induction false} CanonicalLength(v: Json)
    requires WellFormed(v)
    ensures |Canonical(v)| == |Print(v)|
    decreases v
  {
    match v
    case JArr(items) =>
      var w := Canon(v);
      forall i | 0 <= i < |items| ensures |Print(items[i])| == |Print(w.items[i])| {
        CanonicalLength(items[i]);
      }
      CanonItemsLength(v, w, |items|);
      assert v.items[..|items|] == items && w.items[..|items|] == w.items;
      ArrayLength(items);
      ArrayLength(w.items);
    case JObj(fs) =>
      var ks := SortKeys(Keys(fs));
      SortKeysSorts(Keys(fs));
      forall k | k in ks ensures Get(v, k).Some? && |Print(Canon(Get(v, k).value))| == |Print(Get(v, k).value)| {
        GetSmaller(v, k);
        CanonicalLength(Get(v, k).value);
      }
      CanonFieldsLength(v, ks);
      SortLength(v, Keys(fs));
      FieldsLengthAt(v, 0);
      assert fs[0..] == fs && Keys(fs)[0..] == Keys(fs);
      ObjectLength(fs);
      ObjectLength(CanonFields(v, ks));
    case _ =>
  }

  /** No text that is read as this value is shorter than its canonical text. */
  lemma CanonicalShortest(text: string)
    requires FromText(text).Some?
    ensures |Canonical(FromText(text).value)| <= |text|
  {
    ValueShortest(text);
    CanonicalLength(FromText(text).value);
  }
}
