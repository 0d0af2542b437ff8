/**
 * JSON.parse as a recursive-descent parser, and what it says about printed text: printing loses
 * nothing, canonical text is equal exactly for equal values, and objects end where they end.
 */
module JsonParser {
  import opened Wrappers
  import opened Json

  datatype Parse<+T> = Fail | Parsed(value: T, rest: string)

  predicate Space(c: char) {
    c == ' ' || c == '\t' || c == '\n' || c == '\r'
  }

  function Skip(s: string): (r: string)
    ensures |r| <= |s| && (r == "" || !Space(r[0]))
  {
    if s != "" && Space(s[0]) then Skip(s[1..]) else s
  }

  predicate Digit(c: char) {
    '0' <= c <= '9'
  }

  function HexValue(c: char): Option<nat> {
    if '0' <= c <= '9' then Some(c as nat - '0' as nat)
    else if 'a' <= c <= 'f' then Some(c as nat - 'a' as nat + 10)
    else if 'A' <= c <= 'F' then Some(c as nat - 'A' as nat + 10)
    else None
  }

  /** The code unit of four hexadecimal digits. */
  function Hex4(s: string): (r: Option<nat>)
    ensures r.Some? ==> |s| >= 4 && r.value < 0x10000
  {
    if |s| < 4 then None
    else
      var a, b, c, d := HexValue(s[0]), HexValue(s[1]), HexValue(s[2]), HexValue(s[3]);
      if a.Some? && b.Some? && c.Some? && d.Some?
      then Some(a.value * 4096 + b.value * 256 + c.value * 16 + d.value) else None
  }

  /** The character after `\u`; a surrogate pair is one character, a lone surrogate is refused. */
  function ParseUnicode(s: string): (r: Parse<char>)
    ensures r.Parsed? ==> |r.rest| < |s|
  {
    var h := Hex4(s);
    if h.None? then Fail
    else if h.value < 0xD800 || h.value >= 0xE000 then Parsed(h.value as char, s[4..])
    else if h.value < 0xDC00 && |s| >= 10 && s[4] == '\\' && s[5] == 'u' then
      var l := Hex4(s[6..]);
      if l.Some? && 0xDC00 <= l.value < 0xE000
      then Parsed((0x10000 + (h.value - 0xD800) * 0x400 + (l.value - 0xDC00)) as char, s[10..])
      else Fail
    else Fail
  }

  /** One character of a string literal. */
  function ParseChar(s: string): (r: Parse<char>)
    ensures r.Parsed? ==> |r.rest| < |s|
  {
    if s == "" || (s[0] as int) < 0x20 || s[0] == '\"' then Fail
    else if s[0] != '\\' then Parsed(s[0], s[1..])
    else if |s| == 1 then Fail
    else if s[1] == '\"' || s[1] == '\\' || s[1] == '/' then Parsed(s[1], s[2..])
    else if s[1] == 'b' then Parsed(8 as char, s[2..])
    else if s[1] == 'f' then Parsed(12 as char, s[2..])
    else if s[1] == 'n' then Parsed('\n', s[2..])
    else if s[1] == 'r' then Parsed('\r', s[2..])
    else if s[1] == 't' then Parsed('\t', s[2..])
    else if s[1] == 'u' then ParseUnicode(s[2..])
    else Fail
  }

  /** The characters up to the closing quote. */
  function ParseChars(s: string): (r: Parse<string>)
    ensures r.Parsed? ==> |r.rest| < |s|
  {
    if s == "" then Fail
    else if s[0] == '\"' then Parsed("", s[1..])
    else
      match ParseChar(s)
      case Fail => Fail
      case Parsed(c, rest) =>
        match ParseChars(rest)
        case Fail => Fail
        case Parsed(cs, after) => Parsed([c] + cs, after)
  }

  /** The digits at the front, read onto `n`. */
  function ParseDigits(s: string, n: nat): (r: Parse<nat>)
    ensures r.Parsed? && |r.rest| <= |s|
  {
    if s != "" && Digit(s[0]) then ParseDigits(s[1..], 10 * n + (s[0] as nat - '0' as nat)) else Parsed(n, s)
  }

  predicate NumberEnds(rest: string) {
    rest == "" || !(Digit(rest[0]) || rest[0] == '.' || rest[0] == 'e' || rest[0] == 'E')
  }

  /** An unsigned integer: no leading zero, no fraction, no exponent. */
  function ParseNat(s: string): (r: Parse<nat>)
    ensures r.Parsed? ==> |r.rest| < |s|
  {
    if s == "" || !Digit(s[0]) then Fail
    else
      var r := if s[0] == '0' then Parsed(0, s[1..]) else ParseDigits(s[1..], s[0] as nat - '0' as nat);
      if NumberEnds(r.rest) then r else Fail
  }

  predicate Starts(s: string, word: string) {
    |word| <= |s| && s[..|word|] == word
  }

  function ParseScalar(s: string): (r: Parse<Json>)
    ensures r.Parsed? ==> |r.rest| < |s| && WellFormed(r.value) && !r.value.JObj? && !r.value.JArr?
  {
    if s == "" then Fail
    else if s[0] == '\"' then
      match ParseChars(s[1..])
      case Fail => Fail
      case Parsed(t, rest) => Parsed(JStr(t), rest)
    else if s[0] == '-' then
      match ParseNat(s[1..])
      case Fail => Fail
      case Parsed(n, rest) =>
        var m: int := n;
        Parsed(JNum(-m), rest)
    else if Starts(s, "null") then Parsed(JNull, s[4..])
    else if Starts(s, "true") then Parsed(JBool(true), s[4..])
    else if Starts(s, "false") then Parsed(JBool(false), s[5..])
    else
      match ParseNat(s)
      case Fail => Fail
      case Parsed(n, rest) => Parsed(JNum(n), rest)
  }

  /** A value, with any white space before it. */
  function ParseValue(s: string): (r: Parse<Json>)
    ensures r.Parsed? ==> |r.rest| < |s| && WellFormed(r.value)
    decreases |s|, 1
  {
    var t := Skip(s);
    if t != "" && t[0] == '[' then
      var u := Skip(t[1..]);
      if u != "" && u[0] == ']' then Parsed(JArr([]), u[1..]) else ParseElements(t[1..], [])
    else if t != "" && t[0] == '{' then
      var u := Skip(t[1..]);
      if u != "" && u[0] == '}' then Parsed(JObj([]), u[1..]) else ParseMembers(t[1..], [])
    else ParseScalar(t)
  }

  function ParseElements(s: string, acc: seq<Json>): (r: Parse<Json>)
    requires forall i | 0 <= i < |acc| :: WellFormed(acc[i])
    ensures r.Parsed? ==> |r.rest| < |s| && WellFormed(r.value) && r.value.JArr?
    decreases |s|, 2
  {
    match ParseValue(s)
    case Fail => Fail
    case Parsed(v, rest) =>
      var u := Skip(rest);
      if u == "" then Fail
      else if u[0] == ',' then ParseElements(u[1..], acc + [v])
      else if u[0] == ']' then Parsed(JArr(acc + [v]), u[1..])
      else Fail
  }

  /** The key and the colon before a member's value. */
  function ParseKey(s: string): (r: Parse<string>)
    ensures r.Parsed? ==> |r.rest| < |s|
  {
    var t := Skip(s);
    if t == "" || t[0] != '\"' then Fail
    else
      match ParseChars(t[1..])
      case Fail => Fail
      case Parsed(key, rest) =>
        var u := Skip(rest);
        if u != "" && u[0] == ':' then Parsed(key, u[1..]) else Fail
  }

  function ParseMembers(s: string, acc: seq<Field>): (r: Parse<Json>)
    requires WellFormed(JObj(acc))
    ensures r.Parsed? ==> |r.rest| < |s| && WellFormed(r.value) && r.value.JObj?
    decreases |s|, 2
  {
    match ParseKey(s)
    case Fail => Fail
    case Parsed(key, after) =>
      match ParseValue(after)
      case Fail => Fail
      case Parsed(v, rest) =>
        SetFieldWellFormed(acc, key, v);
        var fs := SetField(acc, key, v);
        var u := Skip(rest);
        if u == "" then Fail
        else if u[0] == ',' then ParseMembers(u[1..], fs)
        else if u[0] == '}' then Parsed(JObj(fs), u[1..])
        else Fail
  }

  /** JSON.parse of a whole text; None stands for the SyntaxError it throws. */
  function FromText(s: string): (r: Option<Json>)
    ensures r.Some? ==> WellFormed(r.value)
  {
    match ParseValue(s)
    case Fail => None
    case Parsed(v, rest) => if Skip(rest) == "" then Some(v) else None
  }

  // ---------------------------------------------------------------- strings and numbers

  lemma ParseEscape(c: char, rest: string)
    ensures ParseChar(Escape(c) + rest) == Parsed(c, rest)
    ensures Escape(c) != "" && Escape(c)[0] != '\"'
  {
    var s := Escape(c) + rest;
    if |Escape(c)| == 6 {
      var h := s[2..];
      assert h[0] == '0' && h[1] == '0' && h[2] == HexDigit(c as int / 16) && h[3] == HexDigit(c as int % 16);
      assert Hex4(h) == Some(c as nat);
      assert h[4..] == rest;
    } else if |Escape(c)| == 2 {
      assert s[2..] == rest;
    } else {
      assert s[1..] == rest;
    }
  }

  lemma {:induction false} ParseEscapes(t: string, rest: string)
    ensures ParseChars(EscapeAll(t) + (['\"'] + rest)) == Parsed(t, rest)
  {
    var tail := ['\"'] + rest;
    if t == "" {
      NoMoreChars(rest);
    } else {
      ParseEscapes(t[1..], rest);
      StepChar(t[0], EscapeAll(t[1..]) + tail);
      Regroup(Escape(t[0]), EscapeAll(t[1..]), tail);
      FirstOfText(t);
    }
  }

  lemma NoMoreChars(rest: string)
    ensures ParseChars("" + (['\"'] + rest)) == Parsed("", rest)
  {
    var tail := ['\"'] + rest;
    assert "" + tail == tail;
    assert tail[1..] == rest;
  }

  lemma Regroup(a: string, b: string, c: string)
    ensures a + b + c == a + (b + c)
  {}

  lemma FirstOfText(t: string)
    requires t != ""
    ensures t == [t[0]] + t[1..]
  {}

  /** A bracketed body of two parts, and what follows, from left to right. */
  lemma Bracketed(a: string, b: string, c: string, d: string, e: string)
    ensures a + (b + c) + d + e == a + (b + (c + (d + e)))
  {}

  lemma StepChar(c: char, after: string)
    ensures ParseChars(Escape(c) + after) ==
      if ParseChars(after).Parsed? then Parsed([c] + ParseChars(after).value, ParseChars(after).rest) else Fail
  {
    ParseEscape(c, after);
  }

  lemma ParseQuote(t: string, rest: string)
    ensures Quote(t) + rest == ['\"'] + (EscapeAll(t) + (['\"'] + rest))
    ensures ParseChars((Quote(t) + rest)[1..]) == Parsed(t, rest)
  {
    ParseEscapes(t, rest);
    var s := ['\"'] + (EscapeAll(t) + (['\"'] + rest));
    assert Quote(t) + rest == s;
    assert s[1..] == EscapeAll(t) + (['\"'] + rest);
  }

  lemma {:induction false} DigitsShape(n: nat)
    ensures forall i | 0 <= i < |Digits(n)| :: Digit(Digits(n)[i])
    ensures Digits(n)[0] == '0' ==> n == 0
  {
    if n >= 10 {
      DigitsShape(n / 10);
    }
  }

  lemma {:induction false} ParseAllDigits(n: nat, rest: string)
    ensures ParseDigits(Digits(n) + rest, 0) == ParseDigits(rest, n)
  {
    if n < 10 {
      assert (Digits(n) + rest)[1..] == rest;
    } else {
      var d := ('0' as int + n % 10) as char;
      ParseAllDigits(n / 10, [d] + rest);
      assert Digits(n) + rest == Digits(n / 10) + ([d] + rest);
      DigitStep(d, rest, n / 10);
    }
  }

  lemma DigitStep(d: char, rest: string, n: nat)
    requires Digit(d)
    ensures ParseDigits([d] + rest, n) == ParseDigits(rest, 10 * n + (d as nat - '0' as nat))
  {
    assert ([d] + rest)[1..] == rest;
  }

  lemma ParseNumber(n: nat, rest: string)
    requires NumberEnds(rest)
    ensures ParseNat(Digits(n) + rest) == Parsed(n, rest)
  {
    DigitsShape(n);
    var s := Digits(n) + rest;
    if n == 0 {
      assert s[1..] == rest;
    } else {
      ParseAllDigits(n, rest);
      assert ParseDigits(s, 0) == ParseDigits(s[1..], s[0] as nat - '0' as nat);
      assert ParseDigits(rest, n) == Parsed(n, rest);
    }
  }

  // ---------------------------------------------------------------- printing loses nothing

  /** What may follow a printed value: anything, but not more of a number. */
  predicate MayFollow(v: Json, rest: string) {
    v.JNum? ==> NumberEnds(rest)
  }

  lemma ParsePrintWord(v: Json, rest: string)
    requires v.JNull? || v.JBool?
    ensures ParseScalar(Print(v) + rest) == Parsed(v, rest)
  {
    var s := Print(v) + rest;
    assert "null"[0] == 'n' && "true"[0] == 't' && "false"[0] == 'f';
    assert s[0] == Print(v)[0] && s[..|Print(v)|] == Print(v) && s[|Print(v)|..] == rest;
    if v != JNull {
      assert s[..4][0] == s[0] && "null"[0] != s[0];
      assert v == JBool(false) ==> "true"[0] != s[0];
    }
  }

  lemma NotStarts(s: string, word: string)
    requires s != "" && word != "" && s[0] != word[0]
    ensures !Starts(s, word)
  {
    assert |word| <= |s| ==> s[..|word|][0] == s[0];
  }

  lemma ParseUnsigned(s: string)
    requires s != "" && Digit(s[0]) && ParseNat(s).Parsed?
    ensures ParseScalar(s) == Parsed(JNum(ParseNat(s).value), ParseNat(s).rest)
  {
    assert "null"[0] == 'n' && "true"[0] == 't' && "false"[0] == 'f';
    NotStarts(s, "null");
    NotStarts(s, "true");
    NotStarts(s, "false");
  }

  lemma ParseNegative(n: nat, rest: string)
    requires NumberEnds(rest)
    ensures ParseScalar(['-'] + Digits(n) + rest) == Parsed(JNum(0 - n), rest)
  {
    ParseNumber(n, rest);
    Regroup(['-'], Digits(n), rest);
    assert (['-'] + (Digits(n) + rest))[1..] == Digits(n) + rest;
  }

  lemma ParsePrintNumber(n: int, rest: string)
    requires NumberEnds(rest)
    ensures ParseScalar(Number(n) + rest) == Parsed(JNum(n), rest)
  {
    if n < 0 {
      ParseNegative(-n, rest);
    } else {
      ParseNumber(n, rest);
      DigitsShape(n);
      ParseUnsigned(Digits(n) + rest);
    }
  }

  lemma ParsePrintString(t: string, rest: string)
    ensures ParseScalar(Quote(t) + rest) == Parsed(JStr(t), rest)
  {
    ParseQuote(t, rest);
  }

  lemma ParsePrintScalar(v: Json, rest: string)
    requires !v.JArr? && !v.JObj? && MayFollow(v, rest)
    ensures ParseScalar(Print(v) + rest) == Parsed(v, rest)
  {
    match v
    case JStr(t) => ParsePrintString(t, rest);
    case JNum(n) => ParsePrintNumber(n, rest);
    case _ => ParsePrintWord(v, rest);
  }

  /** The first character of a printed value is no space and no closing bracket. */
  lemma PrintFirst(v: Json)
    ensures Print(v) != "" && !Space(Print(v)[0]) && Print(v)[0] != ']' && Print(v)[0] != '}'
  {
    if v.JNum? && v.n >= 0 {
      DigitsShape(v.n);
      assert Digit(Print(v)[0]);
    }
  }

  // What one step of the parser does on text whose first characters are known.

  lemma StepScalar(s: string)
    requires s != "" && !Space(s[0]) && s[0] != '[' && s[0] != '{'
    ensures ParseValue(s) == ParseScalar(s)
  {}

  lemma StepArray(s: string)
    requires |s| > 1 && s[0] == '[' && !Space(s[1])
    ensures ParseValue(s) == if s[1] == ']' then Parsed(JArr([]), s[2..]) else ParseElements(s[1..], [])
  {
    assert s[1..][0] == s[1] && s[1..][1..] == s[2..];
  }

  lemma StepObject(s: string)
    requires |s| > 1 && s[0] == '{' && !Space(s[1])
    ensures ParseValue(s) == if s[1] == '}' then Parsed(JObj([]), s[2..]) else ParseMembers(s[1..], [])
  {
    assert s[1..][0] == s[1] && s[1..][1..] == s[2..];
  }

  lemma StepElement(s: string, acc: seq<Json>, v: Json, u: string, x: string)
    requires forall i | 0 <= i < |acc| :: WellFormed(acc[i])
    requires ParseValue(s) == Parsed(v, u)
    ensures u == [','] + x ==> ParseElements(s, acc) == ParseElements(x, acc + [v])
    ensures u == [']'] + x ==> ParseElements(s, acc) == Parsed(JArr(acc + [v]), x)
  {
    assert u != "" ==> u == [u[0]] + u[1..];
  }

  lemma StepMember(s: string, acc: seq<Field>, key: string, after: string, v: Json, u: string, x: string)
    requires WellFormed(JObj(acc))
    requires ParseKey(s) == Parsed(key, after) && ParseValue(after) == Parsed(v, u)
    ensures WellFormed(JObj(SetField(acc, key, v)))
    ensures u == [','] + x ==> ParseMembers(s, acc) == ParseMembers(x, SetField(acc, key, v))
    ensures u == ['}'] + x ==> ParseMembers(s, acc) == Parsed(JObj(SetField(acc, key, v)), x)
  {
    SetFieldWellFormed(acc, key, v);
    assert u != "" ==> u == [u[0]] + u[1..];
  }

  /** Parsing what was printed gives the value back and leaves what followed it. */
  lemma {:induction false} ParsePrint(v: Json, rest: string)
    requires WellFormed(v) && MayFollow(v, rest)
    ensures ParseValue(Print(v) + rest) == Parsed(v, rest)
    decreases v, 1, 0
  {
    match v
    case JArr(items) => ParsePrintArray(v, rest);
    case JObj(fs) => ParsePrintObject(v, rest);
    case _ =>
      ParsePrintScalar(v, rest);
      PrintFirst(v);
      var s := Print(v) + rest;
      assert s[0] == Print(v)[0];
      StepScalar(s);
  }

  /** What stands after the opening bracket of an array, from element `i` on. */
  function ItemsFrom(v: Json, i: nat, rest: string): string
    requires v.JArr? && i < |v.items|
  {
    Print(v.items[i]) + AfterItem(v, i, rest)
  }

  function AfterItem(v: Json, i: nat, rest: string): string
    requires v.JArr? && i < |v.items|
  {
    PrintItems(v, i + 1) + ([']'] + rest)
  }

  lemma NextItem(v: Json, i: nat, rest: string)
    requires v.JArr? && i < |v.items|
    ensures AfterItem(v, i, rest) == if i + 1 < |v.items| then [','] + ItemsFrom(v, i + 1, rest) else [']'] + rest
  {
    ItemsStep(v, i + 1);
  }

  lemma ArrayText(v: Json, rest: string)
    requires v.JArr? && v.items != []
    ensures Print(v) + rest == ['['] + ItemsFrom(v, 0, rest)
    ensures var x := ItemsFrom(v, 0, rest); x != "" && !Space(x[0]) && x[0] != ']'
  {
    ArrayParts(v);
    Bracketed(['['], Print(v.items[0]), PrintItems(v, 1), [']'], rest);
    PrintFirst(v.items[0]);
  }

  lemma ArrayParts(v: Json)
    requires v.JArr? && v.items != []
    ensures Print(v) == ['['] + (Print(v.items[0]) + PrintItems(v, 1)) + [']']
  {
    ItemsStep(v, 0);
  }

  lemma ParsePrintArray(v: Json, rest: string)
    requires WellFormed(v) && v.JArr?
    ensures ParseValue(Print(v) + rest) == Parsed(v, rest)
    decreases v, 0, |v.items| + 1
  {
    if v.items == [] {
      EmptyArrayText(v, rest);
    } else {
      ArrayText(v, rest);
      ParsePrintItems(v, 0, rest);
      assert v.items[..0] == [];
      StepArray(['['] + ItemsFrom(v, 0, rest));
      assert (['['] + ItemsFrom(v, 0, rest))[1..] == ItemsFrom(v, 0, rest);
    }
  }

  lemma EmptyArrayText(v: Json, rest: string)
    requires v == JArr([])
    ensures ParseValue(Print(v) + rest) == Parsed(v, rest)
  {
    ItemsStep(v, 0);
    var s := ['[', ']'] + rest;
    assert Print(v) + rest == s && s[2..] == rest;
    StepArray(s);
  }

  lemma {:induction false} ParsePrintItems(v: Json, i: nat, rest: string)
    requires WellFormed(v) && v.JArr? && i < |v.items|
    ensures ParseElements(ItemsFrom(v, i, rest), v.items[..i]) == Parsed(v, rest)
    decreases v, 0, |v.items| - i
  {
    var after := AfterItem(v, i, rest);
    var done := v.items[..i] + [v.items[i]];
    assert done == v.items[..i + 1];
    NextItem(v, i, rest);
    var x := rest;
    if i + 1 == |v.items| {
      assert done == v.items;
    } else {
      x := ItemsFrom(v, i + 1, rest);
      ParsePrintItems(v, i + 1, rest);
    }
    AfterItemEnds(v, i, rest);
    ParsePrint(v.items[i], after);
    StepElement(ItemsFrom(v, i, rest), v.items[..i], v.items[i], after, x);
  }

  lemma AfterItemEnds(v: Json, i: nat, rest: string)
    requires v.JArr? && i < |v.items|
    ensures NumberEnds(AfterItem(v, i, rest))
  {
    NextItem(v, i, rest);
  }

  /** What stands after the opening brace of an object, from member `i` on. */
  function FieldsFrom(v: Json, i: nat, rest: string): string
    requires v.JObj? && i < |v.fields|
  {
    Member(v, i) + AfterField(v, i, rest)
  }

  function AfterField(v: Json, i: nat, rest: string): string
    requires v.JObj? && i < |v.fields|
  {
    PrintFields(v, i + 1) + (['}'] + rest)
  }

  lemma NextField(v: Json, i: nat, rest: string)
    requires v.JObj? && i < |v.fields|
    ensures AfterField(v, i, rest) == if i + 1 < |v.fields| then [','] + FieldsFrom(v, i + 1, rest) else ['}'] + rest
    ensures NumberEnds(AfterField(v, i, rest))
  {
    FieldsStep(v, i + 1);
    if i + 1 < |v.fields| {
      var p, q := Member(v, i + 1), PrintFields(v, i + 2);
      assert PrintFields(v, i + 1) == [','] + p + q;
      assert ([','] + p + q) + (['}'] + rest) == [','] + (p + (q + (['}'] + rest)));
    }
  }

  lemma ObjectText(v: Json, rest: string)
    requires v.JObj? && v.fields != []
    ensures Print(v) + rest == ['{'] + FieldsFrom(v, 0, rest)
    ensures FieldsFrom(v, 0, rest) != "" && FieldsFrom(v, 0, rest)[0] == '\"'
  {
    ObjectParts(v);
    Bracketed(['{'], Member(v, 0), PrintFields(v, 1), ['}'], rest);
    MemberQuoted(v);
  }

  lemma ObjectParts(v: Json)
    requires v.JObj? && v.fields != []
    ensures Print(v) == ['{'] + (Member(v, 0) + PrintFields(v, 1)) + ['}']
  {
    FieldsStep(v, 0);
  }

  lemma MemberQuoted(v: Json)
    requires v.JObj? && v.fields != []
    ensures Member(v, 0) != "" && Member(v, 0)[0] == '\"'
  {}

  lemma ParsePrintObject(v: Json, rest: string)
    requires WellFormed(v) && v.JObj?
    ensures ParseValue(Print(v) + rest) == Parsed(v, rest)
    decreases v, 0, |v.fields| + 1
  {
    if v.fields == [] {
      EmptyObjectText(v, rest);
    } else {
      ObjectText(v, rest);
      ParsePrintFields(v, 0, rest);
      assert v.fields[..0] == [];
      StepObject(['{'] + FieldsFrom(v, 0, rest));
      assert (['{'] + FieldsFrom(v, 0, rest))[1..] == FieldsFrom(v, 0, rest);
    }
  }

  lemma EmptyObjectText(v: Json, rest: string)
    requires v == JObj([])
    ensures ParseValue(Print(v) + rest) == Parsed(v, rest)
  {
    FieldsStep(v, 0);
    var s := ['{', '}'] + rest;
    assert Print(v) + rest == s && s[2..] == rest;
    StepObject(s);
  }

  function Member(v: Json, i: nat): string
    requires v.JObj? && i < |v.fields|
  {
    Entry(v.fields[i].key, Print(v.fields[i].value))
  }

  lemma StepKey(key: string, u: string)
    requires u != "" && u[0] == ':'
    ensures ParseKey(Quote(key) + u) == Parsed(key, u[1..])
  {
    ParseQuote(key, u);
    assert (Quote(key) + u)[0] == '\"';
  }

  lemma ParseEntry(key: string, text: string, rest: string)
    ensures ParseKey(Entry(key, text) + rest) == Parsed(key, text + rest)
  {
    var u := [':'] + (text + rest);
    Regroup(Quote(key) + [':'], text, rest);
    Regroup(Quote(key), [':'], text + rest);
    StepKey(key, u);
    assert u[1..] == text + rest;
  }

  lemma SetNext(v: Json, i: nat)
    requires WellFormed(v) && v.JObj? && i < |v.fields|
    ensures WellFormed(JObj(v.fields[..i]))
    ensures SetField(v.fields[..i], v.fields[i].key, v.fields[i].value) == v.fields[..i + 1]
  {
    var fs := v.fields;
    assert Keys(fs[..i]) == Keys(fs)[..i];
    assert fs[i].key !in Keys(fs[..i]) by {
      forall j | 0 <= j < i ensures Keys(fs)[j] != fs[i].key {
        assert Keys(fs)[j] != Keys(fs)[i];
      }
    }
    SetFieldKeys(fs[..i], fs[i].key, fs[i].value);
    assert fs[..i] + [fs[i]] == fs[..i + 1];
  }

  lemma {:induction false} ParsePrintFields(v: Json, i: nat, rest: string)
    requires WellFormed(v) && v.JObj? && i < |v.fields|
    ensures WellFormed(JObj(v.fields[..i]))
    ensures ParseMembers(FieldsFrom(v, i, rest), v.fields[..i]) == Parsed(v, rest)
    decreases v, 0, |v.fields| - i
  {
    var after := AfterField(v, i, rest);
    SetNext(v, i);
    NextField(v, i, rest);
    var x := rest;
    if i + 1 == |v.fields| {
      assert v.fields[..i + 1] == v.fields;
    } else {
      x := FieldsFrom(v, i + 1, rest);
      ParsePrintFields(v, i + 1, rest);
    }
    var text := Print(v.fields[i].value);
    ParseEntry(v.fields[i].key, text, after);
    ParsePrint(v.fields[i].value, after);
    StepMember(FieldsFrom(v, i, rest), v.fields[..i], v.fields[i].key, text + after, v.fields[i].value, after, x);
  }

  /** JSON.parse(JSON.stringify(v)) is v. */
  lemma TextRoundTrip(v: Json)
    requires WellFormed(v)
    ensures FromText(Print(v)) == Some(v)
  {
    ParsePrint(v, "");
    assert Print(v) + "" == Print(v);
  }

  /** Parsing canonical text gives the value up to key order. */
  lemma CanonicalRoundTrip(v: Json)
    requires WellFormed(v)
    ensures FromText(Canonical(v)) == Some(Canon(v)) && Same(v, Canon(v))
  {
    CanonWellFormed(v);
    TextRoundTrip(Canon(v));
    CanonIdempotent(v);
    SameCanon(v, Canon(v));
  }

  /** Canonical text is injective up to key order. */
  lemma CanonicalInjective(v: Json, w: Json)
    requires WellFormed(v) && WellFormed(w)
    ensures Canonical(v) == Canonical(w) <==> Same(v, w)
  {
    SameCanon(v, w);
    CanonWellFormed(v);
    CanonWellFormed(w);
    TextRoundTrip(Canon(v));
    TextRoundTrip(Canon(w));
  }

  /** Two objects printed one after another can be told apart in one way only. */
  lemma SplitsOneWay(v: Json, w: Json, x: string, y: string)
    requires WellFormed(v) && WellFormed(w) && !v.JNum? && !w.JNum?
    requires Canonical(v) + x == Canonical(w) + y
    ensures Same(v, w) && x == y
  {
    CanonWellFormed(v);
    CanonWellFormed(w);
    ParsePrint(Canon(v), x);
    ParsePrint(Canon(w), y);
    SameCanon(v, w);
  }

  // ---------------------------------------------------------------- text that is followed by more

  lemma {:induction false} SkipAppend(s: string, x: string)
    requires Skip(s) != ""
    ensures Skip(s + x) == Skip(s) + x
  {
    if Space(s[0]) {
      SkipAppend(s[1..], x);
      assert (s + x)[1..] == s[1..] + x;
    }
  }

  lemma ParseCharAppend(s: string, x: string)
    requires ParseChar(s).Parsed?
    ensures ParseChar(s + x) == Parsed(ParseChar(s).value, ParseChar(s).rest + x)
  {
    var t := s + x;
    assert t[0] == s[0] && t[1..] == s[1..] + x;
    if s[0] == '\\' {
      assert t[1] == s[1] && t[2..] == s[2..] + x;
      if s[1] == 'u' {
        ParseUnicodeAppend(s[2..], x);
      }
    }
  }

  lemma ParseUnicodeAppend(u: string, x: string)
    requires ParseUnicode(u).Parsed?
    ensures ParseUnicode(u + x) == Parsed(ParseUnicode(u).value, ParseUnicode(u).rest + x)
  {
    assert |u| >= 4 && (u + x)[4..] == u[4..] + x;
    assert Hex4(u + x) == Hex4(u);
    if |u| >= 10 {
      assert (u + x)[6..] == u[6..] + x && (u + x)[10..] == u[10..] + x;
      assert |u[6..]| >= 4 ==> Hex4(u[6..] + x) == Hex4(u[6..]);
    }
  }

  lemma {:induction false} ParseCharsAppend(s: string, x: string)
    requires ParseChars(s).Parsed?
    ensures ParseChars(s + x) == Parsed(ParseChars(s).value, ParseChars(s).rest + x)
  {
    assert (s + x)[0] == s[0] && (s + x)[1..] == s[1..] + x;
    if s[0] != '\"' {
      ParseCharAppend(s, x);
      ParseCharsAppend(ParseChar(s).rest, x);
    }
  }

  lemma {:induction false} ParseDigitsAppend(s: string, n: nat, x: string)
    requires ParseDigits(s, n).rest != ""
    ensures ParseDigits(s + x, n) == Parsed(ParseDigits(s, n).value, ParseDigits(s, n).rest + x)
  {
    assert (s + x)[0] == s[0] && (s + x)[1..] == s[1..] + x;
    if Digit(s[0]) {
      ParseDigitsAppend(s[1..], 10 * n + (s[0] as nat - '0' as nat), x);
    }
  }

  lemma ParseNatAppend(s: string, x: string)
    requires ParseNat(s).Parsed? && ParseNat(s).rest != ""
    ensures ParseNat(s + x) == Parsed(ParseNat(s).value, ParseNat(s).rest + x)
  {
    assert (s + x)[0] == s[0] && (s + x)[1..] == s[1..] + x;
    if s[0] != '0' {
      ParseDigitsAppend(s[1..], s[0] as nat - '0' as nat, x);
    }
  }

  /** Text that closed itself before its end: a number must be seen to end. */
  predicate Closed(r: Parse<Json>) {
    r.Parsed? && (r.value.JNum? ==> r.rest != "")
  }

  lemma ParseScalarAppend(s: string, x: string)
    requires Closed(ParseScalar(s))
    ensures ParseScalar(s + x) == Parsed(ParseScalar(s).value, ParseScalar(s).rest + x)
  {
    var t := s + x;
    assert t[0] == s[0] && t[1..] == s[1..] + x;
    if s[0] == '\"' {
      ParseCharsAppend(s[1..], x);
    } else if s[0] == '-' {
      ParseNatAppend(s[1..], x);
    } else if s[0] == 'n' || s[0] == 't' || s[0] == 'f' {
      assert "null"[0] == 'n' && "true"[0] == 't' && "false"[0] == 'f';
      assert |s| >= 4 && t[..4] == s[..4] && t[4..] == s[4..] + x;
      if s[0] == 'f' {
        assert |s| >= 5 && t[..5] == s[..5] && t[5..] == s[5..] + x;
      }
    } else {
      assert "null"[0] == 'n' && "true"[0] == 't' && "false"[0] == 'f';
      ParseNatAppend(s, x);
    }
  }

  lemma SkipFirst(s: string, u: string, x: string)
    requires Skip(s) == u && u != ""
    ensures Skip(s + x) == u + x && (u + x)[0] == u[0] && (u + x)[1..] == u[1..] + x
  {
    SkipAppend(s, x);
  }

  /** Appending text to a parsed value changes nothing but what is left. */
  lemma {:induction false} ParseValueAppend(s: string, x: string)
    requires Closed(ParseValue(s))
    ensures ParseValue(s + x) == Parsed(ParseValue(s).value, ParseValue(s).rest + x)
    decreases |s|, 1
  {
    var t := Skip(s);
    SkipFirst(s, t, x);
    if t[0] == '[' {
      var u := Skip(t[1..]);
      if u == "" || u[0] != ']' {
        ParseElementsAppend(t[1..], [], x);
      }
      SkipFirst(t[1..], u, x);
    } else if t[0] == '{' {
      var u := Skip(t[1..]);
      if u == "" || u[0] != '}' {
        ParseMembersAppend(t[1..], [], x);
      }
      SkipFirst(t[1..], u, x);
    } else {
      ParseScalarAppend(t, x);
    }
  }

  lemma {:induction false} ParseElementsAppend(s: string, acc: seq<Json>, x: string)
    requires forall i | 0 <= i < |acc| :: WellFormed(acc[i])
    requires ParseElements(s, acc).Parsed?
    ensures Skip(s) != ""
    ensures ParseElements(s + x, acc) == Parsed(ParseElements(s, acc).value, ParseElements(s, acc).rest + x)
    decreases |s|, 2
  {
    var p := ParseValue(s);
    var u := Skip(p.rest);
    ParseValueAppend(s, x);
    SkipFirst(p.rest, u, x);
    if u[0] == ',' {
      ParseElementsAppend(u[1..], acc + [p.value], x);
    }
  }

  lemma ParseKeyAppend(s: string, x: string)
    requires ParseKey(s).Parsed?
    ensures Skip(s) != ""
    ensures ParseKey(s + x) == Parsed(ParseKey(s).value, ParseKey(s).rest + x)
  {
    var t := Skip(s);
    SkipFirst(s, t, x);
    ParseCharsAppend(t[1..], x);
    var p := ParseChars(t[1..]);
    SkipFirst(p.rest, Skip(p.rest), x);
  }

  lemma {:induction false} ParseMembersAppend(s: string, acc: seq<Field>, x: string)
    requires WellFormed(JObj(acc))
    requires ParseMembers(s, acc).Parsed?
    ensures Skip(s) != ""
    ensures ParseMembers(s + x, acc) == Parsed(ParseMembers(s, acc).value, ParseMembers(s, acc).rest + x)
    decreases |s|, 2
  {
    ParseKeyAppend(s, x);
    var after := ParseKey(s).rest;
    var p := ParseValue(after);
    var u := Skip(p.rest);
    ParseValueAppend(after, x);
    SkipFirst(p.rest, u, x);
    SetFieldWellFormed(acc, ParseKey(s).value, p.value);
    if u[0] == ',' {
      ParseMembersAppend(u[1..], SetField(acc, ParseKey(s).value, p.value), x);
    }
  }
}
