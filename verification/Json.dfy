/**
 * JSON values, how they are printed, and the canonical form: keys sorted at every level, no spaces.
 * Numbers are integers.  Strings are sequences of Unicode scalar values.
 */
module Json {
  import opened Wrappers

  datatype Field = Field(key: string, value: Json)

  /** An object lists its fields in insertion order. */
  datatype Json =
    | JNull
    | JBool(b: bool)
    | JNum(n: int)
    | JStr(s: string)
    | JArr(items: seq<Json>)
    | JObj(fields: seq<Field>)
  {
    /** Assignment to a property of an object: `o[key] = v`. */
    function Put(key: string, v: Json): Json {
      if JObj? then JObj(SetField(fields, key, v)) else this
    }
  }

  function Keys(fs: seq<Field>): (ks: seq<string>) {
    seq(|fs|, i requires 0 <= i < |fs| => fs[i].key)
  }

  ghost predicate Distinct(ks: seq<string>) {
    forall i, j | 0 <= i < j < |ks| :: ks[i] != ks[j]
  }

  /** What JSON.parse produces: the keys of an object are distinct. */
  ghost predicate WellFormed(v: Json) {
    match v
    case JArr(items) => forall i | 0 <= i < |items| :: WellFormed(items[i])
    case JObj(fs) => Distinct(Keys(fs)) && forall i | 0 <= i < |fs| :: WellFormed(fs[i].value)
    case _ => true
  }

  /** The value of a key: `v[key]`. */
  function Get(v: Json, key: string): Option<Json> {
    if v.JObj? then GetField(v.fields, key) else None
  }

  function GetField(fs: seq<Field>, key: string): Option<Json> {
    if fs == [] then None else if fs[0].key == key then Some(fs[0].value) else GetField(fs[1..], key)
  }

  lemma {:induction false} GetFieldFinds(fs: seq<Field>, key: string)
    ensures var r := GetField(fs, key);
      if r.Some? then exists i :: 0 <= i < |fs| && fs[i] == Field(key, r.value) else key !in Keys(fs)
  {
    if fs != [] && fs[0].key != key {
      GetFieldFinds(fs[1..], key);
      var r := GetField(fs[1..], key);
      if r.Some? {
        var i :| 0 <= i < |fs[1..]| && fs[1..][i] == Field(key, r.value);
        assert fs[i + 1] == Field(key, r.value);
      } else {
        assert forall i | 1 <= i < |fs| :: fs[i].key == Keys(fs[1..])[i - 1];
      }
    }
  }

  lemma {:induction false} GetAt(fs: seq<Field>, i: nat)
    requires i < |fs| && Distinct(Keys(fs))
    ensures GetField(fs, fs[i].key) == Some(fs[i].value)
  {
    if i > 0 {
      assert Keys(fs)[0] != Keys(fs)[i];
      assert Keys(fs[1..]) == Keys(fs)[1..];
      GetAt(fs[1..], i - 1);
    }
  }

  // Objects written out field by field: a number for each key shows the keys distinct.

  function Tag(key: string): nat {
    if |key| < 2 then |key| else |key| * 65536 + (key[0] as nat + key[|key| - 2] as nat) * 256 + key[|key| - 1] as nat
  }

  ghost predicate Tagged(fs: seq<Field>, tags: seq<nat>) {
    |fs| == |tags| && (forall i | 0 <= i < |fs| :: Tag(fs[i].key) == tags[i]) && AllDiffer(tags)
  }

  ghost predicate AllDiffer(tags: seq<nat>) {
    forall i, j | 0 <= i < j < |tags| :: tags[i] != tags[j]
  }

  lemma TagsDistinct(fs: seq<Field>, tags: seq<nat>)
    requires Tagged(fs, tags)
    ensures Distinct(Keys(fs))
    ensures forall i | 0 <= i < |fs| :: GetField(fs, fs[i].key) == Some(fs[i].value)
    ensures (forall i | 0 <= i < |fs| :: WellFormed(fs[i].value)) ==> WellFormed(JObj(fs))
  {
    forall i, j | 0 <= i < j < |fs| ensures Keys(fs)[i] != Keys(fs)[j] {
      assert Tag(fs[i].key) != Tag(fs[j].key);
    }
    forall i | 0 <= i < |fs| ensures GetField(fs, fs[i].key) == Some(fs[i].value) {
      GetAt(fs, i);
    }
  }

  // ---------------------------------------------------------------- assignment

  /** Assigning to a key: a repeated key keeps its place and takes the later value. */
  function SetField(fs: seq<Field>, key: string, v: Json): seq<Field> {
    if fs == [] then [Field(key, v)]
    else if fs[0].key == key then [Field(key, v)] + fs[1..]
    else [fs[0]] + SetField(fs[1..], key, v)
  }

  lemma {:induction false} SetFieldKeys(fs: seq<Field>, key: string, v: Json)
    ensures var r := SetField(fs, key, v); if key in Keys(fs) then Keys(r) == Keys(fs) else r == fs + [Field(key, v)]
  {
    if fs != [] {
      KeysOfCons(fs[0], fs[1..]);
      assert fs == [fs[0]] + fs[1..];
      KeysOfCons(fs[0], SetField(fs[1..], key, v));
      KeysOfCons(Field(key, v), fs[1..]);
      if fs[0].key != key {
        SetFieldKeys(fs[1..], key, v);
        assert [fs[0]] + (fs[1..] + [Field(key, v)]) == fs + [Field(key, v)];
      }
    }
  }

  lemma KeysOfCons(f: Field, fs: seq<Field>)
    ensures Keys([f] + fs) == [f.key] + Keys(fs)
  {}

  lemma {:induction false} SetFieldItems(fs: seq<Field>, key: string, v: Json)
    ensures forall i | 0 <= i < |SetField(fs, key, v)| ::
      SetField(fs, key, v)[i] == Field(key, v) || (i < |fs| && SetField(fs, key, v)[i] == fs[i])
  {
    if fs != [] && fs[0].key != key {
      SetFieldItems(fs[1..], key, v);
      assert forall i | 1 <= i < |fs| :: fs[i] == fs[1..][i - 1];
    }
  }

  lemma SetFieldWellFormed(fs: seq<Field>, key: string, v: Json)
    requires WellFormed(JObj(fs)) && WellFormed(v)
    ensures WellFormed(JObj(SetField(fs, key, v)))
  {
    var r := SetField(fs, key, v);
    SetFieldKeys(fs, key, v);
    SetFieldItems(fs, key, v);
    if key !in Keys(fs) {
      assert Keys(r) == Keys(fs) + [key];
    }
  }

  lemma {:induction false} GetSetField(fs: seq<Field>, key: string, v: Json, k: string)
    ensures GetField(SetField(fs, key, v), k) == if k == key then Some(v) else GetField(fs, k)
  {
    if fs != [] && fs[0].key != key {
      GetSetField(fs[1..], key, v, k);
      assert SetField(fs, key, v)[1..] == SetField(fs[1..], key, v);
    } else if fs != [] {
      assert SetField(fs, key, v)[1..] == fs[1..];
    }
  }

  /** What assignment does to reading: the way objects built field by field are read back. */
  lemma PutLaws()
    ensures forall o: Json, key, v, k | o.JObj? :: Get(o.Put(key, v), k) == if k == key then Some(v) else Get(o, k)
    ensures forall o: Json, key, v | o.JObj? :: o.Put(key, v).JObj?
    ensures forall o: Json, key, v | WellFormed(o) && WellFormed(v) :: WellFormed(o.Put(key, v))
  {
    forall o: Json, key, v, k | o.JObj? ensures Get(o.Put(key, v), k) == if k == key then Some(v) else Get(o, k) {
      GetSetField(o.fields, key, v, k);
    }
    forall o: Json, key, v | WellFormed(o) && WellFormed(v) ensures WellFormed(o.Put(key, v)) {
      if o.JObj? {
        SetFieldWellFormed(o.fields, key, v);
      }
    }
  }

  lemma {:induction false} SetTwice(fs: seq<Field>, key: string, v: Json, w: Json)
    ensures SetField(SetField(fs, key, v), key, w) == SetField(fs, key, w)
  {
    if fs != [] && fs[0].key != key {
      SetTwice(fs[1..], key, v, w);
      assert SetField(fs, key, v)[1..] == SetField(fs[1..], key, v);
    } else if fs != [] {
      assert SetField(fs, key, v)[1..] == fs[1..];
    }
  }

  lemma {:induction false} SetSame(fs: seq<Field>, key: string, v: Json)
    requires GetField(fs, key) == Some(v)
    ensures SetField(fs, key, v) == fs
  {
    assert fs != [];
    if fs[0].key != key {
      SetSame(fs[1..], key, v);
      assert SetField(fs, key, v) == [fs[0]] + fs[1..];
    } else {
      assert Field(key, v) == fs[0];
    }
  }

  // ---------------------------------------------------------------- key order

  /** Orders scalar values as their UTF-16 code units do: surrogate pairs sort below U+E000..U+FFFF. */
  function Utf16Rank(c: char): nat {
    var n := c as int;
    if n < 0xD800 then n else if n >= 0x10000 then n - 0x10000 + 0xD800 else n + 0x100000
  }

  predicate KeyLess(a: string, b: string) {
    if b == [] then false
    else if a == [] then true
    else if a[0] == b[0] then KeyLess(a[1..], b[1..])
    else Utf16Rank(a[0]) < Utf16Rank(b[0])
  }

  lemma {:induction false} KeyLessTotal(a: string, b: string)
    ensures a == b || KeyLess(a, b) || KeyLess(b, a)
    ensures !(KeyLess(a, b) && KeyLess(b, a)) && !KeyLess(a, a)
  {
    if a != [] && b != [] {
      KeyLessTotal(a[1..], b[1..]);
      KeyLessTotal(a[1..], a[1..]);
      assert a == [a[0]] + a[1..] && b == [b[0]] + b[1..];
    } else if a != [] {
      KeyLessTotal(a[1..], a[1..]);
    }
  }

  lemma {:induction false} KeyLessTransitive(a: string, b: string, c: string)
    requires KeyLess(a, b) && KeyLess(b, c)
    ensures KeyLess(a, c)
  {
    if a != [] && a[0] == b[0] == c[0] {
      KeyLessTransitive(a[1..], b[1..], c[1..]);
    }
  }

  // The order of JavaScript's `<` on strings, by code units.

  /** The UTF-16 code units of a character: one below U+10000, else a surrogate pair (section 2.1 of RFC 2781). */
  function UnitsOf(c: char): seq<nat> {
    var n := c as int;
    if n < 0x10000 then [n] else [0xD800 + (n - 0x10000) / 0x400, 0xDC00 + (n - 0x10000) % 0x400]
  }

  function Units(s: string): seq<nat> {
    if s == [] then [] else UnitsOf(s[0]) + Units(s[1..])
  }

  /** They agree before `i`; there the first one ends, or has the smaller unit. */
  ghost predicate LessAt(a: seq<nat>, b: seq<nat>, i: nat) {
    && i <= |a| && i < |b| && a[..i] == b[..i] && (i < |a| ==> a[i] < b[i])
  }

  /** A proper prefix, or smaller at the first index where the two differ. */
  ghost predicate UnitsLess(a: seq<nat>, b: seq<nat>) {
    exists i: nat :: LessAt(a, b, i)
  }

  lemma UnitsLessTail(x: seq<nat>, a: seq<nat>, b: seq<nat>)
    ensures UnitsLess(x + a, x + b) <==> UnitsLess(a, b)
  {
    if UnitsLess(a, b) {
      var i: nat :| LessAt(a, b, i);
      assert (x + a)[..|x| + i] == x + a[..i] && (x + b)[..|x| + i] == x + b[..i];
      assert LessAt(x + a, x + b, |x| + i);
    }
    if UnitsLess(x + a, x + b) {
      var i: nat :| LessAt(x + a, x + b, i);
      assert forall k | 0 <= k < |x| :: (x + a)[k] == (x + b)[k];
      var j := i - |x|;
      assert a[..j] == (x + a)[..i][|x|..] && b[..j] == (x + b)[..i][|x|..];
      assert LessAt(a, b, j);
    }
  }

  lemma SamePrefix(a: seq<nat>, b: seq<nat>, i: nat)
    requires i <= |a| && i <= |b| && a[..i] == b[..i]
    ensures forall k | 0 <= k < i :: a[k] == b[k]
  {
    assert forall k | 0 <= k < i :: a[..i][k] == a[k] && b[..i][k] == b[k];
  }

  /** Where two sequences first differ decides. */
  lemma UnitsLessAt(a: seq<nat>, b: seq<nat>, i: nat)
    requires i < |a| && i < |b| && a[..i] == b[..i] && a[i] != b[i]
    ensures UnitsLess(a, b) <==> a[i] < b[i]
  {
    if a[i] < b[i] {
      assert LessAt(a, b, i);
    }
    if UnitsLess(a, b) {
      var j: nat :| LessAt(a, b, j);
      SamePrefix(a, b, i);
      SamePrefix(a, b, j);
    }
  }

  /** Neither one's units begin with the other's, and the first difference is as the ranks are. */
  lemma UnitsOfDiffer(c: char, d: char) returns (i: nat)
    requires c != d
    ensures i < |UnitsOf(c)| && i < |UnitsOf(d)| && UnitsOf(c)[..i] == UnitsOf(d)[..i]
    ensures UnitsOf(c)[i] != UnitsOf(d)[i] && (UnitsOf(c)[i] < UnitsOf(d)[i] <==> Utf16Rank(c) < Utf16Rank(d))
  {
    i := if UnitsOf(c)[0] == UnitsOf(d)[0] then 1 else 0;
  }

  /** The order of keys is that of their code units. */
  lemma {:induction false} KeyLessIsUnits(a: string, b: string)
    ensures KeyLess(a, b) <==> UnitsLess(Units(a), Units(b))
  {
    if b == [] {
      assert !UnitsLess(Units(a), []);
    } else if a == [] {
      assert LessAt([], Units(b), 0);
    } else if a[0] == b[0] {
      KeyLessIsUnits(a[1..], b[1..]);
      UnitsLessTail(UnitsOf(a[0]), Units(a[1..]), Units(b[1..]));
    } else {
      var i := UnitsOfDiffer(a[0], b[0]);
      assert Units(a)[..i] == UnitsOf(a[0])[..i] && Units(b)[..i] == UnitsOf(b[0])[..i];
      UnitsLessAt(Units(a), Units(b), i);
    }
  }

  /** In the order of their code units. */
  ghost predicate InUnitOrder(ks: seq<string>) {
    forall i, j | 0 <= i < j < |ks| :: UnitsLess(Units(ks[i]), Units(ks[j]))
  }

  lemma SortedByUnits(ks: seq<string>)
    ensures Sorted(ks) <==> InUnitOrder(ks)
  {
    forall i, j | 0 <= i < j < |ks| ensures KeyLess(ks[i], ks[j]) <==> UnitsLess(Units(ks[i]), Units(ks[j])) {
      KeyLessIsUnits(ks[i], ks[j]);
    }
  }

  ghost predicate Sorted(ks: seq<string>) {
    forall i, j | 0 <= i < j < |ks| :: KeyLess(ks[i], ks[j])
  }

  function Insert(k: string, ks: seq<string>): (r: seq<string>) {
    if ks == [] || KeyLess(k, ks[0]) then [k] + ks else [ks[0]] + Insert(k, ks[1..])
  }

  function SortKeys(ks: seq<string>): (r: seq<string>) {
    if ks == [] then [] else Insert(ks[0], SortKeys(ks[1..]))
  }

  lemma {:induction false} InsertSorts(k: string, ks: seq<string>)
    ensures |Insert(k, ks)| == |ks| + 1
    ensures forall x :: x in Insert(k, ks) <==> x == k || x in ks
    ensures Sorted(ks) && k !in ks ==> Sorted(Insert(k, ks))
  {
    if ks == [] || KeyLess(k, ks[0]) {
      forall i | 1 <= i < |ks| && Sorted(ks) && ks != [] ensures KeyLess(k, ks[i]) {
        KeyLessTransitive(k, ks[0], ks[i]);
      }
    } else {
      InsertSorts(k, ks[1..]);
      assert ks == [ks[0]] + ks[1..];
      KeyLessTotal(k, ks[0]);
      var r := Insert(k, ks[1..]);
      if Sorted(ks) && k !in ks {
        forall j | 0 <= j < |r| ensures KeyLess(ks[0], r[j]) {
          assert r[j] in r;
          if r[j] != k {
            var i :| 0 <= i < |ks[1..]| && ks[1..][i] == r[j];
            assert ks[i + 1] == r[j];
          }
        }
      }
    }
  }

  lemma {:induction false} SortKeysSorts(ks: seq<string>)
    ensures |SortKeys(ks)| == |ks|
    ensures forall x :: x in SortKeys(ks) <==> x in ks
    ensures Distinct(ks) ==> Sorted(SortKeys(ks)) && InUnitOrder(SortKeys(ks))
  {
    SortedByUnits(SortKeys(ks));
    if ks != [] {
      SortKeysSorts(ks[1..]);
      InsertSorts(ks[0], SortKeys(ks[1..]));
      assert ks == [ks[0]] + ks[1..];
    }
  }

  /** A sorted list of keys is determined by its set. */
  lemma {:induction false} SortedUnique(a: seq<string>, b: seq<string>)
    requires Sorted(a) && Sorted(b) && forall k :: k in a <==> k in b
    ensures a == b
  {
    assert a != [] ==> a[0] in a;
    assert b != [] ==> b[0] in b;
    if a != [] {
      assert a[0] in b;
      var j :| 0 <= j < |b| && b[j] == a[0];
      assert b[0] in a;
      var i :| 0 <= i < |a| && a[i] == b[0];
      KeyLessTotal(a[0], b[0]);
      forall k ensures k in a[1..] <==> k in b[1..] {
        TailMembers(a, k);
        TailMembers(b, k);
      }
      SortedUnique(a[1..], b[1..]);
      assert a == [a[0]] + a[1..] && b == [b[0]] + b[1..];
    }
  }

  lemma TailMembers(a: seq<string>, k: string)
    requires Sorted(a) && a != []
    ensures k in a[1..] <==> k in a && k != a[0]
  {
    KeyLessTotal(a[0], a[0]);
    if k in a[1..] {
      var i :| 0 <= i < |a[1..]| && a[1..][i] == k;
      assert a[i + 1] == k;
    }
    assert a == [a[0]] + a[1..];
  }

  lemma SortedDistinct(ks: seq<string>)
    requires Sorted(ks)
    ensures Distinct(ks)
  {
    forall i, j | 0 <= i < j < |ks| ensures ks[i] != ks[j] {
      KeyLessTotal(ks[i], ks[i]);
    }
  }

  // ---------------------------------------------------------------- canonical form

  /** The value with the keys of every object sorted. */
  function Canon(v: Json): Json
    decreases v, 1, 0
  {
    match v
    case JArr(items) => JArr(CanonItems(v, 0))
    case JObj(fs) =>
      SortKeysSorts(Keys(fs));
      JObj(CanonFields(v, SortKeys(Keys(fs))))
    case _ => v
  }

  function CanonItems(v: Json, i: nat): (r: seq<Json>)
    requires v.JArr? && i <= |v.items|
    ensures |r| == |v.items| - i && forall k | 0 <= k < |r| :: r[k] == Canon(v.items[i + k])
    decreases v, 0, |v.items| - i
  {
    if i == |v.items| then [] else [Canon(v.items[i])] + CanonItems(v, i + 1)
  }

  function CanonFields(v: Json, ks: seq<string>): (r: seq<Field>)
    requires v.JObj? && forall k | k in ks :: k in Keys(v.fields)
    ensures |r| == |ks|
    decreases v, 0, |ks|
  {
    if ks == [] then [] else
      assert ks[0] in ks;
      GetPart(v, ks[0]);
      [Field(ks[0], Canon(Get(v, ks[0]).value))] + CanonFields(v, ks[1..])
  }

  lemma {:induction false} CanonFieldsAt(v: Json, ks: seq<string>, i: nat)
    requires v.JObj? && i < |ks| && forall k | k in ks :: k in Keys(v.fields)
    ensures ks[i] in Keys(v.fields) && Get(v, ks[i]).Some?
    ensures CanonFields(v, ks)[i] == Field(ks[i], Canon(Get(v, ks[i]).value))
  {
    assert ks[i] in ks;
    GetPart(v, ks[i]);
    if i > 0 {
      CanonFieldsAt(v, ks[1..], i - 1);
    }
  }

  /** A field's value is a proper part of the object. */
  lemma GetPart(v: Json, k: string)
    requires v.JObj? && k in Keys(v.fields)
    ensures Get(v, k).Some? && Get(v, k).value < v
  {
    GetFieldFinds(v.fields, k);
    var i :| 0 <= i < |v.fields| && v.fields[i] == Field(k, Get(v, k).value);
    assert v.fields[i].value < v;
  }

  /** The keys of every object, at every depth, are in the order of their code units. */
  ghost predicate Ordered(v: Json) {
    match v
    case JArr(items) => forall i | 0 <= i < |items| :: Ordered(items[i])
    case JObj(fs) => InUnitOrder(Keys(fs)) && forall i | 0 <= i < |fs| :: Ordered(fs[i].value)
    case _ => true
  }

  lemma {:induction false} CanonOrdered(v: Json)
    requires WellFormed(v)
    ensures Ordered(Canon(v))
    decreases v
  {
    match v
    case JArr(items) =>
      forall i | 0 <= i < |items| ensures Ordered(Canon(v).items[i]) {
        CanonOrdered(items[i]);
      }
    case JObj(fs) =>
      var ks := SortKeys(Keys(fs));
      SortKeysSorts(Keys(fs));
      forall i | 0 <= i < |ks| ensures Canon(v).fields[i].key == ks[i] && Ordered(Canon(v).fields[i].value) {
        CanonFieldsAt(v, ks, i);
        GetSmaller(v, ks[i]);
        CanonOrdered(Get(v, ks[i]).value);
      }
      assert Keys(Canon(v).fields) == ks;
    case _ =>
  }

  /** A value whose keys are in that order at every depth is canonical as it stands. */
  lemma {:induction false} OrderedIsCanon(v: Json)
    requires WellFormed(v) && Ordered(v)
    ensures Canon(v) == v
    decreases v
  {
    match v
    case JArr(items) =>
      forall i | 0 <= i < |items| ensures Canon(v).items[i] == items[i] {
        OrderedIsCanon(items[i]);
      }
    case JObj(fs) =>
      var ks := SortKeys(Keys(fs));
      SortKeysSorts(Keys(fs));
      SortedByUnits(Keys(fs));
      SortedUnique(ks, Keys(fs));
      forall i | 0 <= i < |fs| ensures Canon(v).fields[i] == fs[i] {
        CanonFieldsAt(v, ks, i);
        GetAt(fs, i);
        OrderedIsCanon(fs[i].value);
      }
    case _ =>
  }

  // ---------------------------------------------------------------- printing

  /** A character inside a string literal (section 7 of RFC 8259), as JSON.stringify escapes it. */
  function Escape(c: char): string {
    if c == '\"' then ['\\', '\"']
    else if c == '\\' then ['\\', '\\']
    else if c == 8 as char then ['\\', 'b']
    else if c == 12 as char then ['\\', 'f']
    else if c == '\n' then ['\\', 'n']
    else if c == '\r' then ['\\', 'r']
    else if c == '\t' then ['\\', 't']
    else if (c as int) < 0x20 then ['\\', 'u', '0', '0', HexDigit(c as int / 16), HexDigit(c as int % 16)]
    else [c]
  }

  function HexDigit(d: nat): char
    requires d < 16
  {
    if d < 10 then ('0' as int + d) as char else ('a' as int + d - 10) as char
  }

  function EscapeAll(s: string): string {
    if s == "" then "" else Escape(s[0]) + EscapeAll(s[1..])
  }

  function Quote(s: string): string {
    ['\"'] + EscapeAll(s) + ['\"']
  }

  function Digits(n: nat): (r: string)
    ensures |r| > 0
  {
    if n < 10 then [('0' as int + n) as char] else Digits(n / 10) + [('0' as int + n % 10) as char]
  }

  function Number(n: int): string {
    if n < 0 then ['-'] + Digits(-n) else Digits(n)
  }

  /** JSON.stringify: the fields in the order they stand. */
  function Print(v: Json): string
    decreases v, 1, 0
  {
    match v
    case JNull => "null"
    case JBool(b) => if b then "true" else "false"
    case JNum(n) => Number(n)
    case JStr(s) => Quote(s)
    case JArr(items) => ['['] + PrintItems(v, 0) + [']']
    case JObj(fs) => ['{'] + PrintFields(v, 0) + ['}']
  }

  function PrintItems(v: Json, i: nat): string
    requires v.JArr? && i <= |v.items|
    decreases v, 0, |v.items| - i
  {
    if i == |v.items| then ""
    else (if i > 0 then [','] else "") + Print(v.items[i]) + PrintItems(v, i + 1)
  }

  function PrintFields(v: Json, i: nat): string
    requires v.JObj? && i <= |v.fields|
    decreases v, 0, |v.fields| - i
  {
    if i == |v.fields| then ""
    else (if i > 0 then [','] else "") + Entry(v.fields[i].key, Print(v.fields[i].value)) + PrintFields(v, i + 1)
  }

  function Entry(key: string, text: string): string {
    Quote(key) + [':'] + text
  }

  /** The canonical text of a value. */
  function Canonical(v: Json): string {
    Print(Canon(v))
  }

  /** `serialize`: sorts the keys of each object as it goes. */
  method Serialize(v: Json) returns (out: string)
    requires WellFormed(v)
    ensures out == Canonical(v)
    decreases v, 2
  {
    match v
    case JNull => out := "null";
    case JBool(b) => out := if b then "true" else "false";
    case JNum(n) => out := Number(n);
    case JStr(t) => out := Quote(t);
    case JArr(items) => out := SerializeArray(v);
    case JObj(fs) => out := SerializeObject(v);
  }

  method SerializeArray(v: Json) returns (out: string)
    requires WellFormed(v) && v.JArr?
    ensures out == Canonical(v)
    decreases v, 1
  {
    ghost var c := Canon(v);
    out := "[";
    for i := 0 to |v.items|
      invariant out + PrintItems(c, i) == ['['] + PrintItems(c, 0)
    {
      ghost var before := out;
      if i > 0 {
        out := out + ",";
      }
      var item := Serialize(v.items[i]);
      ItemsStep(c, i);
      Append(before, if i > 0 then [','] else "", item, PrintItems(c, i + 1));
      out := out + item;
    }
    ItemsStep(c, |v.items|);
    out := out + "]";
  }

  lemma ItemsStep(c: Json, i: nat)
    requires c.JArr? && i <= |c.items|
    ensures PrintItems(c, i) == if i == |c.items| then "" else
      (if i > 0 then [','] else "") + Print(c.items[i]) + PrintItems(c, i + 1)
  {}

  lemma FieldsStep(c: Json, i: nat)
    requires c.JObj? && i <= |c.fields|
    ensures PrintFields(c, i) == if i == |c.fields| then "" else
      (if i > 0 then [','] else "") + Entry(c.fields[i].key, Print(c.fields[i].value)) + PrintFields(c, i + 1)
  {}

  lemma Append(a: string, b: string, c: string, d: string)
    ensures a + (b + c + d) == a + b + c + d
  {}

  method SerializeObject(v: Json) returns (out: string)
    requires WellFormed(v) && v.JObj?
    ensures out == Canonical(v)
    decreases v, 1, 1
  {
    ghost var c := Canon(v);
    forall i | 0 <= i < |v.fields| ensures FieldOf(v, SortKeys(Keys(v.fields)), c, i) {
      CanonField(v, i);
    }
    SortKeysSorts(Keys(v.fields));
    var body := SerializeFields(v, SortKeys(Keys(v.fields)), c);
    out := "{";
    out := out + body;
    out := out + "}";
  }

  /** Field `i` of `c` is the canonical form of the field of `v` under the i-th key. */
  ghost predicate FieldOf(v: Json, keys: seq<string>, c: Json, i: nat)
    requires v.JObj?
  {
    && c.JObj? && i < |keys| == |c.fields| && keys[i] in Keys(v.fields) && Get(v, keys[i]).Some?
    && c.fields[i].key == keys[i] && Print(c.fields[i].value) == Canonical(Get(v, keys[i]).value)
  }

  /** The loop over the sorted keys. */
  method SerializeFields(v: Json, keys: seq<string>, ghost c: Json) returns (out: string)
    requires WellFormed(v) && v.JObj? && c.JObj? && |keys| == |c.fields|
    requires forall i | 0 <= i < |keys| :: FieldOf(v, keys, c, i)
    ensures out == PrintFields(c, 0)
    decreases v, 1, 0
  {
    out := "";
    var first := true;
    for i := 0 to |keys|
      invariant first <==> i == 0
      invariant out + PrintFields(c, i) == PrintFields(c, 0)
    {
      ghost var before := out;
      assert FieldOf(v, keys, c, i);
      var text := SerializeValueOf(v, keys[i]);
      FieldsStep(c, i);
      Append(before, if i > 0 then [','] else "", Entry(keys[i], text), PrintFields(c, i + 1));
      if !first {
        out := out + ",";
      }
      out := AppendEntry(out, keys[i], text);
      first := false;
    }
    FieldsStep(c, |keys|);
  }

  method AppendEntry(out: string, key: string, text: string) returns (r: string)
    ensures r == out + Entry(key, text)
  {
    r := out + Quote(key);
    r := r + ":";
    r := r + text;
  }

  method SerializeValueOf(v: Json, key: string) returns (text: string)
    requires WellFormed(v) && v.JObj? && key in Keys(v.fields)
    ensures Get(v, key).Some? && text == Canonical(Get(v, key).value)
    decreases v, 0
  {
    GetSmaller(v, key);
    text := Serialize(Get(v, key).value);
  }

  lemma CanonField(v: Json, i: nat)
    requires v.JObj? && i < |v.fields|
    ensures |Canon(v).fields| == |v.fields| == |SortKeys(Keys(v.fields))|
    ensures SortKeys(Keys(v.fields))[i] in Keys(v.fields)
    ensures var k := SortKeys(Keys(v.fields))[i];
      Get(v, k).Some? && Canon(v).fields[i] == Field(k, Canon(Get(v, k).value))
  {
    SortKeysSorts(Keys(v.fields));
    CanonFieldsAt(v, SortKeys(Keys(v.fields)), i);
  }

  /** A field's value is a proper, well-formed part of the object. */
  lemma GetSmaller(v: Json, k: string)
    requires WellFormed(v) && v.JObj? && k in Keys(v.fields)
    ensures Get(v, k).Some? && WellFormed(Get(v, k).value)
    ensures Get(v, k).value < v
  {
    GetFieldFinds(v.fields, k);
    var i :| 0 <= i < |v.fields| && v.fields[i] == Field(k, Get(v, k).value);
    assert v.fields[i].value < v;
  }

  // ---------------------------------------------------------------- equality up to key order

  /** The same value, whatever the order of keys in objects. */
  ghost predicate Same(v: Json, w: Json)
    decreases v
  {
    match v
    case JArr(items) => w.JArr? && |items| == |w.items| && forall i | 0 <= i < |items| :: Same(items[i], w.items[i])
    case JObj(fs) =>
      && w.JObj? && (forall k :: k in Keys(fs) <==> k in Keys(w.fields))
      && forall i | 0 <= i < |fs| :: Get(w, fs[i].key).Some? && Same(fs[i].value, Get(w, fs[i].key).value)
    case _ => v == w
  }

  lemma {:induction false} SameCanon(v: Json, w: Json)
    requires WellFormed(v) && WellFormed(w)
    ensures Same(v, w) <==> Canon(v) == Canon(w)
    decreases v
  {
    match v
    case JArr(items) =>
      if w.JArr? && |items| == |w.items| {
        forall i | 0 <= i < |items| ensures Same(items[i], w.items[i]) <==> Canon(v).items[i] == Canon(w).items[i] {
          SameCanon(items[i], w.items[i]);
        }
        if Same(v, w) {
          assert Canon(v).items == Canon(w).items;
        }
      }
    case JObj(fs) =>
      if w.JObj? {
        SameCanonObject(v, w);
      }
    case _ =>
  }

  ghost predicate SameKeys(v: Json, w: Json)
    requires v.JObj? && w.JObj?
  {
    forall k :: k in Keys(v.fields) <==> k in Keys(w.fields)
  }

  ghost predicate SameAt(v: Json, w: Json, k: string) {
    Get(v, k).Some? && Get(w, k).Some? && Canon(Get(v, k).value) == Canon(Get(w, k).value)
  }

  /** Two canonical objects are equal when their keys are and their values are, key by key. */
  lemma CanonObjectsEqual(v: Json, w: Json)
    requires v.JObj? && w.JObj? && Distinct(Keys(v.fields)) && Distinct(Keys(w.fields))
    ensures Canon(v) == Canon(w) <==> SameKeys(v, w) && forall k | k in Keys(v.fields) :: SameAt(v, w, k)
  {
    var a, b := SortKeys(Keys(v.fields)), SortKeys(Keys(w.fields));
    var x, y := Canon(v).fields, Canon(w).fields;
    SortKeysSorts(Keys(v.fields));
    SortKeysSorts(Keys(w.fields));
    forall i | 0 <= i < |a| ensures x[i].key == a[i] && Get(v, a[i]).Some? && x[i].value == Canon(Get(v, a[i]).value) {
      CanonField(v, i);
    }
    forall i | 0 <= i < |b| ensures y[i].key == b[i] && Get(w, b[i]).Some? && y[i].value == Canon(Get(w, b[i]).value) {
      CanonField(w, i);
    }
    if SameKeys(v, w) && forall k | k in Keys(v.fields) :: SameAt(v, w, k) {
      SortedUnique(a, b);
      forall i | 0 <= i < |a| ensures x[i] == y[i] {
        assert a[i] in a;
        assert SameAt(v, w, a[i]);
      }
      assert x == y;
    }
    if Canon(v) == Canon(w) {
      forall i | 0 <= i < |a| ensures a[i] == b[i] {
        assert x[i] == y[i];
      }
      assert a == b;
      forall k | k in Keys(v.fields) ensures SameAt(v, w, k) {
        assert k in a;
        var i :| 0 <= i < |a| && a[i] == k;
        assert x[i] == y[i];
      }
    }
  }

  lemma {:induction false} SameCanonObject(v: Json, w: Json)
    requires WellFormed(v) && WellFormed(w) && v.JObj? && w.JObj?
    ensures Same(v, w) <==> Canon(v) == Canon(w)
    decreases v, 0
  {
    CanonObjectsEqual(v, w);
    if SameKeys(v, w) {
      forall i | 0 <= i < |v.fields|
        ensures Get(w, v.fields[i].key).Some?
        ensures Same(v.fields[i].value, Get(w, v.fields[i].key).value) <==> SameAt(v, w, v.fields[i].key)
      {
        var k := v.fields[i].key;
        assert Keys(v.fields)[i] == k && k in Keys(v.fields);
        GetSmaller(w, k);
        GetAt(v.fields, i);
        SameCanon(v.fields[i].value, Get(w, k).value);
      }
      if Same(v, w) {
        forall k | k in Keys(v.fields) ensures SameAt(v, w, k) {
          var i :| 0 <= i < |v.fields| && Keys(v.fields)[i] == k;
          assert v.fields[i].key == k;
        }
      }
      if forall k | k in Keys(v.fields) :: SameAt(v, w, k) {
        forall i | 0 <= i < |v.fields| ensures SameAt(v, w, v.fields[i].key) {
          assert Keys(v.fields)[i] in Keys(v.fields);
        }
        assert Same(v, w);
      }
    }
  }

  lemma CanonKeys(v: Json)
    requires v.JObj?
    ensures Keys(Canon(v).fields) == SortKeys(Keys(v.fields))
  {
    SortKeysSorts(Keys(v.fields));
    var ks := SortKeys(Keys(v.fields));
    forall i | 0 <= i < |ks| ensures Keys(Canon(v).fields)[i] == ks[i] {
      CanonField(v, i);
    }
  }

  lemma {:induction false} CanonWellFormed(v: Json)
    requires WellFormed(v)
    ensures WellFormed(Canon(v))
  {
    match v
    case JArr(items) =>
      forall i | 0 <= i < |items| ensures WellFormed(Canon(v).items[i]) {
        CanonWellFormed(items[i]);
      }
    case JObj(fs) =>
      SortKeysSorts(Keys(fs));
      SortedDistinct(SortKeys(Keys(fs)));
      CanonKeys(v);
      forall i | 0 <= i < |Canon(v).fields| ensures WellFormed(Canon(v).fields[i].value) {
        CanonField(v, i);
        GetSmaller(v, SortKeys(Keys(fs))[i]);
        CanonWellFormed(Get(v, SortKeys(Keys(fs))[i]).value);
      }
    case _ =>
  }

  /** Sorting the keys of an object twice changes nothing. */
  lemma {:induction false} CanonIdempotent(v: Json)
    requires WellFormed(v)
    ensures Canon(Canon(v)) == Canon(v)
  {
    CanonWellFormed(v);
    match v
    case JArr(items) =>
      forall i | 0 <= i < |items| ensures Canon(Canon(v)).items[i] == Canon(v).items[i] {
        CanonIdempotent(items[i]);
      }
    case JObj(fs) =>
      SortKeysSorts(Keys(fs));
      var w := Canon(v);
      CanonKeys(v);
      forall k | k in Keys(w.fields) ensures SameAt(w, v, k) {
        GetSmaller(v, k);
        GetCanon(v, k);
        CanonIdempotent(Get(v, k).value);
      }
      CanonObjectsEqual(w, v);
    case _ =>
  }

  /** Reading a field commutes with canonicalization. */
  lemma GetCanon(v: Json, k: string)
    requires WellFormed(v) && v.JObj?
    ensures Get(Canon(v), k) == if Get(v, k).Some? then Some(Canon(Get(v, k).value)) else None
  {
    SortKeysSorts(Keys(v.fields));
    CanonKeys(v);
    GetAbsent(v, k);
    GetAbsent(Canon(v), k);
    if k in Keys(v.fields) {
      var ks := SortKeys(Keys(v.fields));
      var j :| 0 <= j < |ks| && ks[j] == k;
      CanonField(v, j);
      CanonWellFormed(v);
      GetAt(Canon(v).fields, j);
    }
  }

  lemma GetAbsent(v: Json, k: string)
    requires v.JObj?
    ensures Get(v, k).None? <==> k !in Keys(v.fields)
  {
    GetFieldFinds(v.fields, k);
    if Get(v, k).Some? {
      var i :| 0 <= i < |v.fields| && v.fields[i] == Field(k, Get(v, k).value);
      assert Keys(v.fields)[i] == k;
    }
  }
}
