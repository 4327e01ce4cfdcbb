/**
 JSON values, the indented text the tooling writes for them, and the reading of such text.

 A dictionary is the list of its items in sorted key order, the order every writer here uses.
 `Read` is the grammar of RFC 8259 as the tooling's loader applies it: unique keys, and decimal
 numbers only if they stay finite and nonzero in binary64.
 */
module JsonText {
  import opened Outcomes
  import opened Powers
  import opened Ieee
  import opened Numerals
  import Collections

  datatype Json =
    | Null
    | Bool(b: bool)
    | Int(n: int)
    | Number(numeral: Numeral)   // a decimal number that keeps its token
    | Real(x: real)              // a plain binary64 number
    | Text(s: string)
    | Array(items: seq<Json>)
    | Object(fields: seq<Field>)
    | Literal(digits: Numeral)   // a number written with exactly these digits
    | Pattern(y: real)           // the bit pattern of a rounded value, in the hash input

  datatype Field = Field(key: string, value: Json)

  predicate UniqueKeys(fields: seq<Field>) {
    forall i, j :: 0 <= i < j < |fields| ==> fields[i].key != fields[j].key
  }

  // ---------------------------------------------------------------- strings

  function HexChar(d: nat): char
    requires d < 16
  {
    if d < 10 then '0' + (d as char) else 'a' + ((d - 10) as char)
  }

  function HexValue(c: char): Option<nat> {
    if '0' <= c <= '9' then Some((c - '0') as nat)
    else if 'a' <= c <= 'f' then Some((c - 'a') as nat + 10)
    else if 'A' <= c <= 'F' then Some((c - 'A') as nat + 10)
    else None
  }

  /** The spelling of one character inside a JSON string; other characters stay raw. */
  function EscapeChar(c: char): string {
    if c == '"' then ['\\', '"']
    else if c == '\\' then ['\\', '\\']
    else if c == '\n' then ['\\', 'n']
    else if c == '\r' then ['\\', 'r']
    else if c == '\t' then ['\\', 't']
    else if c == '\U{08}' then ['\\', 'b']
    else if c == '\U{0c}' then ['\\', 'f']
    else if c < ' ' then ['\\', 'u', '0', '0', HexChar((c as nat) / 16), HexChar((c as nat) % 16)]
    else [c]
  }

  function EscapeAll(s: string): string {
    if s == "" then "" else EscapeChar(s[0]) + EscapeAll(s[1..])
  }

  function Quoted(s: string): string {
    "\"" + EscapeAll(s) + "\""
  }

  /** One escape sequence, after its backslash. */
  function ScanEscape(s: string): (r: Option<(char, string)>)
    ensures r.Some? ==> |r.value.1| < |s|
  {
    if s == "" then None
    else if s[0] in ['"', '\\', '/'] then Some((s[0], s[1..]))
    else if s[0] == 'n' then Some(('\n', s[1..]))
    else if s[0] == 'r' then Some(('\r', s[1..]))
    else if s[0] == 't' then Some(('\t', s[1..]))
    else if s[0] == 'b' then Some(('\U{08}', s[1..]))
    else if s[0] == 'f' then Some(('\U{0c}', s[1..]))
    else if s[0] == 'u' && |s| >= 5 then
      var a, b, c, d := HexValue(s[1]), HexValue(s[2]), HexValue(s[3]), HexValue(s[4]);
      if a.None? || b.None? || c.None? || d.None? then None
      else
        var code := ((a.value * 16 + b.value) * 16 + c.value) * 16 + d.value;
        if 0 <= code < 0xD800 || 0xE000 <= code < 0x10000 then Some((code as char, s[5..])) else None
    else None
  }

  /** The string whose text follows an opening quote, and what comes after its closing quote. */
  function ScanString(s: string): (r: Option<(string, string)>)
    ensures r.Some? ==> |r.value.1| < |s|
  {
    if s == "" then None
    else if s[0] == '"' then Some(("", s[1..]))
    else if s[0] == '\\' then
      var e := ScanEscape(s[1..]);
      if e.None? then None
      else
        var r := ScanString(e.value.1);
        if r.None? then None else Some(([e.value.0] + r.value.0, r.value.1))
    else if s[0] < ' ' then None
    else
      var r := ScanString(s[1..]);
      if r.None? then None else Some(([s[0]] + r.value.0, r.value.1))
  }

  lemma EscapeScans(c: char, t: string)
    ensures EscapeChar(c) != "" && (EscapeChar(c) + t)[0] == EscapeChar(c)[0]
    ensures EscapeChar(c)[0] == '\\' ==>
              ScanEscape((EscapeChar(c) + t)[1..]) == Some((c, t))
    ensures EscapeChar(c)[0] != '\\' ==> EscapeChar(c) == [c] && c != '"' && ' ' <= c
  {
    var e := EscapeChar(c);
    if e[0] == '\\' {
      var u := (e + t)[1..];
      assert u == e[1..] + t;
      if |e| == 2 {
        assert u[1..] == t;
      } else {
        assert u[5..] == t;
        assert u[1] == '0' && u[2] == '0';
      }
    }
  }

  lemma {:induction false} QuotedScans(s: string, rest: string)
    ensures ScanString(EscapeAll(s) + "\"" + rest) == Some((s, rest))
  {
    var t := EscapeAll(s) + "\"" + rest;
    if s == "" {
      assert t[1..] == rest;
    } else {
      var u := EscapeAll(s[1..]) + "\"" + rest;
      QuotedScans(s[1..], rest);
      assert t == EscapeChar(s[0]) + u;
      EscapeScans(s[0], u);
      hide ScanEscape, EscapeChar, EscapeAll;
      if EscapeChar(s[0])[0] != '\\' {
        assert t[1..] == u;
      }
      assert [s[0]] + s[1..] == s;
    }
  }

  // ---------------------------------------------------------------- numbers

  /** The leading digits of a text, and the rest. */
  function TakeDigits(s: string): (r: (string, string))
    ensures AllDigits(r.0) && s == r.0 + r.1
  {
    if s == "" || !IsDigit(s[0]) then ("", s)
    else var r := TakeDigits(s[1..]); ([s[0]] + r.0, r.1)
  }

  /** The whole part of a number: a zero, or digits without a leading zero. */
  function ReadWhole(s: string): (r: (string, string))
    ensures AllDigits(r.0) && s == r.0 + r.1
  {
    if s != "" && s[0] == '0' then (s[..1], s[1..]) else TakeDigits(s)
  }

  /** A fraction part, or nothing. */
  function ReadFraction(s: string): (r: (string, string))
    ensures AllDigits(r.0) && |r.1| <= |s|
  {
    if s != "" && s[0] == '.' && TakeDigits(s[1..]).0 != "" then TakeDigits(s[1..]) else ("", s)
  }

  /** An exponent part, if there is one. */
  function ReadExponent(s: string): (r: Option<(int, string)>)
    ensures r.Some? ==> |r.value.1| < |s|
  {
    if |s| < 2 || s[0] !in ['e', 'E'] then None
    else if s[1] in ['+', '-'] then
      var r := TakeDigits(s[2..]);
      var size: int := DigitsValue(r.0);
      if r.0 == "" then None else Some((if s[1] == '-' then -size else size, r.1))
    else
      var r := TakeDigits(s[1..]);
      if r.0 == "" then None else Some((DigitsValue(r.0), r.1))
  }

  function ReadUnsigned(s: string, negative: bool): (r: Option<(Json, string)>)
    ensures r.Some? ==> |r.value.1| < |s|
    ensures r.Some? && r.value.0.Number? ==> r.value.0.numeral.Valid()
  {
    var w := ReadWhole(s);
    if w.0 == "" then None
    else
      var f := ReadFraction(w.1);
      var e := ReadExponent(f.1);
      if e.Some? then Some((Number(Numeral(negative, w.0, f.0, e.value.0)), e.value.1))
      else if f.0 != "" then Some((Number(Numeral(negative, w.0, f.0, 0)), f.1))
      else
        var size: int := DigitsValue(w.0);
        Some((Int(if negative then -size else size), w.1))
  }

  function ReadNumber(s: string): (r: Option<(Json, string)>)
    ensures r.Some? ==> |r.value.1| < |s|
    ensures r.Some? && r.value.0.Number? ==> r.value.0.numeral.Valid()
  {
    if s != "" && s[0] == '-' then ReadUnsigned(s[1..], true) else ReadUnsigned(s, false)
  }

  function IntText(n: int): string {
    if n < 0 then "-" + Digits(-n) else Digits(n)
  }

  function ExponentText(e: int): string {
    var size := if e < 0 then -e else e;
    (if e < 0 then "-" else "+") + ExponentDigits(size)
  }

  function NumeralText(n: Numeral): string {
    if n.negative then "-" + UnsignedText(n) else UnsignedText(n)
  }

  function UnsignedText(n: Numeral): string {
    n.whole + ("." + (n.fraction + ("e" + ExponentText(n.exponent))))
  }

  /** What may follow a number in written text. */
  ghost predicate Delimited(rest: string) {
    rest == "" || rest[0] in [',', '\n', ' ', ']', '}']
  }

  lemma {:induction false} TakesDigits(d: string, rest: string)
    requires AllDigits(d) && (rest == "" || !IsDigit(rest[0]))
    ensures TakeDigits(d + rest) == (d, rest)
  {
    if d == "" {
      assert d + rest == rest;
    } else {
      TakesDigits(d[1..], rest);
      assert (d + rest)[1..] == d[1..] + rest;
      assert [d[0]] + d[1..] == d;
    }
  }

  function ExponentDigits(size: nat): (d: string)
    ensures |d| > 0 && AllDigits(d)
  {
    if size < 100 then Padded(size, 2) else Digits(size)
  }

  lemma ExponentDigitsReadBack(size: nat)
    ensures DigitsValue(ExponentDigits(size)) == size
  {
    if size < 100 {
      assert PowNat(Ten, 2) == 100;
      PaddedReadsBack(size, 2);
    } else {
      DigitsReadBack(size);
    }
  }

  lemma ExponentReads(e: int, rest: string)
    requires Delimited(rest)
    ensures ReadExponent("e" + ExponentText(e) + rest) == Some((e, rest))
  {
    var size := if e < 0 then -e else e;
    ExponentDigitsReadBack(size);
    hide ExponentDigits, TakeDigits, DigitsValue;
    var d := ExponentDigits(size);
    var s := "e" + ExponentText(e) + rest;
    assert s[2..] == d + rest;
    TakesDigits(d, rest);
  }

  lemma NumeralReads(n: Numeral, rest: string)
    requires n.Valid() && |n.whole| == 1 && |n.fraction| > 0 && Delimited(rest)
    ensures ReadNumber(NumeralText(n) + rest) == Some((Number(n), rest))
  {
    UnsignedReads(n, rest);
    SignReads(n.negative, UnsignedText(n), rest);
  }

  lemma SignReads(negative: bool, t: string, rest: string)
    requires t != "" && t[0] != '-'
    ensures ReadNumber((if negative then "-" + t else t) + rest) == ReadUnsigned(t + rest, negative)
  {
    assert ("-" + t + rest)[1..] == t + rest;
  }

  lemma UnsignedSplits(n: Numeral, rest: string, tail: string)
    requires tail == "e" + ExponentText(n.exponent) + rest
    ensures UnsignedText(n) + rest == n.whole + ("." + (n.fraction + tail))
  {
    var e := "e" + ExponentText(n.exponent);
    Collections.Regroup(n.whole, "." + (n.fraction + e), rest);
    Collections.Regroup(".", n.fraction + e, rest);
    Collections.Regroup(n.fraction, e, rest);
  }

  lemma UnsignedReads(n: Numeral, rest: string)
    requires n.Valid() && |n.whole| == 1 && |n.fraction| > 0 && Delimited(rest)
    ensures IsDigit(UnsignedText(n)[0])
    ensures ReadUnsigned(UnsignedText(n) + rest, n.negative) == Some((Number(n), rest))
  {
    var tail := "e" + ExponentText(n.exponent) + rest;
    var b := "." + (n.fraction + tail);
    var a := n.whole + b;
    UnsignedSplits(n, rest, tail);
    assert ReadWhole(a) == (n.whole, b) by {
      TakesDigits(n.whole, b);
      assert a[..1] == n.whole && a[1..] == b;
    }
    assert ReadFraction(b) == (n.fraction, tail) by {
      TakesDigits(n.fraction, tail);
      assert b[1..] == n.fraction + tail;
    }
    ExponentReads(n.exponent, rest);
  }

  lemma IntReads(n: int, rest: string)
    requires Delimited(rest)
    ensures ReadNumber(IntText(n) + rest) == Some((Int(n), rest))
  {
    var size := if n < 0 then -n else n;
    WholeReads(size, Digits(size), rest);
    SignReads(n < 0, Digits(size), rest);
  }

  lemma WholeReads(size: nat, d: string, rest: string)
    requires d == Digits(size) && Delimited(rest)
    ensures ReadWhole(d + rest) == (d, rest)
    ensures ReadFraction(rest) == ("", rest) && ReadExponent(rest) == None
    ensures DigitsValue(d) == size
  {
    TakesDigits(d, rest);
    DigitsReadBack(size);
    if d[0] == '0' {
      assert |d| == 1;
      assert (d + rest)[..1] == d && (d + rest)[1..] == rest;
    }
  }

  // ---------------------------------------------------------------- writing

  predicate IsSpace(c: char) {
    c in [' ', '\t', '\r', '\n']
  }

  /** Indented text: one member or item a line, two spaces a level. */
  function Write(v: Json, indent: string): string
    decreases v, 1
  {
    match v
    case Null => "null"
    case Bool(b) => if b then "true" else "false"
    case Int(n) => IntText(n)
    case Text(s) => Quoted(s)
    case Array(items) =>
      if items == [] then "[]" else "[\n" + WriteItems(items, indent + "  ") + "\n" + indent + "]"
    case Object(fields) =>
      if fields == [] then "{}" else "{\n" + WriteFields(fields, indent + "  ") + "\n" + indent + "}"
    case Literal(digits) => NumeralText(digits)
    case _ => ""
  }

  function WriteItems(items: seq<Json>, inner: string): string
    requires items != []
    decreases items, 0
  {
    inner + Write(items[0], inner) + (if |items| == 1 then "" else ",\n" + WriteItems(items[1..], inner))
  }

  function WriteFields(fields: seq<Field>, inner: string): string
    requires fields != []
    decreases fields, 0
  {
    inner + Quoted(fields[0].key) + ": " + Write(fields[0].value, inner)
    + (if |fields| == 1 then "" else ",\n" + WriteFields(fields[1..], inner))
  }

  /** Digits the loader reads as one decimal number of binary64 range. */
  ghost predicate Loadable(n: Numeral) {
    n.Valid() && |n.whole| == 1 && |n.fraction| > 0 && Round(DOUBLE, n.Value()).Ok?
  }

  /** A value `Write` can write: every number is an integer or a literal the loader accepts. */
  ghost predicate Writable(v: Json) {
    match v
    case Array(items) => forall i :: 0 <= i < |items| ==> Writable(items[i])
    case Object(fields) =>
      UniqueKeys(fields) && forall i :: 0 <= i < |fields| ==> Writable(fields[i].value)
    case Literal(n) => Loadable(n)
    case Number(_) => false
    case Real(_) => false
    case Pattern(_) => false
    case _ => true
  }

  // ---------------------------------------------------------------- reading

  function Skip(s: string): (r: string)
    ensures |r| <= |s|
  {
    if s != "" && IsSpace(s[0]) then Skip(s[1..]) else s
  }

  /** The text after an expected character, past white space. */
  function Expect(s: string, c: char): (r: Option<string>)
    ensures r.Some? ==> |r.value| < |s|
  {
    var t := Skip(s);
    if t != "" && t[0] == c then Some(t[1..]) else None
  }

  ghost function ReadValue(s: string): (r: Option<(Json, string)>)
    ensures r.Some? ==> |r.value.1| < |s|
    decreases |s|, 1
  {
    var t := Skip(s);
    if t == "" then None
    else if t[0] == '{' then
      if Expect(t[1..], '}').Some? then Some((Object([]), Expect(t[1..], '}').value))
      else
        var r := ReadFields(t[1..]);
        if r.None? || !UniqueKeys(r.value.0) then None else Some((Object(r.value.0), r.value.1))
    else if t[0] == '[' then
      if Expect(t[1..], ']').Some? then Some((Array([]), Expect(t[1..], ']').value))
      else
        var r := ReadItems(t[1..]);
        if r.None? then None else Some((Array(r.value.0), r.value.1))
    else if t[0] == '"' then
      var r := ScanString(t[1..]);
      if r.None? then None else Some((Text(r.value.0), r.value.1))
    else if "null" <= t then Some((Null, t[4..]))
    else if "true" <= t then Some((Bool(true), t[4..]))
    else if "false" <= t then Some((Bool(false), t[5..]))
    else
      var r := ReadNumber(t);
      if r.Some? && r.value.0.Number? && Round(DOUBLE, r.value.0.numeral.Value()).Err? then None else r
  }

  /** Items up to the closing bracket. */
  ghost function ReadItems(s: string): (r: Option<(seq<Json>, string)>)
    ensures r.Some? ==> |r.value.1| < |s|
    decreases |s|, 2
  {
    var v := ReadValue(s);
    if v.None? then None
    else if Expect(v.value.1, ']').Some? then Some(([v.value.0], Expect(v.value.1, ']').value))
    else if Expect(v.value.1, ',').None? then None
    else
      var r := ReadItems(Expect(v.value.1, ',').value);
      if r.None? then None else Some(([v.value.0] + r.value.0, r.value.1))
  }

  /** Members up to the closing brace. */
  ghost function ReadFields(s: string): (r: Option<(seq<Field>, string)>)
    ensures r.Some? ==> |r.value.1| < |s|
    decreases |s|, 2
  {
    var f := ReadField(s);
    if f.None? then None
    else if Expect(f.value.1, '}').Some? then Some(([f.value.0], Expect(f.value.1, '}').value))
    else if Expect(f.value.1, ',').None? then None
    else
      var r := ReadFields(Expect(f.value.1, ',').value);
      if r.None? then None else Some(([f.value.0] + r.value.0, r.value.1))
  }

  ghost function ReadField(s: string): (r: Option<(Field, string)>)
    ensures r.Some? ==> |r.value.1| < |s|
    decreases |s|, 0
  {
    if Expect(s, '"').None? then None
    else
      var k := ScanString(Expect(s, '"').value);
      if k.None? || Expect(k.value.1, ':').None? then None
      else
        var v := ReadValue(Expect(k.value.1, ':').value);
        if v.None? then None else Some((Field(k.value.0, v.value.0), v.value.1))
  }

  /** A whole document: one value and white space. */
  ghost function Load(s: string): Option<Json> {
    var r := ReadValue(s);
    if r.Some? && Skip(r.value.1) == "" then Some(r.value.0) else None
  }

  // ---------------------------------------------------------------- written text reads back

  /** What the loader makes of a written value: literals become numbers with their token. */
  ghost function Reread(v: Json): Json
    decreases v, 1
  {
    match v
    case Array(items) => Array(RereadItems(items))
    case Object(fields) => Object(RereadFields(fields))
    case Literal(n) => Number(n)
    case _ => v
  }

  ghost function RereadItems(items: seq<Json>): (r: seq<Json>)
    ensures |r| == |items|
    ensures forall i :: 0 <= i < |r| ==> r[i] == Reread(items[i])
    decreases items, 0
  {
    if items == [] then [] else [Reread(items[0])] + RereadItems(items[1..])
  }

  ghost function RereadFields(fields: seq<Field>): (r: seq<Field>)
    ensures |r| == |fields|
    ensures forall i :: 0 <= i < |r| ==> r[i] == Field(fields[i].key, Reread(fields[i].value))
    decreases fields, 0
  {
    if fields == [] then []
    else [Field(fields[0].key, Reread(fields[0].value))] + RereadFields(fields[1..])
  }

  ghost predicate Blank(s: string) {
    forall i :: 0 <= i < |s| ==> IsSpace(s[i])
  }

  lemma {:induction false} SkipsBlank(s: string, t: string)
    requires Blank(s)
    ensures Skip(s + t) == Skip(t)
  {
    if s == "" {
      assert s + t == t;
    } else {
      SkipsBlank(s[1..], t);
      assert (s + t)[1..] == s[1..] + t;
    }
  }

  lemma ExpectAfter(s: string, c: char, t: string)
    requires Blank(s) && !IsSpace(c)
    ensures Expect(s + [c] + t, c) == Some(t)
    ensures forall d :: d != c ==> Expect(s + [c] + t, d) == None
  {
    SkipsBlank(s, [c] + t);
    assert s + [c] + t == s + ([c] + t);
    assert ([c] + t)[1..] == t;
  }

  lemma ReadPastBlank(s: string, t: string)
    requires Blank(s)
    ensures ReadValue(s + t) == ReadValue(t)
    ensures ReadItems(s + t) == ReadItems(t)
    ensures Expect(s + t, '"') == Expect(t, '"')
    ensures ReadFields(s + t) == ReadFields(t)
  {
    SkipsBlank(s, t);
  }

  /** Written text starts with a character that neither is white space nor closes anything. */
  lemma WriteStarts(v: Json, indent: string)
    requires Writable(v)
    ensures Write(v, indent) != ""
    ensures var c := Write(v, indent)[0]; !IsSpace(c) && c !in [']', '}', ',']
  {
    if v.Literal? {
      NumeralStarts(v.digits);
    }
  }

  /** Reading a text whose first character announces a number. */
  lemma NumberDispatch(t: string)
    requires t != "" && (t[0] == '-' || IsDigit(t[0]))
    requires ReadNumber(t).Some?
    requires ReadNumber(t).value.0.Number? ==> Round(DOUBLE, ReadNumber(t).value.0.numeral.Value()).Ok?
    ensures ReadValue(t) == ReadNumber(t)
  {
    hide ReadNumber, ScanString, ReadItems, ReadFields, Round;
    assert Skip(t) == t;
  }

  lemma StringDispatch(t: string)
    ensures ReadValue("\"" + t) ==
            if ScanString(t).None? then None else Some((Text(ScanString(t).value.0), ScanString(t).value.1))
  {
    hide ReadNumber, ScanString, ReadItems, ReadFields, Round;
    assert Skip("\"" + t) == "\"" + t;
    assert ("\"" + t)[1..] == t;
  }

  lemma WordDispatch(t: string)
    ensures ReadValue("null" + t) == Some((Null, t))
    ensures ReadValue("true" + t) == Some((Bool(true), t))
    ensures ReadValue("false" + t) == Some((Bool(false), t))
  {
    hide ReadNumber, ScanString, ReadItems, ReadFields, Round;
    assert ("null" + t)[4..] == t;
    assert ("true" + t)[4..] == t;
    assert ("false" + t)[5..] == t;
  }

  lemma ScalarReads(v: Json, indent: string, rest: string)
    requires Writable(v) && Delimited(rest) && !v.Array? && !v.Object?
    ensures ReadValue(Write(v, indent) + rest) == Some((Reread(v), rest))
  {
    hide ReadValue, ReadNumber, ScanString, Round, NumeralText;
    match v
    case Null => WordDispatch(rest);
    case Bool(b) => WordDispatch(rest);
    case Int(n) =>
      IntReads(n, rest);
      NumberDispatch(IntText(n) + rest);
    case Text(s) =>
      assert Quoted(s) + rest == "\"" + (EscapeAll(s) + "\"" + rest);
      StringDispatch(EscapeAll(s) + "\"" + rest);
      QuotedScans(s, rest);
    case Literal(n) =>
      NumeralReads(n, rest);
      NumeralStarts(n);
      NumberDispatch(NumeralText(n) + rest);
  }

  lemma NumeralStarts(n: Numeral)
    requires n.Valid()
    ensures NumeralText(n) != "" && (NumeralText(n)[0] == '-' || IsDigit(NumeralText(n)[0]))
  {
  }

  /** The writer's text of a value, followed by a delimiter, reads back as the value. */
  lemma {:induction false} ValueReads(v: Json, indent: string, rest: string)
    requires Writable(v) && Blank(indent) && Delimited(rest)
    ensures ReadValue(Write(v, indent) + rest) == Some((Reread(v), rest))
    decreases v, 1
  {
    hide WriteItems, WriteFields, ReadItems, ReadFields, ReadNumber, ScanString, Round, ReadValue;
    if v.Array? && v.items != [] {
      ItemsRead(v.items, indent + "  ", indent, rest);
      ArrayReads(v, indent, rest);
    } else if v.Object? && v.fields != [] {
      FieldsRead(v.fields, indent + "  ", indent, rest);
      ObjectReads(v, indent, rest);
    } else if v.Array? || v.Object? {
      EmptyReads(v, indent, rest);
    } else {
      ScalarReads(v, indent, rest);
    }
  }

  lemma EmptyReads(v: Json, indent: string, rest: string)
    requires v == Array([]) || v == Object([])
    ensures ReadValue(Write(v, indent) + rest) == Some((Reread(v), rest))
  {
    hide ReadItems, ReadFields, ReadNumber, ScanString, Round;
    var t := Write(v, indent) + rest;
    WriteStarts(v, indent);
    assert Skip(t) == t;
    var closing := if v.Array? then ']' else '}';
    assert t[1..] == "" + [closing] + rest;
    ExpectAfter("", closing, rest);
  }

  lemma ArrayReads(v: Json, indent: string, rest: string)
    requires v.Array? && v.items != [] && Writable(v) && Blank(indent)
    requires ReadItems(WriteItems(v.items, indent + "  ") + ("\n" + indent + "]" + rest)) ==
             Some((RereadItems(v.items), rest))
    ensures ReadValue(Write(v, indent) + rest) == Some((Reread(v), rest))
  {
    hide WriteItems, WriteFields, ReadItems, ReadFields, ReadNumber, ScanString, Round;
    var t := Write(v, indent) + rest;
    WriteStarts(v, indent);
    assert Skip(t) == t;
    var body := WriteItems(v.items, indent + "  ") + ("\n" + indent + "]" + rest);
    assert t[1..] == "\n" + body;
    ReadPastBlank("\n", body);
    ItemsStart(v.items, indent + "  ", "\n" + indent + "]" + rest);
  }

  lemma ObjectReads(v: Json, indent: string, rest: string)
    requires v.Object? && v.fields != [] && Writable(v) && Blank(indent)
    requires ReadFields(WriteFields(v.fields, indent + "  ") + ("\n" + indent + "}" + rest)) ==
             Some((RereadFields(v.fields), rest))
    ensures ReadValue(Write(v, indent) + rest) == Some((Reread(v), rest))
  {
    hide WriteItems, WriteFields, ReadItems, ReadFields, ReadNumber, ScanString, Round;
    var t := Write(v, indent) + rest;
    WriteStarts(v, indent);
    assert Skip(t) == t;
    var body := WriteFields(v.fields, indent + "  ") + ("\n" + indent + "}" + rest);
    assert t[1..] == "\n" + body;
    ReadPastBlank("\n", body);
    FieldsStart(v.fields, indent + "  ", "\n" + indent + "}" + rest);
  }

  lemma ItemsStart(items: seq<Json>, inner: string, tail: string)
    requires items != [] && Writable(items[0]) && Blank(inner)
    ensures Expect("\n" + (WriteItems(items, inner) + tail), ']') == None
  {
    hide Write, Expect;
    WriteStarts(items[0], inner);
    var w := Write(items[0], inner);
    var more := WriteItems(items, inner)[|inner| + |w|..] + tail;
    assert "\n" + (WriteItems(items, inner) + tail) == ("\n" + inner) + [w[0]] + (w[1..] + more);
    ExpectAfter("\n" + inner, w[0], w[1..] + more);
  }

  lemma FieldsStart(fields: seq<Field>, inner: string, tail: string)
    requires fields != [] && Blank(inner)
    ensures Expect("\n" + (WriteFields(fields, inner) + tail), '}') == None
  {
    hide Write, Expect, EscapeAll;
    var more := WriteFields(fields, inner)[|inner| + 1..] + tail;
    assert "\n" + (WriteFields(fields, inner) + tail) == ("\n" + inner) + ['"'] + more;
    ExpectAfter("\n" + inner, '"', more);
  }

  lemma {:induction false} ItemsRead(items: seq<Json>, inner: string, indent: string, rest: string)
    requires items != [] && (forall i :: 0 <= i < |items| ==> Writable(items[i]))
    requires Blank(inner) && Blank(indent)
    ensures ReadItems(WriteItems(items, inner) + ("\n" + indent + "]" + rest))
            == Some((RereadItems(items), rest))
    decreases items, 0
  {
    hide Write, Expect, ReadValue, Reread;
    var tail := "\n" + indent + "]" + rest;
    var w := Write(items[0], inner);
    if |items| == 1 {
      assert WriteItems(items, inner) + tail == inner + (w + tail);
      ReadPastBlank(inner, w + tail);
      ValueReads(items[0], inner, tail);
      assert tail == "\n" + indent + [']'] + rest;
      ExpectAfter("\n" + indent, ']', rest);
      assert RereadItems(items) == [Reread(items[0])] + RereadItems(items[1..]) == [Reread(items[0])];
    } else {
      var next := WriteItems(items[1..], inner) + tail;
      var more := "" + [','] + ("\n" + next);
      assert WriteItems(items, inner) + tail == inner + (w + more);
      ReadPastBlank(inner, w + more);
      ValueReads(items[0], inner, more);
      ExpectAfter("", ',', "\n" + next);
      ReadPastBlank("\n", next);
      ItemsRead(items[1..], inner, indent, rest);
    }
  }

  lemma {:induction false} FieldReads(f: Field, inner: string, rest: string)
    requires Writable(f.value) && Blank(inner) && Delimited(rest)
    ensures ReadField(inner + (Quoted(f.key) + ": " + Write(f.value, inner) + rest))
            == Some((Field(f.key, Reread(f.value)), rest))
    decreases f, 0
  {
    hide Write, Expect, ReadValue, Reread, ScanString;
    var w := Write(f.value, inner) + rest;
    var s := inner + (Quoted(f.key) + ": " + Write(f.value, inner) + rest);
    var k := EscapeAll(f.key) + "\"" + (": " + w);
    assert s == inner + ['"'] + k;
    ExpectAfter(inner, '"', k);
    QuotedScans(f.key, ": " + w);
    assert ": " + w == "" + [':'] + (" " + w);
    ExpectAfter("", ':', " " + w);
    ReadPastBlank(" ", w);
    ValueReads(f.value, inner, rest);
  }

  lemma {:induction false} FieldsRead(fields: seq<Field>, inner: string, indent: string, rest: string)
    requires fields != [] && (forall i :: 0 <= i < |fields| ==> Writable(fields[i].value))
    requires Blank(inner) && Blank(indent)
    ensures ReadFields(WriteFields(fields, inner) + ("\n" + indent + "}" + rest))
            == Some((RereadFields(fields), rest))
    decreases fields, 0
  {
    hide Write, Expect, ReadField, Reread, Quoted;
    var tail := "\n" + indent + "}" + rest;
    var w := Quoted(fields[0].key) + ": " + Write(fields[0].value, inner);
    if |fields| == 1 {
      assert WriteFields(fields, inner) + tail == inner + (w + tail);
      FieldReads(fields[0], inner, tail);
      assert tail == "\n" + indent + ['}'] + rest;
      ExpectAfter("\n" + indent, '}', rest);
      var f := Field(fields[0].key, Reread(fields[0].value));
      assert RereadFields(fields) == [f] + RereadFields(fields[1..]) == [f];
    } else {
      var next := WriteFields(fields[1..], inner) + tail;
      var more := "" + [','] + ("\n" + next);
      assert WriteFields(fields, inner) + tail == inner + (w + more);
      FieldReads(fields[0], inner, more);
      ExpectAfter("", ',', "\n" + next);
      ReadPastBlank("\n", next);
      FieldsRead(fields[1..], inner, indent, rest);
    }
  }

  /** The document written for a value loads as the value. */
  lemma WrittenLoads(v: Json)
    requires Writable(v)
    ensures Load(Write(v, "") + "\n") == Some(Reread(v))
  {
    ValueReads(v, "", "\n");
    assert Skip("\n") == Skip("\n"[1..]) == "";
  }
}
