/**
 The grammar of JSON (RFC 8259) as a relation between texts and values, and that the loader accepts
 exactly the texts of the grammar whose keys are unique and whose decimal numbers stay in range.
 */
module JsonGrammar {
  import opened Outcomes
  import opened Ieee
  import opened Numerals
  import opened JsonText
  import Collections

  // ---------------------------------------------------------------- white space and strings

  /** Space, tab, line feed and carriage return (section 2). */
  ghost const WHITE: set<char> := {'\U{20}', '\U{09}', '\U{0a}', '\U{0d}'}

  ghost predicate White(s: string) {
    forall i :: 0 <= i < |s| ==> s[i] in WHITE
  }

  /** The two-character escapes (section 7). */
  ghost const SHORT: map<char, char> :=
    map['"' := '"', '\\' := '\\', '/' := '/', 'b' := '\U{08}', 'f' := '\U{0c}', 'n' := '\U{0a}', 'r' := '\U{0d}',
        't' := '\U{09}']

  ghost predicate HexDigit(c: char, d: nat) {
    d < 16 && (c == "0123456789abcdef"[d] || c == "0123456789ABCDEF"[d])
  }

  /** One character of a string: itself, or an escape. */
  ghost predicate Letter(t: string, c: char) {
    || (t == [c] && '\U{20}' <= c && c != '"' && c != '\\')
    || (|t| == 2 && t[0] == '\\' && t[1] in SHORT && SHORT[t[1]] == c)
    || (|t| == 6 && t[0] == '\\' && t[1] == 'u' && HexCode(t[2..], c as nat))
  }

  /** Four hexadecimal digits, the most significant first. */
  ghost predicate HexCode(t: string, code: nat)
    requires |t| == 4
  {
    exists p: nat, q: nat, r: nat, s: nat ::
      && HexDigit(t[0], p) && HexDigit(t[1], q) && HexDigit(t[2], r) && HexDigit(t[3], s)
      && code == 4096 * p + 256 * q + 16 * r + s
  }

  ghost predicate Letters(t: string, s: string)
    decreases |s|
  {
    if s == "" then t == ""
    else exists k :: 0 < k <= |t| && Letter(t[..k], s[0]) && Letters(t[k..], s[1..])
  }

  ghost predicate Quotation(t: string, s: string) {
    |t| >= 2 && t[0] == '"' && t[|t| - 1] == '"' && Letters(t[1..|t| - 1], s)
  }

  // ---------------------------------------------------------------- numbers

  ghost function Tens(n: nat): nat {
    if n == 0 then 1 else 10 * Tens(n - 1)
  }

  /** What the first n digits count for: each for a power of ten by its place. */
  ghost function PlaceSum(s: string, n: nat): nat
    requires AllDigits(s) && n <= |s|
  {
    if n == 0 then 0 else PlaceSum(s, n - 1) + DigitOf(s[n - 1]) * Tens(|s| - n)
  }

  ghost function Signed(size: nat, negative: bool): int {
    if negative then -(size as int) else size
  }

  ghost predicate WholeText(t: string) {
    AllDigits(t) && t != "" && (t[0] == '0' ==> t == "0")
  }

  ghost predicate FractionText(t: string, digits: string) {
    AllDigits(digits) && if digits == "" then t == "" else t == "." + digits
  }

  ghost predicate ExponentOf(t: string, digits: string, negative: bool) {
    && AllDigits(digits) && digits != "" && |t| >= 2 && t[0] in {'e', 'E'}
    && ((t[1..] == digits && !negative) || (t[1] == '+' && t[2..] == digits && !negative)
        || (t[1] == '-' && t[2..] == digits && negative))
  }

  /** A sign, digits, a fraction and an exponent, and the value they stand for. */
  ghost predicate NumberParts(t: string, negative: bool, whole: string, f: string, fraction: string, x: string,
                              e: string, below: bool, v: Json) {
    && t == (if negative then "-" else "") + whole + f + x
    && WholeText(whole) && FractionText(f, fraction)
    && if x == "" then
         if fraction == "" then v == Int(Signed(PlaceSum(whole, |whole|), negative))
         else v == Number(Numeral(negative, whole, fraction, 0))
       else
         && ExponentOf(x, e, below)
         && v == Number(Numeral(negative, whole, fraction, Signed(PlaceSum(e, |e|), below)))
  }

  /** A number (section 6): an integer, or one with a fraction or an exponent. */
  ghost predicate NumberText(t: string, v: Json) {
    exists negative, whole, f, fraction, x, e, below :: NumberParts(t, negative, whole, f, fraction, x, e, below, v)
  }

  // ---------------------------------------------------------------- values

  /** A text without white space around it stands for this value. */
  ghost predicate Spells(t: string, v: Json)
    decreases |t|, 0
  {
    match v
    case Null => t == "null"
    case Bool(b) => t == if b then "true" else "false"
    case Int(_) => NumberText(t, v)
    case Number(_) => NumberText(t, v)
    case Text(s) => Quotation(t, s)
    case Array(items) => |t| >= 2 && t[0] == '[' && t[|t| - 1] == ']'
                         && if items == [] then White(t[1..|t| - 1]) else Elements(t[1..|t| - 1], items)
    case Object(fields) => |t| >= 2 && t[0] == '{' && t[|t| - 1] == '}'
                           && if fields == [] then White(t[1..|t| - 1]) else Members(t[1..|t| - 1], fields)
    case _ => false
  }

  /** A value with white space around it. */
  ghost predicate Element(t: string, v: Json)
    decreases |t|, 1
  {
    exists a, b :: 0 <= a <= b <= |t| && White(t[..a]) && White(t[b..]) && Spells(t[a..b], v)
  }

  ghost predicate Elements(t: string, items: seq<Json>)
    requires items != []
    decreases |t|, 2
  {
    if |items| == 1 then Element(t, items[0])
    else exists k :: 0 <= k < |t| && t[k] == ',' && Element(t[..k], items[0]) && Elements(t[k + 1..], items[1..])
  }

  ghost predicate Name(t: string, key: string) {
    exists a, b :: 0 <= a <= b <= |t| && White(t[..a]) && White(t[b..]) && Quotation(t[a..b], key)
  }

  ghost predicate Member(t: string, f: Field)
    decreases |t|, 2
  {
    exists k :: 0 <= k < |t| && t[k] == ':' && Name(t[..k], f.key) && Element(t[k + 1..], f.value)
  }

  ghost predicate Members(t: string, fields: seq<Field>)
    requires fields != []
    decreases |t|, 3
  {
    if |fields| == 1 then Member(t, fields[0])
    else exists k :: 0 <= k < |t| && t[k] == ',' && Member(t[..k], fields[0]) && Members(t[k + 1..], fields[1..])
  }

  /** What the loader asks for besides: keys are unique, and decimal numbers stay in the range of binary64. */
  ghost predicate Acceptable(v: Json) {
    match v
    case Array(items) => forall i :: 0 <= i < |items| ==> Acceptable(items[i])
    case Object(fields) => UniqueKeys(fields) && forall i :: 0 <= i < |fields| ==> Acceptable(fields[i].value)
    case Number(n) => n.Valid() && Round(DOUBLE, n.Value()).Ok?
    case _ => true
  }

  // ---------------------------------------------------------------- digits

  /** The value of digits is the sum of their places. */
  lemma {:induction false} PlacesAre(s: string)
    requires AllDigits(s)
    ensures DigitsValue(s) == PlaceSum(s, |s|)
  {
    if s != "" {
      var n := |s| - 1;
      PlacesAre(s[..n]);
      PlacesShift(s, n);
    }
  }

  lemma {:induction false} PlacesShift(s: string, n: nat)
    requires AllDigits(s) && n < |s|
    ensures PlaceSum(s, n) == 10 * PlaceSum(s[..|s| - 1], n)
  {
    if n > 0 {
      PlacesShift(s, n - 1);
      assert Tens(|s| - n) == 10 * Tens(|s| - 1 - n);
      TenTimes(DigitOf(s[n - 1]), Tens(|s| - 1 - n));
    }
  }

  lemma TenTimes(d: int, t: int)
    ensures d * (10 * t) == 10 * (d * t)
  {
  }

  // ---------------------------------------------------------------- reading follows the grammar

  lemma WhiteIs(c: char)
    ensures IsSpace(c) <==> c in WHITE
  {
  }

  /** Skipping white space skips exactly white space. */
  lemma {:induction false} SkipWhite(s: string)
    ensures Skip(s) == s[|s| - |Skip(s)|..] && White(s[..|s| - |Skip(s)|])
    ensures Skip(s) != "" ==> Skip(s)[0] !in WHITE
  {
    if s != "" {
      WhiteIs(s[0]);
      if IsSpace(s[0]) {
        SkipWhite(s[1..]);
        var n := |s| - |Skip(s)|;
        assert s[..n] == [s[0]] + s[1..][..n - 1];
        assert s[n..] == s[1..][n - 1..];
      }
    }
  }

  /** A text begins with white space and an expected character. */
  lemma ExpectWhite(s: string, c: char)
    requires Expect(s, c).Some?
    ensures var n := |s| - |Expect(s, c).value| - 1;
            && 0 <= n < |s| && s[n] == c && White(s[..n]) && s[n + 1..] == Expect(s, c).value
  {
    SkipWhite(s);
    var t := Skip(s);
    assert t[0] == s[|s| - |t|] && t[1..] == s[|s| - |t| + 1..];
  }

  lemma HexIs(c: char)
    ensures forall d: nat :: HexDigit(c, d) <==> HexValue(c) == Some(d)
  {
    forall d: nat ensures HexDigit(c, d) <==> HexValue(c) == Some(d) {
      if d < 16 {
        HexTable(d);
      }
    }
  }

  lemma HexTable(d: nat)
    requires d < 16
    ensures d < 10 ==> "0123456789abcdef"[d] == "0123456789ABCDEF"[d] == '0' + (d as char)
    ensures d >= 10 ==>
              "0123456789abcdef"[d] == 'a' + ((d - 10) as char) && "0123456789ABCDEF"[d] == 'A' + ((d - 10) as char)
  {
  }

  lemma HexCodeIs(t: string)
    requires |t| == 4
    ensures var a, b, c, d := HexValue(t[0]), HexValue(t[1]), HexValue(t[2]), HexValue(t[3]);
            if a.None? || b.None? || c.None? || d.None? then forall code :: !HexCode(t, code)
            else forall code: nat ::
              HexCode(t, code) <==> code == ((a.value * 16 + b.value) * 16 + c.value) * 16 + d.value
  {
    HexIs(t[0]);
    HexIs(t[1]);
    HexIs(t[2]);
    HexIs(t[3]);
    var a, b, c, d := HexValue(t[0]), HexValue(t[1]), HexValue(t[2]), HexValue(t[3]);
    if a.Some? && b.Some? && c.Some? && d.Some? {
      assert HexDigit(t[0], a.value) && HexDigit(t[1], b.value) && HexDigit(t[2], c.value) && HexDigit(t[3], d.value);
    }
    hide HexValue, HexDigit;
  }

  /** An escape is read exactly as the table says. */
  lemma EscapeIs(s: string)
    requires ScanEscape(s).Some?
    ensures var n := |s| - |ScanEscape(s).value.1|;
            0 < n && Letter("\\" + s[..n], ScanEscape(s).value.0) && s[n..] == ScanEscape(s).value.1
  {
    var n := |s| - |ScanEscape(s).value.1|;
    var t := "\\" + s[..n];
    if s[0] == 'u' {
      hide HexValue, HexCode;
      assert n == 5 && t[1] == s[0] && t[2..] == s[1..5];
      HexCodeIs(s[1..5]);
    } else {
      hide HexCode;
      assert n == 1 && t[1] == s[0];
    }
  }

  lemma LettersNext(t: string, k: nat, c: char, s: string)
    requires 0 < k <= |t| && Letter(t[..k], c) && Letters(t[k..], s)
    ensures Letters(t, [c] + s)
  {
    hide Letter;
    assert ([c] + s)[1..] == s;
  }

  lemma {:induction false} StringIs(s: string)
    requires ScanString(s).Some?
    ensures var n := |s| - |ScanString(s).value.1| - 1;
            && 0 <= n && s[n] == '"' && s[n + 1..] == ScanString(s).value.1
            && Letters(s[..n], ScanString(s).value.0)
    decreases |s|
  {
    hide Letter, ScanEscape, Letters;
    if s[0] == '"' {
      NoLetters(s[..0]);
    } else if s[0] == '\\' {
      EscapeIs(s[1..]);
      var e := ScanEscape(s[1..]).value;
      var r := ScanString(e.1).value;
      assert ScanString(s) == Some(([e.0] + r.0, r.1));
      hide ScanString;
      StringIs(e.1);
      Backslash(s, e.1);
      LetterFirst(s, |s| - |e.1|, e.1, e.0, r.0, |e.1| - |r.1| - 1);
    } else {
      var r := ScanString(s[1..]).value;
      assert ScanString(s) == Some(([s[0]] + r.0, r.1));
      PlainLetter(s[0]);
      hide ScanString;
      StringIs(s[1..]);
      assert s[..1] == [s[0]];
      LetterFirst(s, 1, s[1..], s[0], r.0, |s| - 1 - |r.1| - 1);
    }
  }

  lemma Backslash(s: string, tail: string)
    requires s != "" && s[0] == '\\' && |tail| < |s| && s[1..][|s| - 1 - |tail|..] == tail
    ensures var k := |s| - |tail|; s[k..] == tail && s[..k] == "\\" + s[1..][..k - 1]
  {
  }

  /** A letter, and the letters after it. */
  lemma LetterFirst(s: string, k: nat, tail: string, c: char, more: string, m: nat)
    requires 0 < k <= |s| && s[k..] == tail && m < |tail| && Letter(s[..k], c) && Letters(tail[..m], more)
    ensures s[k + m] == tail[m] && s[k + m + 1..] == tail[m + 1..] && Letters(s[..k + m], [c] + more)
  {
    hide Letter, Letters;
    Prefixes(s, k, k + m, tail);
    LettersNext(s[..k + m], k, c, more);
  }

  lemma Prefixes(s: string, k: nat, n: nat, tail: string)
    requires k <= n < |s| && s[k..] == tail
    ensures s[..n][..k] == s[..k] && s[..n][k..] == tail[..n - k] && s[n] == tail[n - k]
    ensures s[n + 1..] == tail[n - k + 1..]
  {
  }

  lemma NoLetters(t: string)
    requires t == ""
    ensures Letters(t, "")
  {
  }

  lemma PlainLetter(c: char)
    requires ' ' <= c && c != '"' && c != '\\'
    ensures Letter([c], c)
  {
  }

  /** A quoted string after its opening quote. */
  lemma QuotationIs(t: string)
    requires t != "" && t[0] == '"' && ScanString(t[1..]).Some?
    ensures var n := |t| - |ScanString(t[1..]).value.1|;
            Quotation(t[..n], ScanString(t[1..]).value.0) && t[n..] == ScanString(t[1..]).value.1
  {
    StringIs(t[1..]);
    var n := |t| - |ScanString(t[1..]).value.1|;
    assert t[..n][1..n - 1] == t[1..][..n - 2];
    assert t[n..] == t[1..][n - 1..];
    hide Letters;
  }

  // ---------------------------------------------------------------- numbers that are read

  lemma WholeIs(s: string)
    ensures ReadWhole(s).0 != "" ==> WholeText(ReadWhole(s).0)
  {
    if !(s != "" && s[0] == '0') {
      TakesFirst(s);
    }
  }

  lemma TakesFirst(s: string)
    ensures TakeDigits(s).0 != "" ==> s != "" && TakeDigits(s).0[0] == s[0]
  {
  }

  lemma FractionIs(s: string) returns (t: string)
    ensures FractionText(t, ReadFraction(s).0) && s == t + ReadFraction(s).1
  {
    t := "";
    if s != "" && s[0] == '.' && TakeDigits(s[1..]).0 != "" {
      t := "." + TakeDigits(s[1..]).0;
      assert s == "." + s[1..];
    }
  }

  lemma ExponentIs(s: string) returns (t: string, e: string, below: bool)
    requires ReadExponent(s).Some?
    ensures ExponentOf(t, e, below) && s == t + ReadExponent(s).value.1
    ensures ReadExponent(s).value.0 == Signed(PlaceSum(e, |e|), below)
  {
    hide DigitsValue, PlaceSum, TakeDigits;
    var k := if s[1] in ['+', '-'] then 2 else 1;
    e, below := TakeDigits(s[k..]).0, s[1] == '-';
    t := s[..k] + e;
    Collections.Regroup(s[..k], e, ReadExponent(s).value.1);
    assert s == s[..k] + s[k..];
    assert t[k..] == e && t[0] == s[0] && (k == 2 ==> t[1] == s[1]);
    PlacesAre(e);
    hide ReadExponent;
  }

  lemma UnsignedIs(s: string, negative: bool) returns (t: string)
    requires ReadUnsigned(s, negative).Some?
    ensures s == t + ReadUnsigned(s, negative).value.1
    ensures NumberText((if negative then "-" else "") + t, ReadUnsigned(s, negative).value.0)
  {
    hide ReadWhole, ReadFraction, ReadExponent, DigitsValue, PlaceSum, FractionText, ExponentOf, WholeText;
    var w := ReadWhole(s);
    var f := ReadFraction(w.1);
    WholeIs(s);
    PlacesAre(w.0);
    var ft := FractionIs(w.1);
    var xt, e, below := "", "", false;
    if ReadExponent(f.1).Some? {
      xt, e, below := ExponentIs(f.1);
      NotEmpty(xt, e, below);
    } else if f.0 == "" {
      EmptyFraction(ft);
    }
    t := w.0 + ft + xt;
    var all := (if negative then "-" else "") + t;
    assert all == (if negative then "-" else "") + w.0 + ft + xt;
    assert NumberParts(all, negative, w.0, ft, f.0, xt, e, below, ReadUnsigned(s, negative).value.0);
  }

  lemma NotEmpty(t: string, e: string, below: bool)
    requires ExponentOf(t, e, below)
    ensures t != ""
  {
  }

  lemma EmptyFraction(t: string)
    requires FractionText(t, "")
    ensures t == ""
  {
  }

  lemma NumberIs(s: string)
    requires ReadNumber(s).Some?
    ensures var n := |s| - |ReadNumber(s).value.1|;
            n > 0 && NumberText(s[..n], ReadNumber(s).value.0) && s[n..] == ReadNumber(s).value.1
    ensures ReadNumber(s).value.0.Int? || ReadNumber(s).value.0.Number?
  {
    hide ReadUnsigned, NumberText;
    var n := |s| - |ReadNumber(s).value.1|;
    if s != "" && s[0] == '-' {
      var t := UnsignedIs(s[1..], true);
      assert s == "-" + t + ReadNumber(s).value.1 by { assert s == "-" + s[1..]; }
      assert s[..n] == "-" + t;
      UnsignedKind(s[1..], true);
    } else {
      var t := UnsignedIs(s, false);
      assert s[..n] == t == "" + t;
      UnsignedKind(s, false);
    }
  }

  lemma UnsignedKind(s: string, negative: bool)
    requires ReadUnsigned(s, negative).Some?
    ensures ReadUnsigned(s, negative).value.0.Int? || ReadUnsigned(s, negative).value.0.Number?
  {
  }

  // ---------------------------------------------------------------- values that are read

  /** The text read is white space and a text of the grammar, and the rest is left. */
  ghost predicate ReadAs(s: string, a: nat, v: Json, rest: string) {
    var n := |s| - |rest|;
    a <= n <= |s| && White(s[..a]) && Spells(s[a..n], v) && s[n..] == rest && Acceptable(v)
  }

  lemma {:induction false} ReadIs(s: string)
    requires ReadValue(s).Some?
    ensures ReadAs(s, |s| - |Skip(s)|, ReadValue(s).value.0, ReadValue(s).value.1)
    decreases |s|, 1
  {
    var t := Skip(s);
    SkipWhite(s);
    SameFromSkip(s);
    SkipTwice(s);
    hide ReadAs, ReadValue, White, Skip;
    if t[0] == '{' || t[0] == '[' {
      ContainerIs(s);
    } else {
      if t[0] == '"' {
        TextIs(t);
      } else {
        WordIs(t);
      }
      ReadAsBy(s, t, ReadValue(s).value.0, ReadValue(s).value.1);
    }
  }

  lemma ReadAsBy(s: string, t: string, v: Json, rest: string)
    requires |t| <= |s| && t == s[|s| - |t|..] && White(s[..|s| - |t|])
    requires |rest| <= |t| && Spells(t[..|t| - |rest|], v) && t[|t| - |rest|..] == rest && Acceptable(v)
    ensures ReadAs(s, |s| - |t|, v, rest)
  {
    hide White, Spells, Acceptable;
    var a, n := |s| - |t|, |t| - |rest|;
    assert s[a..a + n] == t[..n] && s[a + n..] == t[n..];
  }

  lemma TextIs(t: string)
    requires t != "" && Skip(t) == t && t[0] == '"' && ReadValue(t).Some?
    ensures var n := |t| - |ReadValue(t).value.1|;
            n >= 0 && Spells(t[..n], ReadValue(t).value.0) && t[n..] == ReadValue(t).value.1
    ensures Acceptable(ReadValue(t).value.0)
  {
    hide ReadItems, ReadFields, ReadNumber, ScanString, Quotation;
    QuotationIs(t);
  }

  lemma SameFromSkip(s: string)
    ensures ReadValue(Skip(s)) == ReadValue(s)
  {
    SkipTwice(s);
    hide ReadNumber, ReadItems, ReadFields, ScanString;
  }

  lemma {:induction false} SkipTwice(s: string)
    ensures Skip(Skip(s)) == Skip(s)
  {
    if s != "" && IsSpace(s[0]) {
      SkipTwice(s[1..]);
    }
  }

  /** Numbers and the three words. */
  lemma WordIs(t: string)
    requires t != "" && Skip(t) == t && t[0] !in {'{', '[', '"'} && ReadValue(t).Some?
    ensures var n := |t| - |ReadValue(t).value.1|;
            n >= 0 && Spells(t[..n], ReadValue(t).value.0) && t[n..] == ReadValue(t).value.1
    ensures Acceptable(ReadValue(t).value.0)
  {
    hide ReadValue, ReadNumber, Spells, Acceptable, Skip;
    if "null" <= t || "true" <= t || "false" <= t {
      NameRead(t);
    } else {
      NumberRead(t);
      NumberIs(t);
      NumberSpells(t, ReadNumber(t).value.0, ReadNumber(t).value.1);
    }
  }

  lemma NumberSpells(t: string, v: Json, rest: string)
    requires |rest| <= |t| && NumberText(t[..|t| - |rest|], v) && (v.Int? || v.Number?)
    requires v.Number? ==> v.numeral.Valid() && Round(DOUBLE, v.numeral.Value()).Ok?
    ensures Spells(t[..|t| - |rest|], v) && Acceptable(v)
  {
    hide NumberText, Round;
  }

  lemma NameRead(t: string)
    requires t != "" && Skip(t) == t && ("null" <= t || "true" <= t || "false" <= t)
    ensures ReadValue(t) == if "null" <= t then Some((Null, t[4..]))
                            else if "true" <= t then Some((Bool(true), t[4..])) else Some((Bool(false), t[5..]))
    ensures Spells("null", Null) && Spells("true", Bool(true)) && Spells("false", Bool(false))
    ensures Acceptable(Null) && Acceptable(Bool(true)) && Acceptable(Bool(false))
    ensures "null" <= t ==> t[..4] == "null"
    ensures "true" <= t ==> t[..4] == "true"
    ensures "false" <= t ==> t[..5] == "false"
  {
    hide ReadItems, ReadFields, ReadNumber, ScanString;
    assert t[0] !in {'{', '[', '"'};
  }

  lemma NumberRead(t: string)
    requires t != "" && Skip(t) == t && t[0] !in {'{', '[', '"'} && ReadValue(t).Some?
    requires !("null" <= t) && !("true" <= t) && !("false" <= t)
    ensures ReadNumber(t) == ReadValue(t)
    ensures ReadNumber(t).value.0.Number? ==>
              ReadNumber(t).value.0.numeral.Valid() && Round(DOUBLE, ReadNumber(t).value.0.numeral.Value()).Ok?
  {
    hide ReadItems, ReadFields, ScanString, Round;
    NumberValid(t);
    hide ReadNumber;
  }

  lemma NumberValid(t: string)
    requires ReadNumber(t).Some?
    ensures ReadNumber(t).value.0.Number? ==> ReadNumber(t).value.0.numeral.Valid()
  {
  }

  lemma {:induction false} ContainerIs(s: string)
    requires ReadValue(s).Some? && Skip(s) != "" && Skip(s)[0] in {'{', '['}
    ensures ReadAs(s, |s| - |Skip(s)|, ReadValue(s).value.0, ReadValue(s).value.1)
    decreases |s|, 0
  {
    hide ReadItems, ReadFields, ReadValue, White, Elements, Members, Spells, Acceptable, Skip, ReadAs, Expect;
    var t := Skip(s);
    var v, rest := ReadValue(s).value.0, ReadValue(s).value.1;
    SkipWhite(s);
    SameFromSkip(s);
    SkipTwice(s);
    BracketIs(t, v, rest);
    var u := t[1..];
    var c := if v.Array? then ']' else '}';
    if v == Array([]) || v == Object([]) {
      ExpectWhite(u, c);
      Inside(t, rest, c);
      EmptySpells(t[..|t| - |rest|], v);
    } else if v.Array? {
      ItemsAre(u);
      Inside(t, rest, c);
      ArraySpells(t[..|t| - |rest|], v);
    } else {
      FieldsAre(u);
      Inside(t, rest, c);
      ObjectSpells(t[..|t| - |rest|], v);
    }
    ReadAsBy(s, t, v, rest);
  }

  /** The text between two brackets. */
  lemma Inside(t: string, rest: string, c: char)
    requires t != "" && |rest| + 2 <= |t| && t[1..][|t| - |rest| - 2] == c && t[1..][|t| - |rest| - 1..] == rest
    ensures var n := |t| - |rest|;
            && t[..n][1..n - 1] == t[1..][..n - 2] && t[..n][n - 1] == c && t[..n][0] == t[0] && t[n..] == rest
  {
  }

  /** What reading a bracket comes to. */
  lemma BracketIs(t: string, v: Json, rest: string)
    requires t != "" && t[0] in {'{', '['} && Skip(t) == t && ReadValue(t) == Some((v, rest))
    ensures t[0] == '[' ==>
              && v.Array?
              && if v.items == [] then Expect(t[1..], ']') == Some(rest) else ReadItems(t[1..]) == Some((v.items, rest))
    ensures t[0] == '{' ==>
              && v.Object? && UniqueKeys(v.fields)
              && if v.fields == [] then Expect(t[1..], '}') == Some(rest)
                 else ReadFields(t[1..]) == Some((v.fields, rest))
  {
    hide ReadNumber, ScanString, Expect;
  }

  lemma EmptySpells(t: string, v: Json)
    requires v == Array([]) || v == Object([])
    requires |t| >= 2 && White(t[1..|t| - 1])
    requires if v.Array? then t[0] == '[' && t[|t| - 1] == ']' else t[0] == '{' && t[|t| - 1] == '}'
    ensures Spells(t, v) && Acceptable(v)
  {
    hide White;
  }

  lemma ArraySpells(t: string, v: Json)
    requires v.Array? && v.items != [] && |t| >= 2 && t[0] == '[' && t[|t| - 1] == ']'
    requires Elements(t[1..|t| - 1], v.items) && forall i :: 0 <= i < |v.items| ==> Acceptable(v.items[i])
    ensures Spells(t, v) && Acceptable(v)
  {
    hide Elements;
  }

  lemma ObjectSpells(t: string, v: Json)
    requires v.Object? && v.fields != [] && |t| >= 2 && t[0] == '{' && t[|t| - 1] == '}' && UniqueKeys(v.fields)
    requires Members(t[1..|t| - 1], v.fields)
    requires forall i :: 0 <= i < |v.fields| ==> Acceptable(v.fields[i].value)
    ensures Spells(t, v) && Acceptable(v)
  {
    hide Members;
  }

  /** A value read before a separator is an element. */
  lemma ElementIs(s: string, a: nat, v: Json, rest: string, c: char)
    requires ReadAs(s, a, v, rest) && Expect(rest, c).Some?
    ensures var m := |s| - |Expect(rest, c).value| - 1;
            && 0 <= m < |s| && s[m] == c && Element(s[..m], v) && s[m + 1..] == Expect(rest, c).value
  {
    hide Spells, Acceptable, White, Expect;
    ExpectWhite(rest, c);
    var n := |s| - |rest|;
    var m := |s| - |Expect(rest, c).value| - 1;
    var t := s[..m];
    assert t[..a] == s[..a] && t[a..n] == s[a..n] && t[n..] == rest[..m - n];
    assert s[m] == rest[m - n] && s[m + 1..] == rest[m - n + 1..];
  }

  lemma {:induction false} ItemsAre(s: string)
    requires ReadItems(s).Some?
    ensures var n := |s| - |ReadItems(s).value.1| - 1; var items := ReadItems(s).value.0;
            && 0 <= n < |s| && s[n] == ']' && s[n + 1..] == ReadItems(s).value.1
            && items != [] && Elements(s[..n], items)
            && forall i :: 0 <= i < |items| ==> Acceptable(items[i])
    decreases |s|, 2
  {
    hide ReadAs, Spells, Element, Elements, Acceptable, ReadValue, Expect, Skip;
    ReadIs(s);
    var v, r := ReadValue(s).value.0, ReadValue(s).value.1;
    AcceptableRead(s, |s| - |Skip(s)|, v, r);
    if Expect(r, ']').Some? {
      ElementIs(s, |s| - |Skip(s)|, v, r, ']');
      OneElement(s[..|s| - |ReadItems(s).value.1| - 1], v);
    } else {
      ElementIs(s, |s| - |Skip(s)|, v, r, ',');
      var u := Expect(r, ',').value;
      ItemsAre(u);
      var items := ReadItems(u).value.0;
      assert ReadItems(s).value == ([v] + items, ReadItems(u).value.1);
      hide ReadItems;
      Onward(s, u, ReadItems(s).value.1, ']');
      MoreElements(s[..|s| - |ReadItems(s).value.1| - 1], |s| - |u| - 1, v, items);
    }
  }

  /** What follows a comma, inside the text of a container. */
  lemma Onward(s: string, u: string, rest: string, c: char)
    requires |u| < |s| && s[|s| - |u|..] == u && |rest| < |u| && u[|u| - |rest| - 1] == c && u[|u| - |rest|..] == rest
    ensures var k, n, m := |s| - |u| - 1, |s| - |rest| - 1, |u| - |rest| - 1;
            && k < n && s[..n][..k] == s[..k] && s[..n][k] == s[k] && s[..n][k + 1..] == u[..m] && s[n] == c
            && s[n + 1..] == rest
  {
  }

  lemma AcceptableRead(s: string, a: nat, v: Json, rest: string)
    requires ReadAs(s, a, v, rest)
    ensures Acceptable(v)
  {
    hide Acceptable, Spells;
  }

  lemma OneElement(t: string, v: Json)
    requires Element(t, v)
    ensures Elements(t, [v])
  {
    hide Element;
  }

  lemma MoreElements(t: string, k: nat, v: Json, items: seq<Json>)
    requires k < |t| && t[k] == ',' && Element(t[..k], v) && items != [] && Elements(t[k + 1..], items)
    ensures Elements(t, [v] + items)
  {
    hide Element;
    assert ([v] + items)[1..] == items;
  }

  lemma OneMember(t: string, f: Field)
    requires Member(t, f)
    ensures Members(t, [f])
  {
    hide Member;
  }

  lemma MoreMembers(t: string, k: nat, f: Field, fields: seq<Field>)
    requires k < |t| && t[k] == ',' && Member(t[..k], f) && fields != [] && Members(t[k + 1..], fields)
    ensures Members(t, [f] + fields)
  {
    hide Member;
    assert ([f] + fields)[1..] == fields;
  }

  /** A member read before a separator is one of the grammar. */
  lemma {:induction false} FieldIs(s: string, c: char)
    requires ReadField(s).Some? && Expect(ReadField(s).value.1, c).Some?
    ensures var u := Expect(ReadField(s).value.1, c).value; var m := |s| - |u| - 1;
            && 0 <= m < |s| && s[m] == c && s[m + 1..] == u && Member(s[..m], ReadField(s).value.0)
    ensures Acceptable(ReadField(s).value.0.value)
    decreases |s|, 2
  {
    hide ReadValue, ReadAs, ScanString, Expect, Skip, Spells, Acceptable, Element, Name;
    var k := ScanString(Expect(s, '"').value).value;
    var colon := Expect(k.1, ':').value;
    var f, r := ReadField(s).value.0, ReadField(s).value.1;
    var u := Expect(r, c).value;
    NameIs(s);
    var j := |s| - |colon| - 1;
    assert |colon| < |s| && s[j + 1..] == colon;
    ReadIs(colon);
    AcceptableRead(colon, |colon| - |Skip(colon)|, f.value, r);
    ElementIs(colon, |colon| - |Skip(colon)|, f.value, r, c);
    var m, i := |s| - |u| - 1, |colon| - |u| - 1;
    assert s[..m][..j] == s[..j] && s[..m][j + 1..] == colon[..i] && s[m] == colon[i] && s[m + 1..] == colon[i + 1..];
    MemberBy(s[..m], j, f);
  }

  lemma MemberBy(t: string, k: nat, f: Field)
    requires k < |t| && t[k] == ':' && Name(t[..k], f.key) && Element(t[k + 1..], f.value)
    ensures Member(t, f)
  {
    hide Name, Element;
  }

  /** The key of a member, up to its colon. */
  lemma NameIs(s: string)
    requires ReadField(s).Some?
    ensures var k := ScanString(Expect(s, '"').value).value; var colon := Expect(k.1, ':').value;
            var j := |s| - |colon| - 1;
            && 0 <= j < |s| && s[j] == ':' && s[j + 1..] == colon && Name(s[..j], k.0) && |colon| < |s|
  {
    hide ReadValue, ScanString, Expect, Quotation, White;
    var q := Expect(s, '"').value;
    var k := ScanString(q).value;
    var colon := Expect(k.1, ':').value;
    hide ReadField;
    ExpectWhite(s, '"');
    var a := |s| - |q| - 1;
    var t := s[a..];
    assert t[1..] == q && t[0] == '"';
    QuotationIs(t);
    ExpectWhite(k.1, ':');
    var b, j := |s| - |k.1|, |s| - |colon| - 1;
    assert s[b..] == k.1 by { assert t[|t| - |k.1|..] == s[b..]; }
    assert s[a..b] == t[..|t| - |k.1|];
    Prefixes(s, b, j, k.1);
    assert s[..j][..a] == s[..a] && s[..j][a..b] == s[a..b];
  }

  lemma {:induction false} FieldsAre(s: string)
    requires ReadFields(s).Some?
    ensures var n := |s| - |ReadFields(s).value.1| - 1; var fields := ReadFields(s).value.0;
            && 0 <= n < |s| && s[n] == '}' && s[n + 1..] == ReadFields(s).value.1
            && fields != [] && Members(s[..n], fields)
            && forall i :: 0 <= i < |fields| ==> Acceptable(fields[i].value)
    decreases |s|, 3
  {
    hide ReadField, Member, Members, Acceptable, Expect;
    var f, r := ReadField(s).value.0, ReadField(s).value.1;
    if Expect(r, '}').Some? {
      FieldIs(s, '}');
      OneMember(s[..|s| - |ReadFields(s).value.1| - 1], f);
    } else {
      FieldIs(s, ',');
      var u := Expect(r, ',').value;
      FieldsAre(u);
      var fields := ReadFields(u).value.0;
      assert ReadFields(s).value == ([f] + fields, ReadFields(u).value.1);
      hide ReadFields;
      Onward(s, u, ReadFields(s).value.1, '}');
      MoreMembers(s[..|s| - |ReadFields(s).value.1| - 1], |s| - |u| - 1, f, fields);
    }
  }

  // ---------------------------------------------------------------- strings of the grammar are read

  lemma HexScans(t: string, c: char, u: string)
    requires |t| == 5 && t[0] == 'u' && HexCode(t[1..], c as nat)
    ensures ScanEscape(t + u) == Some((c, u))
  {
    hide HexValue, HexCode, ScanEscape;
    var e := t + u;
    HexRead(t[1..], c as nat);
    assert e[5..] == u && e[..5] == t;
    assert e[0] == t[0] && e[1] == t[1] && e[2] == t[2] && e[3] == t[3] && e[4] == t[4];
    HexEscape(e, HexValue(e[1]).value, HexValue(e[2]).value, HexValue(e[3]).value, HexValue(e[4]).value, c);
  }

  lemma HexEscape(e: string, p: nat, q: nat, r: nat, s: nat, c: char)
    requires |e| >= 5 && e[0] == 'u' && c as nat == ((p * 16 + q) * 16 + r) * 16 + s
    requires HexValue(e[1]) == Some(p) && HexValue(e[2]) == Some(q) && HexValue(e[3]) == Some(r)
    requires HexValue(e[4]) == Some(s) && p < 16 && q < 16 && r < 16 && s < 16
    ensures ScanEscape(e) == Some((c, e[5..]))
  {
    hide HexValue;
    assert c as int < 0x10000;
    assert (c as int) as char == c;
  }

  lemma HexSmall(c: char)
    ensures HexValue(c).Some? ==> HexValue(c).value < 16
  {
  }

  lemma HexRead(t: string, code: nat)
    requires |t| == 4 && HexCode(t, code)
    ensures var a, b, c, d := HexValue(t[0]), HexValue(t[1]), HexValue(t[2]), HexValue(t[3]);
            && a.Some? && b.Some? && c.Some? && d.Some?
            && a.value < 16 && b.value < 16 && c.value < 16 && d.value < 16
            && code == ((a.value * 16 + b.value) * 16 + c.value) * 16 + d.value
  {
    HexCodeIs(t);
    HexSmall(t[0]);
    HexSmall(t[1]);
    HexSmall(t[2]);
    HexSmall(t[3]);
    hide HexValue, HexCode;
  }

  lemma ShortScans(t: string, c: char, u: string)
    requires |t| == 1 && t[0] in SHORT && SHORT[t[0]] == c
    ensures ScanEscape(t + u) == Some((c, u))
  {
    var e := t + u;
    assert e[1..] == u && e[0] == t[0];
  }

  lemma LetterScans(t: string, c: char, u: string)
    requires Letter(t, c)
    ensures t != "" && ScanString(t + u) == if ScanString(u).None? then None
                                            else Some(([c] + ScanString(u).value.0, ScanString(u).value.1))
  {
    hide ScanEscape, HexCode;
    var all := t + u;
    assert all[1..] == t[1..] + u;
    if t[0] == '\\' {
      if |t| == 2 {
        ShortScans(t[1..], c, u);
      } else {
        assert t[1..][1..] == t[2..];
        HexScans(t[1..], c, u);
      }
    } else {
      assert all[1..] == u;
    }
  }

  lemma {:induction false} LettersScan(t: string, s: string, rest: string)
    requires Letters(t, s)
    ensures ScanString(t + "\"" + rest) == Some((s, rest))
    decreases |s|
  {
    var all := t + "\"" + rest;
    if s == "" {
      hide Letters, ScanString;
      NoText(t);
      assert all == "\"" + rest;
      ClosingScans(rest);
    } else {
      var k := FirstLetter(t, s);
      hide Letter, Letters, ScanString;
      var u := t[k..] + "\"" + rest;
      Tail(t, k, "\"", rest);
      LettersScan(t[k..], s[1..], rest);
      LetterScans(t[..k], s[0], u);
      assert s == [s[0]] + s[1..];
    }
  }

  lemma Tail(t: string, k: nat, close: string, rest: string)
    requires k <= |t|
    ensures t + close + rest == t[..k] + (t[k..] + close + rest)
  {
    assert t == t[..k] + t[k..];
  }

  lemma ClosingScans(rest: string)
    ensures ScanString("\"" + rest) == Some(("", rest))
  {
    hide ScanEscape;
    assert ("\"" + rest)[1..] == rest;
  }

  lemma NoText(t: string)
    requires Letters(t, "")
    ensures t == ""
  {
  }

  lemma FirstLetter(t: string, s: string) returns (k: nat)
    requires Letters(t, s) && s != ""
    ensures 0 < k <= |t| && Letter(t[..k], s[0]) && Letters(t[k..], s[1..])
  {
    hide Letter;
    k :| 0 < k <= |t| && Letter(t[..k], s[0]) && Letters(t[k..], s[1..]);
  }

  lemma QuotationScans(t: string, s: string, rest: string)
    requires Quotation(t, s)
    ensures (t + rest)[0] == '"' && ScanString((t + rest)[1..]) == Some((s, rest))
  {
    hide Letters;
    var inner := t[1..|t| - 1];
    assert (t + rest)[1..] == inner + "\"" + rest;
    LettersScan(inner, s, rest);
  }

  // ---------------------------------------------------------------- numbers of the grammar are read

  /** What may follow a value. */
  ghost predicate Ends(rest: string) {
    rest == "" || rest[0] in WHITE || rest[0] in {',', ']', '}'}
  }

  lemma WholeReads(whole: string, y: string)
    requires WholeText(whole) && (y == "" || !IsDigit(y[0]))
    ensures ReadWhole(whole + y) == (whole, y)
  {
    TakesDigits(whole, y);
    if whole[0] == '0' {
      assert (whole + y)[..1] == whole && (whole + y)[1..] == y;
    }
  }

  lemma FractionReads(f: string, fraction: string, z: string)
    requires FractionText(f, fraction) && (z == "" || (!IsDigit(z[0]) && z[0] != '.'))
    ensures ReadFraction(f + z) == (fraction, z)
    ensures f + z == "" || !IsDigit((f + z)[0])
  {
    if fraction == "" {
      assert f + z == z;
    } else {
      assert (f + z)[1..] == fraction + z;
      TakesDigits(fraction, z);
    }
  }

  lemma ExponentReads(x: string, e: string, below: bool, rest: string)
    requires ExponentOf(x, e, below) && Ends(rest)
    ensures ReadExponent(x + rest) == Some((Signed(PlaceSum(e, |e|), below), rest))
  {
    hide DigitsValue, PlaceSum, TakeDigits;
    PlacesAre(e);
    NoDigit("", "", false, rest);
    TakesDigits(e, rest);
    ExponentTail(x, e, rest);
    var s := x + rest;
    assert x[1] == '+' || x[1] == '-' <==> x[1..] != e by {
      assert x[1..][0] == x[1];
    }
  }

  lemma ExponentTail(x: string, e: string, rest: string)
    requires |x| >= 2
    ensures var s := x + rest; s[0] == x[0] && s[1] == x[1]
    ensures x[1..] == e ==> (x + rest)[1..] == e + rest
    ensures x[2..] == e ==> (x + rest)[2..] == e + rest
  {
  }

  lemma UnsignedReads(t: string, negative: bool, whole: string, f: string, fraction: string, x: string, e: string,
                      below: bool, v: Json, rest: string)
    requires t == whole + f + x && Ends(rest)
    requires NumberParts((if negative then "-" else "") + whole + f + x, negative, whole, f, fraction, x, e, below, v)
    ensures ReadUnsigned(t + rest, negative) == Some((v, rest))
    ensures t != "" && IsDigit(t[0])
  {
    hide ReadWhole, ReadFraction, ReadExponent, PlaceSum, DigitsValue, FractionText, ExponentOf, WholeText;
    var z := x + rest;
    var y := f + z;
    assert t + rest == whole + y;
    NoDigit(x, e, below, rest);
    FractionReads(f, fraction, z);
    WholeReads(whole, y);
    WholeStarts(whole);
    PlacesAre(whole);
    if x == "" {
      assert z == rest;
      if fraction == "" {
        EmptyFraction(f);
        assert y == rest;
      }
    } else {
      ExponentReads(x, e, below, rest);
    }
  }

  lemma WholeStarts(whole: string)
    requires WholeText(whole)
    ensures AllDigits(whole) && whole != "" && IsDigit(whole[0])
  {
  }

  /** Neither an exponent nor what follows a value begins with a digit or a point. */
  lemma NoDigit(x: string, e: string, below: bool, rest: string)
    requires Ends(rest) && (x == "" || ExponentOf(x, e, below))
    ensures var z := x + rest; z == "" || (!IsDigit(z[0]) && z[0] != '.')
    ensures ReadExponent(rest) == None
  {
  }

  lemma NumberReads(t: string, v: Json, rest: string)
    requires NumberText(t, v) && Ends(rest)
    ensures ReadNumber(t + rest) == Some((v, rest))
    ensures t != "" && (IsDigit(t[0]) || t[0] == '-')
  {
    hide ReadUnsigned, ReadNumber, NumberText;
    var u, negative := NumberOpens(t, v, rest);
    SignReads(negative, u, rest);
  }

  lemma NumberOpens(t: string, v: Json, rest: string) returns (u: string, negative: bool)
    requires NumberText(t, v) && Ends(rest)
    ensures t == (if negative then "-" + u else u) && ReadUnsigned(u + rest, negative) == Some((v, rest))
    ensures u != "" && IsDigit(u[0])
  {
    hide ReadUnsigned, NumberParts;
    var sign, whole, f, fraction, x, e, below :| NumberParts(t, sign, whole, f, fraction, x, e, below, v);
    negative := sign;
    NumberTextIs(t, sign, whole, f, fraction, x, e, below, v);
    u := whole + f + x;
    UnsignedReads(u, negative, whole, f, fraction, x, e, below, v, rest);
    SignFirst(negative, whole, f, x);
  }

  lemma NumberTextIs(t: string, negative: bool, whole: string, f: string, fraction: string, x: string, e: string,
                     below: bool, v: Json)
    requires NumberParts(t, negative, whole, f, fraction, x, e, below, v)
    ensures t == (if negative then "-" else "") + whole + f + x
  {
    hide WholeText, FractionText, ExponentOf, PlaceSum;
  }

  lemma SignFirst(negative: bool, whole: string, f: string, x: string)
    ensures (if negative then "-" else "") + whole + f + x ==
            if negative then "-" + (whole + f + x) else whole + f + x
  {
  }

  // ---------------------------------------------------------------- values of the grammar are read

  lemma WhiteBlank(s: string)
    ensures White(s) <==> Blank(s)
  {
    forall i | 0 <= i < |s| ensures s[i] in WHITE <==> IsSpace(s[i]) {
      WhiteIs(s[i]);
    }
  }

  /** A text of the grammar begins with no white space and with nothing that ends a value. */
  lemma SpellsStarts(t: string, v: Json)
    requires Spells(t, v)
    ensures t != "" && t[0] !in WHITE && t[0] !in {',', ']', '}'}
  {
    hide Elements, Members, Letters, White;
    if v.Int? || v.Number? {
      NumberReads(t, v, "");
    }
  }

  lemma {:induction false} SpelledReads(t: string, v: Json, rest: string)
    requires Spells(t, v) && Acceptable(v) && Ends(rest)
    ensures ReadValue(t + rest) == Some((v, rest))
    decreases |t|, 1
  {
    SpellsStarts(t, v);
    WhiteIs(t[0]);
    assert Skip(t + rest) == t + rest;
    if v.Array? || v.Object? {
      ContainerReads(t, v, rest);
    } else if v.Int? || v.Number? {
      NumberReads(t, v, rest);
      NumberDispatch(t + rest);
    } else if v.Text? {
      hide ReadItems, ReadFields, ReadNumber, ScanString, Quotation, Skip;
      QuotationScans(t, v.s, rest);
    } else {
      WordDispatch(rest);
    }
  }

  /** A value between white space, before a separator: it is read, and the separator is next. */
  /** White space, a text of the grammar, and white space. */
  lemma ElementParts(t: string, v: Json) returns (w: string, x: string, z: string)
    requires Element(t, v)
    ensures t == w + x + z && White(w) && White(z) && Spells(x, v) && |x| <= |t|
  {
    hide White, Spells;
    var a, b :| 0 <= a <= b <= |t| && White(t[..a]) && White(t[b..]) && Spells(t[a..b], v);
    w, x, z := t[..a], t[a..b], t[b..];
  }

  lemma {:induction false} ElementReads(t: string, v: Json, c: char, rest: string) returns (r: string)
    requires Element(t, v) && Acceptable(v) && c in {',', ']', '}'}
    ensures ReadValue(t + [c] + rest) == Some((v, r))
    ensures Expect(r, c) == Some(rest) && forall d :: d != c ==> Expect(r, d) == None
    ensures forall d :: d in {']', '}'} ==> Expect(t + [c] + rest, d) == None
    decreases |t|, 2
  {
    var w, x, z := ElementParts(t, v);
    hide Spells, Acceptable, ReadValue, White, Expect, Element;
    r := z + [c] + rest;
    EndsWhite(z, c, rest);
    SpelledReads(x, v, r);
    SpellsStarts(x, v);
    WhiteIs(c);
    WhiteIs(x[0]);
    WhiteBlank(w);
    WhiteBlank(z);
    ExpectAfter(z, c, rest);
    Regrouped(w, x, z, c, rest);
    BlankReads(w, x + r);
    ExpectAfter(w, x[0], x[1..] + r);
  }

  lemma Regrouped(w: string, x: string, z: string, c: char, rest: string)
    requires x != ""
    ensures w + x + z + [c] + rest == w + (x + (z + [c] + rest)) == w + [x[0]] + (x[1..] + (z + [c] + rest))
  {
    assert x == [x[0]] + x[1..];
  }

  lemma BlankReads(blank: string, t: string)
    requires Blank(blank)
    ensures ReadValue(blank + t) == ReadValue(t)
  {
    hide ReadValue, ReadItems, ReadFields, Expect;
    ReadPastBlank(blank, t);
  }

  lemma EndsWhite(blank: string, c: char, rest: string)
    requires White(blank) && c in {',', ']', '}'}
    ensures Ends(blank + [c] + rest)
  {
  }

  lemma {:induction false} ElementsRead(t: string, items: seq<Json>, rest: string)
    requires items != [] && Elements(t, items) && forall i :: 0 <= i < |items| ==> Acceptable(items[i])
    ensures ReadItems(t + "]" + rest) == Some((items, rest))
    ensures Expect(t + "]" + rest, ']') == None
    decreases |t|, 3
  {
    hide Acceptable, ReadValue, ReadItems, Expect, Element;
    if |items| == 1 {
      assert Element(t, items[0]);
      hide Elements;
      var r := ElementReads(t, items[0], ']', rest);
      OneItem(t + "]" + rest, items[0], r, rest);
      assert items == [items[0]];
    } else {
      var k := FirstElement(t, items);
      hide Elements;
      var u := t[k + 1..] + "]" + rest;
      AtComma(t, k, "]", rest);
      var r := ElementReads(t[..k], items[0], ',', u);
      ElementsRead(t[k + 1..], items[1..], rest);
      MoreItems(t + "]" + rest, items[0], r, u, items[1..], rest);
      assert items == [items[0]] + items[1..];
    }
  }

  lemma AtComma(t: string, k: nat, close: string, rest: string)
    requires k < |t| && t[k] == ','
    ensures t + close + rest == t[..k] + [','] + (t[k + 1..] + close + rest)
  {
    assert t == t[..k] + [','] + t[k + 1..];
  }

  lemma FirstElement(t: string, items: seq<Json>) returns (k: nat)
    requires |items| > 1 && Elements(t, items)
    ensures k < |t| && t[k] == ',' && Element(t[..k], items[0]) && Elements(t[k + 1..], items[1..])
  {
    hide Element;
    k :| 0 <= k < |t| && t[k] == ',' && Element(t[..k], items[0]) && Elements(t[k + 1..], items[1..]);
  }

  lemma OneItem(s: string, v: Json, r: string, rest: string)
    requires ReadValue(s) == Some((v, r)) && Expect(r, ']') == Some(rest)
    ensures ReadItems(s) == Some(([v], rest))
  {
    hide ReadValue, Expect;
  }

  lemma MoreItems(s: string, v: Json, r: string, u: string, items: seq<Json>, rest: string)
    requires ReadValue(s) == Some((v, r)) && Expect(r, ']').None? && Expect(r, ',') == Some(u)
    requires ReadItems(u) == Some((items, rest))
    ensures ReadItems(s) == Some(([v] + items, rest))
  {
    hide ReadValue, Expect;
  }

  /** A key between white space, before its colon. */
  lemma NameReads(t: string, key: string, rest: string) returns (q: string, r: string)
    requires Name(t, key)
    ensures Expect(t + ":" + rest, '"') == Some(q) && ScanString(q) == Some((key, r)) && Expect(r, ':') == Some(rest)
    ensures Expect(t + ":" + rest, '}') == None
  {
    hide Quotation, White, Expect, ScanString;
    var a, b :| 0 <= a <= b <= |t| && White(t[..a]) && White(t[b..]) && Quotation(t[a..b], key);
    var x := t[a..b];
    r := t[b..] + ":" + rest;
    q := (x + r)[1..];
    QuotationScans(x, key, r);
    WhiteBlank(t[..a]);
    WhiteBlank(t[b..]);
    WhiteIs('"');
    WhiteIs(':');
    hide Blank, IsSpace;
    assert t + ":" + rest == t[..a] + ['"'] + q by { assert x + r == ['"'] + q; assert t == t[..a] + x + t[b..]; }
    ExpectAfter(t[..a], '"', q);
    assert r == t[b..] + [':'] + rest;
    ExpectAfter(t[b..], ':', rest);
  }

  lemma {:induction false} MemberReads(t: string, f: Field, c: char, rest: string) returns (r: string)
    requires Member(t, f) && Acceptable(f.value) && c in {',', '}'}
    ensures ReadField(t + [c] + rest) == Some((f, r))
    ensures Expect(r, c) == Some(rest) && forall d :: d != c ==> Expect(r, d) == None
    ensures Expect(t + [c] + rest, '}') == None
    decreases |t|, 3
  {
    hide ReadValue, ScanString, Expect, Element, Name, Acceptable;
    var k :| 0 <= k < |t| && t[k] == ':' && Name(t[..k], f.key) && Element(t[k + 1..], f.value);
    var u := t[k + 1..] + [c] + rest;
    assert t + [c] + rest == t[..k] + ":" + u;
    var q, colon := NameReads(t[..k], f.key, u);
    r := ElementReads(t[k + 1..], f.value, c, rest);
  }

  lemma {:induction false} MembersRead(t: string, fields: seq<Field>, rest: string)
    requires fields != [] && Members(t, fields) && forall i :: 0 <= i < |fields| ==> Acceptable(fields[i].value)
    ensures ReadFields(t + "}" + rest) == Some((fields, rest))
    ensures Expect(t + "}" + rest, '}') == None
    decreases |t|, 4
  {
    hide Acceptable, ReadField, ReadFields, Expect, Member;
    if |fields| == 1 {
      assert Member(t, fields[0]);
      hide Members;
      var r := MemberReads(t, fields[0], '}', rest);
      OneField(t + "}" + rest, fields[0], r, rest);
      assert fields == [fields[0]];
    } else {
      var k := FirstMember(t, fields);
      hide Members;
      var u := t[k + 1..] + "}" + rest;
      AtComma(t, k, "}", rest);
      var r := MemberReads(t[..k], fields[0], ',', u);
      MembersRead(t[k + 1..], fields[1..], rest);
      MoreFields(t + "}" + rest, fields[0], r, u, fields[1..], rest);
      assert fields == [fields[0]] + fields[1..];
    }
  }

  lemma FirstMember(t: string, fields: seq<Field>) returns (k: nat)
    requires |fields| > 1 && Members(t, fields)
    ensures k < |t| && t[k] == ',' && Member(t[..k], fields[0]) && Members(t[k + 1..], fields[1..])
  {
    hide Member;
    k :| 0 <= k < |t| && t[k] == ',' && Member(t[..k], fields[0]) && Members(t[k + 1..], fields[1..]);
  }

  lemma OneField(s: string, f: Field, r: string, rest: string)
    requires ReadField(s) == Some((f, r)) && Expect(r, '}') == Some(rest)
    ensures ReadFields(s) == Some(([f], rest))
  {
    hide ReadField, Expect;
  }

  lemma MoreFields(s: string, f: Field, r: string, u: string, fields: seq<Field>, rest: string)
    requires ReadField(s) == Some((f, r)) && Expect(r, '}').None? && Expect(r, ',') == Some(u)
    requires ReadFields(u) == Some((fields, rest))
    ensures ReadFields(s) == Some(([f] + fields, rest))
  {
    hide ReadField, Expect;
  }

  lemma {:induction false} ContainerReads(t: string, v: Json, rest: string)
    requires (v.Array? || v.Object?) && Spells(t, v) && Acceptable(v) && Ends(rest)
    ensures ReadValue(t + rest) == Some((v, rest))
    decreases |t|, 0
  {
    var inner := t[1..|t| - 1];
    var c := if v.Array? then ']' else '}';
    WhiteIs(t[0]);
    assert Skip(t + rest) == t + rest;
    assert (t + rest)[1..] == inner + [c] + rest;
    hide Elements, Members, White, Expect, ReadItems, ReadFields, ScanString, ReadNumber, Skip;
    if v.Array? && v.items != [] {
      assert [c] == "]";
      ElementsRead(inner, v.items, rest);
    } else if v.Object? && v.fields != [] {
      assert [c] == "}";
      MembersRead(inner, v.fields, rest);
    } else {
      WhiteBlank(inner);
      ExpectAfter(inner, c, rest);
    }
  }

  // ---------------------------------------------------------------- the theorem

  /**
   The loader accepts exactly the texts of the grammar, with unique keys and numbers in range, as the
   values they stand for.
   */
  lemma LoadsExactly(text: string, v: Json)
    ensures Load(text) == Some(v) <==> Element(text, v) && Acceptable(v)
  {
    hide ReadValue, Spells, Acceptable, Skip;
    if Load(text) == Some(v) {
      ReadIs(text);
      var a, rest := |text| - |Skip(text)|, ReadValue(text).value.1;
      SkipWhite(rest);
      assert rest[..|rest|] == rest;
      assert White(text[|text| - |rest|..]) && Spells(text[a..|text| - |rest|], v);
    }
    if Element(text, v) && Acceptable(v) {
      DocumentReads(text, v);
    }
  }

  lemma DocumentReads(text: string, v: Json)
    requires Element(text, v) && Acceptable(v)
    ensures Load(text) == Some(v)
  {
    var w, x, z := ElementParts(text, v);
    hide Spells, Acceptable, ReadValue, White, Element;
    WhiteBlank(w);
    WhiteBlank(z);
    BlankEnds(z);
    SpelledReads(x, v, z);
    Collections.Regroup(w, x, z);
    BlankReads(w, x + z);
    SkipsBlank(z, "");
    assert z + "" == z;
  }

  lemma BlankEnds(s: string)
    requires White(s)
    ensures Ends(s)
  {
  }

  /** What the writer writes is a text of the grammar for the value. */
  lemma WrittenSpells(v: Json)
    requires Writable(v)
    ensures Element(Write(v, "") + "\n", Reread(v))
  {
    hide Load, Write, Reread, Writable, Element;
    WrittenLoads(v);
    LoadsExactly(Write(v, "") + "\n", Reread(v));
  }
}
