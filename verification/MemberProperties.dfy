/**
 The scanner inverts the writer: on the text written for a value it consumes the value and records
 one offset for each of its JSON Pointers, at the key of a member and at the start of an item.
 */
module MemberProperties {
  import opened Outcomes
  import opened Numerals
  import opened JsonText
  import opened MemberScanner

  /** A pointer, as its list of reference tokens, and where the writer put what it names. */
  datatype Place = Place(path: seq<string>, offset: nat)

  /** The text of a JSON Pointer (section 3 of RFC 6901). */
  function Join(path: seq<string>): string {
    if path == [] then ""
    else Join(path[..|path| - 1]) + "/" + EscapeToken(path[|path| - 1])
  }

  /** Where a value written at offset `at` has its parts; the value itself is at `anchor`. */
  function Places(v: Json, indent: string, at: nat, path: seq<string>, anchor: nat): seq<Place>
    decreases v, 1
  {
    [Place(path, anchor)] + InnerPlaces(v, indent, at, path)
  }

  function InnerPlaces(v: Json, indent: string, at: nat, path: seq<string>): seq<Place>
    decreases v, 0
  {
    var inner := indent + "  ";
    match v
    case Array(items) => if items == [] then [] else ItemPlaces(items, inner, at + 2 + |inner|, path, 0)
    case Object(fields) => if fields == [] then [] else FieldPlaces(fields, inner, at + 2 + |inner|, path)
    case _ => []
  }

  function ItemPlaces(items: seq<Json>, inner: string, start: nat, path: seq<string>, n: nat): seq<Place>
    requires items != []
    decreases items, 0
  {
    var here := Places(items[0], inner, start, path + [Digits(n)], start);
    if |items| == 1 then here
    else here + ItemPlaces(items[1..], inner, start + |Write(items[0], inner)| + 2 + |inner|, path, n + 1)
  }

  function FieldPlaces(fields: seq<Field>, inner: string, start: nat, path: seq<string>): seq<Place>
    requires fields != []
    decreases fields, 0
  {
    var value := start + |Quoted(fields[0].key)| + 2;
    var here := Places(fields[0].value, inner, value, path + [fields[0].key], start);
    if |fields| == 1 then here
    else here + FieldPlaces(fields[1..], inner, value + |Write(fields[0].value, inner)| + 2 + |inner|, path)
  }

  function Defaults(found: Offsets, places: seq<Place>): Offsets
    decreases |places|
  {
    if places == [] then found
    else Defaults(Default(found, Join(places[0].path), places[0].offset), places[1..])
  }

  lemma {:induction false} DefaultsSplit(found: Offsets, a: seq<Place>, b: seq<Place>)
    ensures Defaults(found, a + b) == Defaults(Defaults(found, a), b)
    decreases |a|
  {
    if a == [] {
      assert a + b == b;
    } else {
      DefaultsSplit(Default(found, Join(a[0].path), a[0].offset), a[1..], b);
      assert (a + b)[1..] == a[1..] + b;
    }
  }

  // ---------------------------------------------------------------- what the scanner does

  /** t stands in the text at index i, with `rest` after it. */
  ghost predicate Stands(text: string, i: nat, t: string, rest: string) {
    i <= |text| && text[i..] == t + rest
  }

  lemma Shift(text: string, i: nat, a: string, b: string, rest: string)
    requires Stands(text, i, a + b, rest)
    ensures Stands(text, i + |a|, b, rest) && Stands(text, i, a, b + rest)
    ensures i + |a| + |b| <= |text|
  {
    assert a + b + rest == a + (b + rest);
    assert text[i..][|a|..] == text[i + |a|..];
  }

  lemma NoSpace(text: string, i: nat, t: string, rest: string)
    requires Stands(text, i, t, rest) && t != "" && !IsSpace(t[0])
    ensures i < |text| && text[i] == t[0] && SpaceEnd(text, i) == i
  {
    assert text[i..][0] == text[i];
  }

  lemma {:induction false} BlankSkipped(text: string, i: nat, blank: string, rest: string)
    requires Stands(text, i, blank, rest) && Blank(blank)
    ensures i + |blank| <= |text| && SpaceEnd(text, i) == SpaceEnd(text, i + |blank|)
    decreases |blank|
  {
    if blank != "" {
      assert text[i..][0] == text[i];
      assert blank == [blank[0]] + blank[1..];
      Shift(text, i, [blank[0]], blank[1..], rest);
      BlankSkipped(text, i + 1, blank[1..], rest);
    }
  }

  lemma {:induction false} TokenSkipped(text: string, i: nat, t: string, rest: string)
    requires Stands(text, i, t, rest) && Delimited(rest)
    requires forall k :: 0 <= k < |t| ==> !EndsToken(t[k])
    ensures i + |t| <= |text| && TokenEnd(text, i) == i + |t|
    decreases |t|
  {
    if t == "" {
      if rest != "" {
        assert text[i..][0] == text[i];
      }
    } else {
      assert text[i..][0] == text[i];
      assert t == [t[0]] + t[1..];
      Shift(text, i, [t[0]], t[1..], rest);
      TokenSkipped(text, i + 1, t[1..], rest);
    }
  }

  lemma QuotedSkipped(text: string, i: nat, s: string, rest: string)
    requires Stands(text, i, Quoted(s), rest)
    ensures ScanQuoted(text, i) == Some((s, i + |Quoted(s)|))
  {
    NoSpace(text, i, Quoted(s), rest);
    assert Quoted(s) == "\"" + (EscapeAll(s) + "\"");
    Shift(text, i, "\"", EscapeAll(s) + "\"", rest);
    QuotedScans(s, rest);
    assert text[i + 1..] == EscapeAll(s) + "\"" + rest;
  }

  lemma ExpectFound(text: string, i: nat, blank: string, c: char, rest: string)
    requires Stands(text, i, blank + [c], rest) && Blank(blank) && !IsSpace(c)
    ensures ScanExpect(text, i, c) == Some(i + |blank| + 1)
    ensures SpaceEnd(text, i) == i + |blank| && text[i + |blank|] == c
  {
    Shift(text, i, blank, [c], rest);
    BlankSkipped(text, i, blank, [c] + rest);
    NoSpace(text, i + |blank|, [c], rest);
  }

  /** Numbers and words hold no character that ends a token. */
  lemma ScalarText(v: Json, indent: string)
    requires Writable(v) && !v.Array? && !v.Object? && !v.Text?
    ensures var t := Write(v, indent);
            && t != "" && t[0] !in ['{', '[', '"']
            && forall k :: 0 <= k < |t| ==> !EndsToken(t[k]) && !IsSpace(t[k])
  {
    match v
    case Null =>
    case Bool(b) =>
    case Int(n) =>
      var d := Digits(if n < 0 then -n else n);
      assert forall k :: 0 <= k < |d| ==> IsDigit(d[k]);
    case Literal(n) => NumeralCharacters(n);
  }

  lemma NumeralCharacters(n: Numeral)
    requires n.Valid()
    ensures NumeralText(n) != ""
    ensures forall k :: 0 <= k < |NumeralText(n)| ==>
              IsDigit(NumeralText(n)[k]) || NumeralText(n)[k] in ['-', '+', '.', 'e']
  {
    hide ExponentDigits;
    var e := ExponentText(n.exponent);
    assert forall k :: 0 <= k < |e| ==> IsDigit(e[k]) || e[k] in ['-', '+'];
    var u := UnsignedText(n);
    assert forall k :: 0 <= k < |u| ==> IsDigit(u[k]) || u[k] in ['-', '+', '.', 'e'];
  }

  /** The text of items or members without the first indentation. */
  function ItemsCore(items: seq<Json>, inner: string): string
    requires items != []
  {
    Write(items[0], inner) + if |items| == 1 then "" else ",\n" + inner + ItemsCore(items[1..], inner)
  }

  function FieldsCore(fields: seq<Field>, inner: string): string
    requires fields != []
  {
    FieldText(fields[0], inner) + if |fields| == 1 then "" else ",\n" + inner + FieldsCore(fields[1..], inner)
  }

  function FieldText(f: Field, inner: string): string {
    Quoted(f.key) + (": " + Write(f.value, inner))
  }

  lemma {:induction false} CoreOfItems(items: seq<Json>, inner: string)
    requires items != []
    ensures WriteItems(items, inner) == inner + ItemsCore(items, inner)
  {
    hide Write;
    if |items| > 1 {
      CoreOfItems(items[1..], inner);
    }
  }

  lemma {:induction false} CoreOfFields(fields: seq<Field>, inner: string)
    requires fields != []
    ensures WriteFields(fields, inner) == inner + FieldsCore(fields, inner)
  {
    hide Write, Quoted;
    if |fields| > 1 {
      CoreOfFields(fields[1..], inner);
    }
  }

  lemma JoinStep(path: seq<string>, token: string)
    ensures Join(path + [token]) == Join(path) + "/" + EscapeToken(token)
  {
    assert (path + [token])[..|path|] == path;
  }

  lemma {:induction false} DigitsUnescaped(s: string)
    requires AllDigits(s)
    ensures EscapeToken(s) == s
  {
    if s != "" {
      DigitsUnescaped(s[1..]);
    }
  }

  /** What ScanValue does from the opening character of a container on. */
  function ScanBody(text: string, at: nat, found: Offsets, pointer: string): State
    requires at < |text|
  {
    var closing := if text[at] == '{' then '}' else ']';
    var k := SpaceEnd(text, at + 1);
    if k == |text| then State(false, k, found)
    else if text[k] == closing then State(true, k + 1, found)
    else ScanMembers(text, k, found, pointer, text[at] == '{', 0)
  }

  lemma Dispatch(text: string, i: nat, at: nat, found: Offsets, pointer: string, anchor: Option<nat>)
    requires i <= |text| && at == SpaceEnd(text, i) < |text|
    ensures var found' := Default(found, pointer, if anchor.Some? then anchor.value else at);
            var s := ScanValue(text, i, found, pointer, anchor);
            && (text[at] in ['{', '['] ==> s == ScanBody(text, at, found', pointer))
            && (text[at] == '"' && ScanQuoted(text, at).Some? ==>
                  s == State(true, ScanQuoted(text, at).value.1, found'))
            && (text[at] !in ['{', '[', '"'] ==> s == State(true, TokenEnd(text, at), found'))
  {
    hide SpaceEnd, ScanQuoted, ScanMembers, TokenEnd;
  }

  /** The scan goes on after a comma. */
  lemma MembersNext(text: string, i: nat, found: Offsets, pointer: string, keyed: bool, n: nat, s: State)
    requires i <= |text| && s == ScanElement(text, i, found, pointer, keyed, n) && s.ok
    requires s.index < |text| && text[s.index] == ','
    ensures ScanMembers(text, i, found, pointer, keyed, n)
            == ScanMembers(text, s.index + 1, s.found, pointer, keyed, n + 1)
  {
    hide ScanElement, ScanExpect;
  }

  /** The scan ends at the closing character. */
  lemma MembersLast(text: string, i: nat, found: Offsets, pointer: string, keyed: bool, n: nat, s: State, end: nat)
    requires i <= |text| && s == ScanElement(text, i, found, pointer, keyed, n) && s.ok
    requires var j := SpaceEnd(text, s.index);
             j < |text| && text[j] != ',' && ScanExpect(text, j, if keyed then '}' else ']') == Some(end)
    ensures ScanMembers(text, i, found, pointer, keyed, n) == State(true, end, s.found)
  {
    hide ScanElement, ScanExpect, SpaceEnd;
  }

  lemma PlacesFirst(found: Offsets, v: Json, indent: string, at: nat, path: seq<string>, offset: nat)
    ensures Defaults(found, Places(v, indent, at, path, offset))
            == Defaults(Default(found, Join(path), offset), InnerPlaces(v, indent, at, path))
  {
    hide InnerPlaces, Join;
    var places := Places(v, indent, at, path, offset);
    assert places[0] == Place(path, offset) && places[1..] == InnerPlaces(v, indent, at, path);
  }

  lemma {:induction false} ValueScanned(text: string, i: nat, blank: string, v: Json, indent: string, rest: string,
                                        found: Offsets, path: seq<string>, anchor: Option<nat>)
    requires Writable(v) && Blank(indent) && Blank(blank) && Delimited(rest)
    requires Stands(text, i, blank + Write(v, indent), rest)
    ensures var at := i + |blank|;
            ScanValue(text, i, found, Join(path), anchor)
            == State(true, at + |Write(v, indent)|,
                     Defaults(found, Places(v, indent, at, path, if anchor.Some? then anchor.value else at)))
    decreases v, 1
  {
    var at := i + |blank|;
    var t := Write(v, indent);
    Shift(text, i, blank, t, rest);
    BlankSkipped(text, i, blank, t + rest);
    WriteStarts(v, indent);
    NoSpace(text, at, t, rest);
    var offset := if anchor.Some? then anchor.value else at;
    var found' := Default(found, Join(path), offset);
    PlacesFirst(found, v, indent, at, path, offset);
    hide Stands, Write, ScanValue, ScanBody, SpaceEnd, Places, TokenEnd, ScanQuoted;
    Dispatch(text, i, at, found, Join(path), anchor);
    if v.Array? || v.Object? {
      ContainerScanned(text, at, v, indent, rest, found', path);
    } else if v.Text? {
      QuotedSkipped(text, at, v.s, rest);
    } else {
      ScalarText(v, indent);
      TokenSkipped(text, at, t, rest);
    }
  }

  lemma {:induction false} ContainerScanned(text: string, at: nat, v: Json, indent: string, rest: string,
                                            found: Offsets, path: seq<string>)
    requires Writable(v) && (v.Array? || v.Object?) && Blank(indent) && Delimited(rest)
    requires Stands(text, at, Write(v, indent), rest) && at < |text|
    ensures text[at] == (if v.Array? then '[' else '{')
    ensures ScanBody(text, at, found, Join(path))
            == State(true, at + |Write(v, indent)|, Defaults(found, InnerPlaces(v, indent, at, path)))
    decreases v, 0
  {
    NoSpace(text, at, Write(v, indent), rest);
    hide Stands, ScanBody, Join, ItemPlaces, FieldPlaces, WriteItems, WriteFields, Defaults;
    if v.Array? && v.items != [] {
      ArrayScanned(text, at, v.items, indent, rest, found, path);
    } else if v.Object? && v.fields != [] {
      ObjectScanned(text, at, v.fields, indent, rest, found, path);
    } else {
      EmptyScanned(text, at, v.Object?, rest, found, Join(path));
      EmptyPlaces(found);
    }
  }

  lemma EmptyPlaces(found: Offsets)
    ensures Defaults(found, []) == found
  {
  }

  lemma EmptyScanned(text: string, at: nat, keyed: bool, rest: string, found: Offsets, pointer: string)
    requires Stands(text, at, if keyed then "{}" else "[]", rest) && at < |text|
    ensures ScanBody(text, at, found, pointer) == State(true, at + 2, found)
  {
    var opening, closing := if keyed then "{" else "[", if keyed then "}" else "]";
    assert (if keyed then "{}" else "[]") == opening + closing;
    Shift(text, at, opening, closing, rest);
    NoSpace(text, at, opening, closing + rest);
    NoSpace(text, at + 1, closing, rest);
  }

  lemma {:induction false} ArrayScanned(text: string, at: nat, items: seq<Json>, indent: string, rest: string,
                                        found: Offsets, path: seq<string>)
    requires items != [] && Writable(Array(items)) && Blank(indent) && Delimited(rest)
    requires Stands(text, at, Write(Array(items), indent), rest) && at < |text| && text[at] == '['
    ensures ScanBody(text, at, found, Join(path))
            == State(true, at + |Write(Array(items), indent)|,
                     Defaults(found, ItemPlaces(items, indent + "  ", at + 4 + |indent|, path, 0)))
    decreases items, 1
  {
    hide Stands, ScanMembers, SpaceEnd, Join, ItemPlaces, ItemsCore, WriteItems, Defaults;
    var inner := indent + "  ";
    var core := ItemsCore(items, inner) + ("\n" + indent + "]");
    CoreOfItems(items, inner);
    CoreStarts(items, inner);
    assert "[\n" == "[" + "\n";
    RegroupOpen("[", inner, ItemsCore(items, inner), indent, "]");
    Opened(text, at, "[", "\n" + inner, core, rest);
    assert "" + core == core;
    ItemsScanned(text, at + 2 + |inner|, "", items, inner, indent, rest, found, path, 0);
  }

  lemma CoreStarts(items: seq<Json>, inner: string)
    requires items != [] && Writable(items[0])
    ensures ItemsCore(items, inner) != "" && !IsSpace(ItemsCore(items, inner)[0]) && ItemsCore(items, inner)[0] != ']'
  {
    WriteStarts(items[0], inner);
  }

  lemma {:induction false} ObjectScanned(text: string, at: nat, fields: seq<Field>, indent: string, rest: string,
                                         found: Offsets, path: seq<string>)
    requires fields != [] && Writable(Object(fields)) && Blank(indent) && Delimited(rest)
    requires Stands(text, at, Write(Object(fields), indent), rest) && at < |text| && text[at] == '{'
    ensures ScanBody(text, at, found, Join(path))
            == State(true, at + |Write(Object(fields), indent)|,
                     Defaults(found, FieldPlaces(fields, indent + "  ", at + 4 + |indent|, path)))
    decreases fields, 1
  {
    hide Stands, ScanMembers, SpaceEnd, Join, FieldPlaces, FieldsCore, WriteFields, Defaults;
    var inner := indent + "  ";
    var core := FieldsCore(fields, inner) + ("\n" + indent + "}");
    CoreOfFields(fields, inner);
    FieldsCoreStarts(fields, inner);
    assert "{\n" == "{" + "\n";
    RegroupOpen("{", inner, FieldsCore(fields, inner), indent, "}");
    Opened(text, at, "{", "\n" + inner, core, rest);
    assert "" + core == core;
    FieldsScanned(text, at + 2 + |inner|, "", fields, inner, indent, rest, found, path, 0);
  }

  lemma FieldsCoreStarts(fields: seq<Field>, inner: string)
    requires fields != []
    ensures FieldsCore(fields, inner) != "" && FieldsCore(fields, inner)[0] == '"'
  {
  }

  lemma RegroupOpen(opening: string, inner: string, core: string, indent: string, closing: string)
    ensures (opening + "\n") + (inner + core) + "\n" + indent + closing
            == opening + (("\n" + inner) + (core + ("\n" + indent + closing)))
  {
  }

  lemma Opened(text: string, at: nat, opening: string, blank: string, core: string, rest: string)
    requires |opening| == 1 && Blank(blank) && core != "" && !IsSpace(core[0])
    requires Stands(text, at, opening + (blank + core), rest)
    ensures SpaceEnd(text, at + 1) == at + 1 + |blank| < |text| && text[at + 1 + |blank|] == core[0]
    ensures Stands(text, at + 1 + |blank|, core, rest)
  {
    Shift(text, at, opening, blank + core, rest);
    Shift(text, at + 1, blank, core, rest);
    BlankSkipped(text, at + 1, blank, core + rest);
    NoSpace(text, at + 1 + |blank|, core, rest);
  }

  /** After the last element: the closing character on a line of its own. */
  lemma Closed(text: string, i: nat, indent: string, c: char, rest: string)
    requires Blank(indent) && (c == ']' || c == '}') && Stands(text, i, "\n" + indent + [c], rest)
    ensures var j := SpaceEnd(text, i);
            j < |text| && text[j] != ',' && ScanExpect(text, j, c) == Some(i + |indent| + 2)
  {
    ExpectFound(text, i, "\n" + indent, c, rest);
    Shift(text, i, "\n" + indent, [c], rest);
    ExpectFound(text, i + 1 + |indent|, "", c, rest);
  }

  lemma RegroupLast(blank: string, w: string, end: string)
    ensures blank + ((w + "") + end) == (blank + w) + end
  {
  }

  lemma RegroupNext(blank: string, w: string, inner: string, tail: string, end: string)
    ensures blank + ((w + (",\n" + inner + tail)) + end) == (blank + w) + ("," + (("\n" + inner) + (tail + end)))
  {
  }

  /** One item, with more text after it. */
  lemma {:induction false} ItemScanned(text: string, i: nat, blank: string, item: Json, inner: string, more: string,
                                       rest: string, found: Offsets, path: seq<string>, n: nat)
    requires Writable(item) && Blank(inner) && Blank(blank) && more != "" && more[0] in [',', '\n']
    requires Stands(text, i, (blank + Write(item, inner)) + more, rest)
    ensures var start := i + |blank|;
            var end := start + |Write(item, inner)|;
            && Stands(text, end, more, rest)
            && ScanElement(text, i, found, Join(path), false, n)
               == State(true, end, Defaults(found, Places(item, inner, start, path + [Digits(n)], start)))
    decreases item, 2
  {
    hide Write, ScanValue, Places, Stands, Join, Writable;
    JoinStep(path, Digits(n));
    DigitsUnescaped(Digits(n));
    Shift(text, i, blank + Write(item, inner), more, rest);
    ValueScanned(text, i, blank, item, inner, more + rest, found, path + [Digits(n)], None);
  }

  /** From after one element to after the next comma. */
  lemma AfterComma(text: string, i: nat, inner: string, core: string, rest: string)
    requires Stands(text, i, "," + (("\n" + inner) + core), rest)
    ensures i < |text| && text[i] == ','
    ensures Stands(text, i + 1, ("\n" + inner) + core, rest)
  {
    NoSpace(text, i, "," + (("\n" + inner) + core), rest);
    Shift(text, i, ",", ("\n" + inner) + core, rest);
  }

  lemma {:induction false} ItemsScanned(text: string, i: nat, blank: string, items: seq<Json>, inner: string,
                                        indent: string, rest: string, found: Offsets, path: seq<string>, n: nat)
    requires items != [] && (forall k :: 0 <= k < |items| ==> Writable(items[k]))
    requires Blank(inner) && Blank(indent) && Blank(blank)
    requires Stands(text, i, blank + (ItemsCore(items, inner) + ("\n" + indent + "]")), rest)
    ensures ScanMembers(text, i, found, Join(path), false, n)
            == State(true, i + |blank| + |ItemsCore(items, inner)| + |indent| + 2,
                     Defaults(found, ItemPlaces(items, inner, i + |blank|, path, n)))
    decreases items, 0
  {
    hide Write, SpaceEnd, ScanExpect, ScanElement, Places, Stands, ScanMembers, Join, Writable, Defaults;
    var w, end := Write(items[0], inner), "\n" + indent + "]";
    var start := i + |blank|;
    var here := Places(items[0], inner, start, path + [Digits(n)], start);
    var s := State(true, start + |w|, Defaults(found, here));
    if |items| == 1 {
      RegroupLast(blank, w, end);
      ItemScanned(text, i, blank, items[0], inner, end, rest, found, path, n);
      Closed(text, s.index, indent, ']', rest);
      MembersLast(text, i, found, Join(path), false, n, s, s.index + |indent| + 2);
    } else {
      var core := ItemsCore(items[1..], inner);
      var more := "," + (("\n" + inner) + (core + end));
      RegroupNext(blank, w, inner, core, end);
      ItemScanned(text, i, blank, items[0], inner, more, rest, found, path, n);
      AfterComma(text, s.index, inner, core + end, rest);
      MembersNext(text, i, found, Join(path), false, n, s);
      ItemsScanned(text, s.index + 1, "\n" + inner, items[1..], inner, indent, rest, s.found, path, n + 1);
      DefaultsSplit(found, here, ItemPlaces(items[1..], inner, s.index + 2 + |inner|, path, n + 1));
    }
  }

  lemma {:induction false} MemberScanned(text: string, i: nat, blank: string, f: Field, inner: string,
                                         rest: string, found: Offsets, path: seq<string>)
    requires Writable(f.value) && Blank(inner) && Blank(blank) && Delimited(rest)
    requires Stands(text, i, blank + FieldText(f, inner), rest)
    ensures var start := i + |blank|;
            ScanMember(text, i, found, Join(path))
            == State(true, start + |FieldText(f, inner)|,
                     Defaults(found, Places(f.value, inner, start + |Quoted(f.key)| + 2, path + [f.key], start)))
    decreases f, 0
  {
    hide Write, SpaceEnd, ScanExpect, ScanValue, Places, ScanQuoted, Stands, Join, EscapeAll, Defaults;
    var start := i + |blank|;
    var q := Quoted(f.key);
    var w := Write(f.value, inner);
    JoinStep(path, f.key);
    Shift(text, i, blank, FieldText(f, inner), rest);
    BlankSkipped(text, i, blank, FieldText(f, inner) + rest);
    NoSpace(text, start, FieldText(f, inner), rest);
    Shift(text, start, q, ": " + w, rest);
    QuotedSkipped(text, start, f.key, ": " + w + rest);
    assert ": " + w == ":" + (" " + w);
    Shift(text, start + |q|, ":", " " + w, rest);
    ExpectFound(text, start + |q|, "", ':', " " + w + rest);
    ValueScanned(text, start + |q| + 1, " ", f.value, inner, rest, found, path + [f.key], Some(start));
  }

  /** One member, with more text after it. */
  lemma {:induction false} FieldScanned(text: string, i: nat, blank: string, f: Field, inner: string, more: string,
                                        rest: string, found: Offsets, path: seq<string>, n: nat)
    requires Writable(f.value) && Blank(inner) && Blank(blank) && more != "" && more[0] in [',', '\n']
    requires Stands(text, i, (blank + FieldText(f, inner)) + more, rest)
    ensures var start := i + |blank|;
            var end := start + |FieldText(f, inner)|;
            && Stands(text, end, more, rest)
            && ScanElement(text, i, found, Join(path), true, n)
               == State(true, end,
                        Defaults(found, Places(f.value, inner, start + |Quoted(f.key)| + 2, path + [f.key], start)))
    decreases f, 1
  {
    hide FieldText, ScanMember, Places, Stands, Join, Writable, Quoted;
    Shift(text, i, blank + FieldText(f, inner), more, rest);
    MemberScanned(text, i, blank, f, inner, more + rest, found, path);
  }

  lemma {:induction false} FieldsScanned(text: string, i: nat, blank: string, fields: seq<Field>, inner: string,
                                         indent: string, rest: string, found: Offsets, path: seq<string>, n: nat)
    requires fields != [] && (forall k :: 0 <= k < |fields| ==> Writable(fields[k].value))
    requires Blank(inner) && Blank(indent) && Blank(blank)
    requires Stands(text, i, blank + (FieldsCore(fields, inner) + ("\n" + indent + "}")), rest)
    ensures ScanMembers(text, i, found, Join(path), true, n)
            == State(true, i + |blank| + |FieldsCore(fields, inner)| + |indent| + 2,
                     Defaults(found, FieldPlaces(fields, inner, i + |blank|, path)))
    decreases fields, 0
  {
    hide FieldText, SpaceEnd, ScanExpect, ScanElement, Quoted, Places, Stands, ScanMembers, Join, Writable, Defaults;
    var f := fields[0];
    var w, end := FieldText(f, inner), "\n" + indent + "}";
    var start := i + |blank|;
    var here := Places(f.value, inner, start + |Quoted(f.key)| + 2, path + [f.key], start);
    var s := State(true, start + |w|, Defaults(found, here));
    FieldLength(f, inner);
    if |fields| == 1 {
      RegroupLast(blank, w, end);
      FieldScanned(text, i, blank, f, inner, end, rest, found, path, n);
      Closed(text, s.index, indent, '}', rest);
      MembersLast(text, i, found, Join(path), true, n, s, s.index + |indent| + 2);
    } else {
      var core := FieldsCore(fields[1..], inner);
      var more := "," + (("\n" + inner) + (core + end));
      RegroupNext(blank, w, inner, core, end);
      FieldScanned(text, i, blank, f, inner, more, rest, found, path, n);
      AfterComma(text, s.index, inner, core + end, rest);
      MembersNext(text, i, found, Join(path), true, n, s);
      FieldsScanned(text, s.index + 1, "\n" + inner, fields[1..], inner, indent, rest, s.found, path, n + 1);
      DefaultsSplit(found, here, FieldPlaces(fields[1..], inner, s.index + 2 + |inner|, path));
    }
  }

  lemma FieldLength(f: Field, inner: string)
    ensures |FieldText(f, inner)| == |Quoted(f.key)| + 2 + |Write(f.value, inner)|
  {
  }

  // ---------------------------------------------------------------- what the pointers mean

  /** The part of a value a reference token names (section 4 of RFC 6901). */
  function Child(v: Json, token: string): Option<Json> {
    match v
    case Array(items) => FindItem(items, token, 0)
    case Object(fields) => FindField(fields, token)
    case _ => None
  }

  function FindItem(items: seq<Json>, token: string, n: nat): Option<Json> {
    if items == [] then None else if Digits(n) == token then Some(items[0]) else FindItem(items[1..], token, n + 1)
  }

  function FindField(fields: seq<Field>, token: string): Option<Json> {
    if fields == [] then None
    else if fields[0].key == token then Some(fields[0].value)
    else FindField(fields[1..], token)
  }

  predicate ValidPath(v: Json, path: seq<string>)
    decreases |path|
  {
    path == [] || (Child(v, path[0]).Some? && ValidPath(Child(v, path[0]).value, path[1..]))
  }

  /** At this offset the text has the key of the member a path names, or the item it names. */
  ghost predicate Marks(text: string, offset: nat, v: Json, path: seq<string>)
    requires path != [] && ValidPath(v, path)
    decreases |path|
  {
    && offset <= |text|
    && if |path| > 1 then Marks(text, offset, Child(v, path[0]).value, path[1..])
       else if v.Object? then Quoted(path[0]) <= text[offset..]
       else exists indent :: Write(Child(v, path[0]).value, indent) <= text[offset..]
  }

  ghost predicate Has(places: seq<Place>, path: seq<string>) {
    exists k :: 0 <= k < |places| && places[k].path == path
  }

  ghost predicate Distinct(places: seq<Place>) {
    forall i, j :: 0 <= i < j < |places| ==> places[i].path != places[j].path
  }

  /** One place below `path`, whose first further token is in `tokens`. */
  ghost predicate Sound(p: Place, text: string, v: Json, path: seq<string>, tokens: iset<string>) {
    && |path| < |p.path| && p.path[..|path|] == path && p.path[|path|] in tokens
    && ValidPath(v, p.path[|path|..]) && Marks(text, p.offset, v, p.path[|path|..])
  }

  /** The places are exactly the paths of v that start with these tokens, once each, well marked. */
  ghost predicate Charts(places: seq<Place>, text: string, v: Json, path: seq<string>, tokens: iset<string>) {
    && Distinct(places)
    && (forall k :: 0 <= k < |places| ==> Sound(places[k], text, v, path, tokens))
    && (forall q :: q != [] && q[0] in tokens && ValidPath(v, q) ==> Has(places, path + q))
  }

  ghost function Tokens(v: Json): iset<string> {
    iset t: string | Child(v, t).Some?
  }

  lemma ChartsUnion(a: seq<Place>, b: seq<Place>, text: string, v: Json, path: seq<string>,
                    s: iset<string>, t: iset<string>)
    requires Charts(a, text, v, path, s) && Charts(b, text, v, path, t) && s !! t
    ensures Charts(a + b, text, v, path, s + t)
  {
    hide ValidPath, Marks;
    var c := a + b;
    forall k | 0 <= k < |c| ensures Sound(c[k], text, v, path, s + t) {
      assert Sound(if k < |a| then a[k] else b[k - |a|], text, v, path, if k < |a| then s else t);
    }
    forall i, j | 0 <= i < j < |c| ensures c[i].path != c[j].path {
      assert Sound(c[i], text, v, path, if i < |a| then s else t);
      assert Sound(c[j], text, v, path, if j < |a| then s else t);
      if i < |a| && j >= |a| {
        assert a[i].path[|path|] in s && b[j - |a|].path[|path|] in t;
      }
    }
    forall q | q != [] && q[0] in s + t && ValidPath(v, q) ensures Has(c, path + q) {
      if q[0] in s {
        var k :| 0 <= k < |a| && a[k].path == path + q;
        assert c[k].path == path + q;
      } else {
        var k :| 0 <= k < |b| && b[k].path == path + q;
        assert c[|a| + k].path == path + q;
      }
    }
  }

  /** The chart of a child, one token deeper. */
  lemma ChartsLift(inner: seq<Place>, text: string, v: Json, c: Json, path: seq<string>, token: string, offset: nat)
    requires Child(v, token) == Some(c) && offset <= |text|
    requires if v.Object? then Quoted(token) <= text[offset..]
             else exists indent :: Write(c, indent) <= text[offset..]
    requires Charts(inner, text, c, path + [token], Tokens(c))
    ensures Charts([Place(path + [token], offset)] + inner, text, v, path, iset{token})
  {
    hide Child, Write, Quoted, ValidPath, Marks, Sound;
    var all := [Place(path + [token], offset)] + inner;
    LiftFirst(text, v, c, path, token, offset);
    forall k | 0 <= k < |all| ensures Sound(all[k], text, v, path, iset{token}) {
      if k > 0 {
        assert Sound(inner[k - 1], text, c, path + [token], Tokens(c));
        LiftOne(inner[k - 1], text, v, c, path, token);
      }
    }
    forall i, j | 0 <= i < j < |all| ensures all[i].path != all[j].path {
      assert Sound(inner[j - 1], text, c, path + [token], Tokens(c));
      if i > 0 {
        assert inner[i - 1].path != inner[j - 1].path;
      } else {
        Deeper(inner[j - 1], text, c, path + [token]);
      }
    }
    forall q | q != [] && q[0] in iset{token} && ValidPath(v, q) ensures Has(all, path + q) {
      LiftHas(inner, text, v, c, path, token, offset, q);
    }
  }

  lemma Deeper(p: Place, text: string, v: Json, path: seq<string>)
    requires Sound(p, text, v, path, Tokens(v))
    ensures |path| < |p.path|
  {
  }

  lemma LiftFirst(text: string, v: Json, c: Json, path: seq<string>, token: string, offset: nat)
    requires Child(v, token) == Some(c) && offset <= |text|
    requires if v.Object? then Quoted(token) <= text[offset..]
             else exists indent :: Write(c, indent) <= text[offset..]
    ensures Sound(Place(path + [token], offset), text, v, path, iset{token})
  {
    hide Child, Write, Quoted;
    var deep := path + [token];
    assert deep[|path|..] == [token] && deep[..|path|] == path;
    assert [token][1..] == [] && ValidPath(c, []);
    assert ValidPath(v, [token]);
  }

  lemma LiftHas(inner: seq<Place>, text: string, v: Json, c: Json, path: seq<string>, token: string, offset: nat,
                q: seq<string>)
    requires Child(v, token) == Some(c) && Charts(inner, text, c, path + [token], Tokens(c))
    requires q != [] && q[0] == token && ValidPath(v, q)
    ensures Has([Place(path + [token], offset)] + inner, path + q)
  {
    hide Child, Sound;
    var all := [Place(path + [token], offset)] + inner;
    var deep := path + [token];
    if |q| == 1 {
      assert q == [token];
      assert all[0].path == path + q;
    } else {
      var u := q[1..];
      assert ValidPath(c, u) && u[0] in Tokens(c);
      assert Has(inner, deep + u);
      var k :| 0 <= k < |inner| && inner[k].path == deep + u;
      assert q == [token] + u;
      assert all[k + 1].path == path + q;
    }
  }

  lemma LiftOne(p: Place, text: string, v: Json, c: Json, path: seq<string>, token: string)
    requires Child(v, token) == Some(c) && Sound(p, text, c, path + [token], Tokens(c))
    ensures Sound(p, text, v, path, iset{token})
  {
    hide Child, Write, Quoted;
    var deep := path + [token];
    var q := p.path[|path|..];
    assert p.path[..|path|] == deep[..|path|] == path by {
      assert p.path[..|path|] == p.path[..|deep|][..|path|];
    }
    assert p.path[|path|] == p.path[..|deep|][|path|] == token;
    assert q[1..] == p.path[|deep|..];
    assert q[0] == token;
  }

  lemma {:induction false} FindItemAt(items: seq<Json>, n: nat, m: nat)
    requires m < |items|
    ensures FindItem(items, Digits(n + m), n) == Some(items[m])
  {
    if m > 0 {
      DigitsReadBack(n);
      DigitsReadBack(n + m);
      FindItemAt(items[1..], n + 1, m - 1);
    }
  }

  lemma {:induction false} FindItemFinds(items: seq<Json>, token: string, n: nat)
    requires FindItem(items, token, n).Some?
    ensures exists m :: n <= m < n + |items| && token == Digits(m)
  {
    if Digits(n) != token {
      FindItemFinds(items[1..], token, n + 1);
    }
  }

  lemma {:induction false} FindFieldAt(fields: seq<Field>, m: nat)
    requires UniqueKeys(fields) && m < |fields|
    ensures FindField(fields, fields[m].key) == Some(fields[m].value)
  {
    if m > 0 {
      FindFieldAt(fields[1..], m - 1);
    }
  }

  lemma {:induction false} FindFieldFinds(fields: seq<Field>, token: string)
    requires FindField(fields, token).Some?
    ensures exists m :: 0 <= m < |fields| && token == fields[m].key
  {
    if fields[0].key != token {
      FindFieldFinds(fields[1..], token);
    }
  }

  ghost function ItemTokens(n: nat, count: nat): iset<string> {
    iset m: nat | n <= m < count :: Digits(m)
  }

  ghost function FieldTokens(fields: seq<Field>, n: nat): iset<string> {
    iset m: nat | n <= m < |fields| :: fields[m].key
  }

  lemma EmptyChart(text: string, v: Json, path: seq<string>)
    ensures Charts([], text, v, path, iset{})
  {
  }

  /** The places inside a written value chart all its paths. */
  lemma {:induction false} ValueCharted(text: string, i: nat, v: Json, indent: string, rest: string, path: seq<string>)
    requires Writable(v) && Stands(text, i, Write(v, indent), rest)
    ensures Charts(InnerPlaces(v, indent, i, path), text, v, path, Tokens(v))
    decreases v, 1
  {
    hide Charts, ItemPlaces, FieldPlaces, WriteItems, WriteFields, Stands;
    if v.Array? && v.items != [] {
      ArrayCharted(text, i, v, indent, rest, path);
    } else if v.Object? && v.fields != [] {
      ObjectCharted(text, i, v, indent, rest, path);
    } else {
      assert Tokens(v) == iset{};
      EmptyChart(text, v, path);
    }
  }

  lemma {:induction false} ArrayCharted(text: string, i: nat, v: Json, indent: string, rest: string, path: seq<string>)
    requires v.Array? && v.items != [] && Writable(v) && Stands(text, i, Write(v, indent), rest)
    ensures Charts(ItemPlaces(v.items, indent + "  ", i + 4 + |indent|, path, 0), text, v, path, Tokens(v))
    decreases v, 0, |v.items| + 1
  {
    hide Charts, ItemPlaces, WriteItems, ItemsCore, Stands, Tokens;
    var inner := indent + "  ";
    CoreOfItems(v.items, inner);
    assert "[\n" == "[" + "\n";
    RegroupOpen("[", inner, ItemsCore(v.items, inner), indent, "]");
    InsideStands(text, i, "[", inner, ItemsCore(v.items, inner), "\n" + indent + "]", rest);
    assert v.items[0..] == v.items;
    ItemsCharted(text, i + 2 + |inner|, v, 0, inner, "\n" + indent + "]" + rest, path);
    AllItemTokens(v);
  }

  lemma {:induction false} ObjectCharted(text: string, i: nat, v: Json, indent: string, rest: string, path: seq<string>)
    requires v.Object? && v.fields != [] && Writable(v) && Stands(text, i, Write(v, indent), rest)
    ensures Charts(FieldPlaces(v.fields, indent + "  ", i + 4 + |indent|, path), text, v, path, Tokens(v))
    decreases v, 0, |v.fields| + 1
  {
    hide Charts, FieldPlaces, WriteFields, FieldsCore, Stands, Tokens;
    var inner := indent + "  ";
    CoreOfFields(v.fields, inner);
    assert "{\n" == "{" + "\n";
    RegroupOpen("{", inner, FieldsCore(v.fields, inner), indent, "}");
    InsideStands(text, i, "{", inner, FieldsCore(v.fields, inner), "\n" + indent + "}", rest);
    assert v.fields[0..] == v.fields;
    FieldsCharted(text, i + 2 + |inner|, v, 0, inner, "\n" + indent + "}" + rest, path);
    AllFieldTokens(v);
  }

  lemma InsideStands(text: string, i: nat, opening: string, inner: string, core: string, end: string, rest: string)
    requires |opening| == 1 && Stands(text, i, opening + (("\n" + inner) + (core + end)), rest)
    ensures Stands(text, i + 2 + |inner|, core, end + rest)
  {
    Shift(text, i, opening, ("\n" + inner) + (core + end), rest);
    Shift(text, i + 1, "\n" + inner, core + end, rest);
    Shift(text, i + 2 + |inner|, core, end, rest);
  }

  lemma AllItemTokens(v: Json)
    requires v.Array?
    ensures ItemTokens(0, |v.items|) == Tokens(v)
  {
    forall t: string ensures t in ItemTokens(0, |v.items|) <==> t in Tokens(v) {
      if t in ItemTokens(0, |v.items|) {
        var m: nat :| m < |v.items| && t == Digits(m);
        FindItemAt(v.items, 0, m);
      }
      if t in Tokens(v) {
        FindItemFinds(v.items, t, 0);
      }
    }
  }

  lemma AllFieldTokens(v: Json)
    requires v.Object? && UniqueKeys(v.fields)
    ensures FieldTokens(v.fields, 0) == Tokens(v)
  {
    forall t: string ensures t in FieldTokens(v.fields, 0) <==> t in Tokens(v) {
      if t in FieldTokens(v.fields, 0) {
        var m: nat :| m < |v.fields| && t == v.fields[m].key;
        FindFieldAt(v.fields, m);
      }
      if t in Tokens(v) {
        FindFieldFinds(v.fields, t);
      }
    }
  }

  /** One child written at `at` and anchored at `anchor`. */
  lemma {:induction false} ChildCharted(text: string, anchor: nat, at: nat, v: Json, c: Json, token: string,
                                        inner: string, rest: string, path: seq<string>)
    requires Writable(c) && Child(v, token) == Some(c) && Stands(text, at, Write(c, inner), rest)
    requires anchor <= |text|
    requires if v.Object? then Quoted(token) <= text[anchor..] else anchor == at
    ensures Charts(Places(c, inner, at, path + [token], anchor), text, v, path, iset{token})
    decreases c, 2
  {
    ValueCharted(text, at, c, inner, rest, path + [token]);
    if !v.Object? {
      assert Write(c, inner) <= text[anchor..];
    }
    hide Charts, InnerPlaces, Child, Quoted, Write;
    ChartsLift(InnerPlaces(c, inner, at, path + [token]), text, v, c, path, token, anchor);
  }

  lemma {:induction false} ItemsCharted(text: string, start: nat, v: Json, n: nat, inner: string, rest: string,
                                        path: seq<string>)
    requires v.Array? && n < |v.items| && (forall k :: 0 <= k < |v.items| ==> Writable(v.items[k]))
    requires Stands(text, start, ItemsCore(v.items[n..], inner), rest)
    ensures Charts(ItemPlaces(v.items[n..], inner, start, path, n), text, v, path, ItemTokens(n, |v.items|))
    decreases v, 0, |v.items| - n
  {
    hide Charts, Places, Stands, Write, ItemTokens, FindItem;
    var items := v.items[n..];
    var w := Write(items[0], inner);
    var more := if n + 1 == |v.items| then "" else ",\n" + inner + ItemsCore(items[1..], inner);
    assert items[0] == v.items[n];
    FindItemAt(v.items, 0, n);
    Shift(text, start, w, more, rest);
    ChildCharted(text, start, start, v, items[0], Digits(n), inner, more + rest, path);
    ItemTokensSplit(n, |v.items|);
    if n + 1 < |v.items| {
      assert items[1..] == v.items[n + 1..];
      Shift(text, start + |w|, ",\n" + inner, ItemsCore(items[1..], inner), rest);
      ItemsCharted(text, start + |w| + 2 + |inner|, v, n + 1, inner, rest, path);
      ChartsUnion(Places(items[0], inner, start, path + [Digits(n)], start),
                  ItemPlaces(items[1..], inner, start + |w| + 2 + |inner|, path, n + 1),
                  text, v, path, iset{Digits(n)}, ItemTokens(n + 1, |v.items|));
    }
  }

  lemma ItemTokensSplit(n: nat, count: nat)
    requires n < count
    ensures ItemTokens(n, count) == iset{Digits(n)} + ItemTokens(n + 1, count)
    ensures iset{Digits(n)} !! ItemTokens(n + 1, count)
    ensures n + 1 == count ==> ItemTokens(n, count) == iset{Digits(n)}
  {
    forall m: nat | n < m < count ensures Digits(m) != Digits(n) {
      DigitsReadBack(m);
      DigitsReadBack(n);
    }
  }

  lemma FieldTokensSplit(fields: seq<Field>, n: nat)
    requires UniqueKeys(fields) && n < |fields|
    ensures FieldTokens(fields, n) == iset{fields[n].key} + FieldTokens(fields, n + 1)
    ensures iset{fields[n].key} !! FieldTokens(fields, n + 1)
    ensures n + 1 == |fields| ==> FieldTokens(fields, n) == iset{fields[n].key}
  {
  }

  lemma {:induction false} FieldsCharted(text: string, start: nat, v: Json, n: nat, inner: string, rest: string,
                                         path: seq<string>)
    requires v.Object? && n < |v.fields| && UniqueKeys(v.fields)
    requires forall k :: 0 <= k < |v.fields| ==> Writable(v.fields[k].value)
    requires Stands(text, start, FieldsCore(v.fields[n..], inner), rest)
    ensures Charts(FieldPlaces(v.fields[n..], inner, start, path), text, v, path, FieldTokens(v.fields, n))
    decreases v, 0, |v.fields| - n
  {
    hide Charts, Places, Stands, Write, Quoted, FieldText, FieldTokens;
    var fields := v.fields[n..];
    var f := fields[0];
    assert f == v.fields[n];
    var more := if n + 1 == |v.fields| then "" else ",\n" + inner + FieldsCore(fields[1..], inner);
    MemberStands(text, start, f, inner, more, rest);
    var value := start + |Quoted(f.key)| + 2;
    FindFieldAt(v.fields, n);
    ChildCharted(text, start, value, v, f.value, f.key, inner, more + rest, path);
    FieldTokensSplit(v.fields, n);
    if n + 1 < |v.fields| {
      assert fields[1..] == v.fields[n + 1..];
      var w := |Write(f.value, inner)|;
      Shift(text, value + w, ",\n" + inner, FieldsCore(fields[1..], inner), rest);
      FieldsCharted(text, value + w + 2 + |inner|, v, n + 1, inner, rest, path);
      ChartsUnion(Places(f.value, inner, value, path + [f.key], start),
                  FieldPlaces(fields[1..], inner, value + w + 2 + |inner|, path),
                  text, v, path, iset{f.key}, FieldTokens(v.fields, n + 1));
    }
  }

  lemma MemberStands(text: string, start: nat, f: Field, inner: string, more: string, rest: string)
    requires Stands(text, start, FieldText(f, inner) + more, rest)
    ensures start <= |text| && Quoted(f.key) <= text[start..]
    ensures var value := start + |Quoted(f.key)| + 2;
            && Stands(text, value, Write(f.value, inner), more + rest)
            && Stands(text, value + |Write(f.value, inner)|, more, rest)
  {
    var q, w := Quoted(f.key), Write(f.value, inner);
    hide Quoted, Write;
    assert FieldText(f, inner) + more == q + (": " + (w + more));
    Shift(text, start, q, ": " + (w + more), rest);
    Shift(text, start + |q|, ": ", w + more, rest);
    Shift(text, start + |q| + 2, w, more, rest);
  }

  // ---------------------------------------------------------------- pointers are distinct

  lemma {:induction false} EscapedHasNoSlash(s: string)
    ensures '/' !in EscapeToken(s)
  {
    if s != "" {
      EscapedHasNoSlash(s[1..]);
    }
  }

  lemma {:induction false} EscapeInjective(s: string, t: string)
    requires EscapeToken(s) == EscapeToken(t)
    ensures s == t && '/' !in EscapeToken(s)
  {
    EscapedHasNoSlash(s);
    if s != "" && t != "" {
      var a, b := EscapeToken(s), EscapeToken(t);
      var k := if s[0] == '~' || s[0] == '/' then 2 else 1;
      assert a[k..] == EscapeToken(s[1..]);
      assert s[0] == t[0] by {
        assert a[0] == b[0];
        assert k == 2 ==> a[1] == b[1];
      }
      assert b[k..] == EscapeToken(t[1..]);
      EscapeInjective(s[1..], t[1..]);
      assert s == [s[0]] + s[1..] && t == [t[0]] + t[1..];
    }
  }

  lemma LastSlash(p: string, e: string, q: string, f: string)
    requires p + "/" + e == q + "/" + f && '/' !in e && '/' !in f
    ensures p == q && e == f
  {
    var s := p + "/" + e;
    assert s[|p|] == '/' && s[|q|] == '/';
    assert |p| == |q|;
    assert p == s[..|p|] && q == s[..|q|] && e == s[|p| + 1..] && f == s[|q| + 1..];
  }

  lemma {:induction false} JoinInjective(a: seq<string>, b: seq<string>)
    requires Join(a) == Join(b)
    ensures a == b
    decreases |a|
  {
    if a != [] && b != [] {
      var m, n := |a| - 1, |b| - 1;
      EscapedHasNoSlash(a[m]);
      EscapedHasNoSlash(b[n]);
      LastSlash(Join(a[..m]), EscapeToken(a[m]), Join(b[..n]), EscapeToken(b[n]));
      JoinInjective(a[..m], b[..n]);
      EscapeInjective(a[m], b[n]);
      assert a == a[..m] + [a[m]] && b == b[..n] + [b[n]];
    }
  }

  lemma {:induction false} DefaultsExact(found: Offsets, places: seq<Place>)
    requires Distinct(places)
    requires forall k :: 0 <= k < |places| ==> Join(places[k].path) !in found
    ensures var r := Defaults(found, places);
            && (forall key :: key in found ==> key in r && r[key] == found[key])
            && (forall k :: 0 <= k < |places| ==>
                  Join(places[k].path) in r && r[Join(places[k].path)] == places[k].offset)
            && (forall key :: key in r ==>
                  key in found || exists k :: 0 <= k < |places| && key == Join(places[k].path))
    decreases |places|
  {
    hide Join;
    if places != [] {
      var found' := Default(found, Join(places[0].path), places[0].offset);
      var tail := places[1..];
      forall k | 0 <= k < |tail| ensures Join(tail[k].path) !in found' {
        assert tail[k] == places[k + 1];
        if Join(tail[k].path) == Join(places[0].path) {
          JoinInjective(tail[k].path, places[0].path);
        }
      }
      DefaultsExact(found', tail);
      var r := Defaults(found', tail);
      forall k | 0 <= k < |places|
        ensures Join(places[k].path) in r && r[Join(places[k].path)] == places[k].offset
      {
        assert k > 0 ==> places[k] == tail[k - 1];
      }
      forall key | key in r && key !in found
        ensures exists k :: 0 <= k < |places| && key == Join(places[k].path)
      {
        if key != Join(places[0].path) {
          var k :| 0 <= k < |tail| && key == Join(tail[k].path);
          assert key == Join(places[k + 1].path);
        }
      }
    }
  }

  // ---------------------------------------------------------------- the theorem

  /** Every place of a whole written document, the root included. */
  lemma DocumentCharted(v: Json, text: string, places: seq<Place>)
    requires Writable(v) && text == Write(v, "") + "\n" && places == Places(v, "", 0, [], 0)
    ensures places != [] && Distinct(places) && places[0] == Place([], 0)
    ensures forall k :: 0 <= k < |places| ==> ValidPath(v, places[k].path)
    ensures forall k :: 0 < k < |places| ==> places[k].path != [] && Marks(text, places[k].offset, v, places[k].path)
    ensures forall path :: ValidPath(v, path) ==> Has(places, path)
  {
    assert text[0..] == text;
    ValueCharted(text, 0, v, "", "\n", []);
    hide Write, InnerPlaces, Marks, Child;
    var inner := InnerPlaces(v, "", 0, []);
    assert forall k :: 0 < k < |places| ==> places[k] == inner[k - 1];
    forall k | 0 < k < |places|
      ensures places[k].path != [] && ValidPath(v, places[k].path)
      ensures Marks(text, places[k].offset, v, places[k].path)
    {
      assert Sound(inner[k - 1], text, v, [], Tokens(v));
      assert places[k].path[0..] == places[k].path;
    }
    forall path | ValidPath(v, path) ensures Has(places, path) {
      if path == [] {
        assert places[0].path == [];
      } else {
        assert path[0] in Tokens(v);
        assert [] + path == path;
        assert Has(inner, [] + path);
        var k :| 0 <= k < |inner| && inner[k].path == path;
        assert places[k + 1].path == path;
      }
    }
  }

  /**
   Scanning the text written for any value consumes it, and records exactly its JSON Pointers, each
   once and at the right place.
   */
  lemma ScannerInvertsWriter(v: Json)
    requires Writable(v)
    ensures var text := Write(v, "") + "\n";
            var s := ScanValue(text, 0, map[], "", None);
            && s.ok && s.index == |Write(v, "")|
            && "" in s.found && s.found[""] == 0
            && (forall path :: ValidPath(v, path) <==> Join(path) in s.found)
            && (forall key :: key in s.found ==> exists path :: ValidPath(v, path) && key == Join(path))
            && (forall path :: path != [] && ValidPath(v, path) ==> Marks(text, s.found[Join(path)], v, path))
  {
    hide Places, ValidPath, Marks, Write, ScanValue, Defaults, Writable;
    var text := Write(v, "") + "\n";
    var places := Places(v, "", 0, [], 0);
    DocumentScanned(v, text);
    DocumentCharted(v, text, places);
    RecordedExactly(v, text, places);
  }

  lemma DocumentScanned(v: Json, text: string)
    requires Writable(v) && text == Write(v, "") + "\n"
    ensures ScanValue(text, 0, map[], "", None)
            == State(true, |Write(v, "")|, Defaults(map[], Places(v, "", 0, [], 0)))
  {
    hide Write, ScanValue, Defaults, Places;
    assert text[0..] == text && "" + Write(v, "") == Write(v, "");
    ValueScanned(text, 0, "", v, "", "\n", map[], [], None);
  }

  lemma RecordedExactly(v: Json, text: string, places: seq<Place>)
    requires places != [] && Distinct(places) && places[0] == Place([], 0)
    requires forall k :: 0 <= k < |places| ==> ValidPath(v, places[k].path)
    requires forall k :: 0 < k < |places| ==> places[k].path != [] && Marks(text, places[k].offset, v, places[k].path)
    requires forall path :: ValidPath(v, path) ==> Has(places, path)
    ensures var found := Defaults(map[], places);
            && Join([]) in found && found[Join([])] == 0
            && (forall path :: ValidPath(v, path) <==> Join(path) in found)
            && (forall key :: key in found ==> exists path :: ValidPath(v, path) && key == Join(path))
            && (forall path :: path != [] && ValidPath(v, path) ==> Marks(text, found[Join(path)], v, path))
  {
    hide ValidPath, Marks, Join, Defaults;
    DefaultsExact(map[], places);
    var found := Defaults(map[], places);
    forall path ensures ValidPath(v, path) <==> Join(path) in found {
      if ValidPath(v, path) {
        assert Has(places, path);
      }
      if Join(path) in found {
        var k :| 0 <= k < |places| && Join(path) == Join(places[k].path);
        JoinInjective(path, places[k].path);
      }
    }
    forall path | path != [] && ValidPath(v, path) ensures Marks(text, found[Join(path)], v, path) {
      assert Has(places, path);
      var k :| 0 <= k < |places| && places[k].path == path;
      assert found[Join(path)] == places[k].offset;
    }
  }

  // ---------------------------------------------------------------- locating a pointer

  lemma {:induction false} ParentOfJoin(path: seq<string>)
    requires path != []
    ensures Join(path) != "" && Parent(Join(path)) == Join(path[..|path| - 1])
  {
    var e := EscapeToken(path[|path| - 1]);
    EscapedHasNoSlash(path[|path| - 1]);
    ParentOfStep(Join(path[..|path| - 1]), e);
  }

  lemma {:induction false} ParentOfStep(p: string, e: string)
    requires '/' !in e
    ensures Parent(p + "/" + e) == p
    decreases |e|
  {
    var s := p + "/" + e;
    if e == "" {
      assert s[..|s| - 1] == p;
    } else {
      var n := |e| - 1;
      assert s[|s| - 1] == e[n];
      assert s[..|s| - 1] == p + "/" + e[..n];
      ParentOfStep(p, e[..n]);
    }
  }

  lemma {:induction false} JoinSlashed(path: seq<string>)
    requires path != []
    ensures Join(path) != "" && Join(path)[0] == '/'
    decreases |path|
  {
    if |path| > 1 {
      JoinSlashed(path[..|path| - 1]);
    }
  }

  /** The located pointer is the nearest ancestor of the asked one that the document has. */
  lemma {:induction false} LocatesNearest(v: Json, found: Offsets, path: seq<string>) returns (k: nat)
    requires "" in found && forall q :: ValidPath(v, q) <==> Join(q) in found
    ensures Join(path) == "" || Join(path)[0] == '/'
    ensures k <= |path| && Nearest(found, Join(path)) == Join(path[..k])
    ensures ValidPath(v, path[..k])
    ensures forall j :: k < j <= |path| ==> !ValidPath(v, path[..j])
    decreases |path|
  {
    assert path[..|path|] == path;
    if path != [] {
      JoinSlashed(path);
    }
    if ValidPath(v, path) {
      k := |path|;
    } else {
      ParentOfJoin(path);
      var up := path[..|path| - 1];
      k := LocatesNearest(v, found, up);
      assert up[..k] == path[..k];
      forall j | k < j <= |path| ensures !ValidPath(v, path[..j]) {
        if j < |path| {
          assert up[..j] == path[..j];
        }
      }
    }
  }

  /** A position names its offset: the start of that line plus the column. */
  lemma PositionNamesOffset(text: string, offset: nat)
    requires offset <= |text|
    ensures var (line, column) := Position(text, offset);
            && line >= 1 && 1 <= column <= offset + 1
            && LineStart(text, line) == Some(offset - (column - 1))
            && '\n' !in text[offset - (column - 1)..offset]
  {
    BeginOfLine(text, offset);
  }

  lemma {:induction false} BeginOfLine(text: string, offset: nat)
    requires offset <= |text|
    ensures LineStart(text, Breaks(text, offset) + 1) == Some(LineBegin(text, offset))
    ensures '\n' !in text[LineBegin(text, offset)..offset]
  {
    if offset > 0 {
      BeginOfLine(text, offset - 1);
      hide LineStart;
      var start := LineBegin(text, offset - 1);
      if text[offset - 1] == '\n' {
        NextLine(text, Breaks(text, offset - 1) + 1, start, offset - 1);
        assert text[offset..offset] == "";
      } else {
        assert text[start..offset] == text[start..offset - 1] + [text[offset - 1]];
      }
    }
  }

  /** The line after the first line break at or after a line's start. */
  lemma NextLine(text: string, line: nat, start: nat, at: nat)
    requires line >= 1 && LineStart(text, line) == Some(start) && start <= at < |text|
    requires '\n' !in text[start..at] && text[at] == '\n'
    ensures LineStart(text, line + 1) == Some(at + 1)
  {
    BreakAt(text, start, at);
  }

  lemma {:induction false} BreakAt(text: string, start: nat, at: nat)
    requires start <= at < |text| && '\n' !in text[start..at] && text[at] == '\n'
    ensures NextBreak(text, start) == Some(at)
    decreases at - start
  {
    if start < at {
      assert text[start] == text[start..at][0];
      assert text[start + 1..at] == text[start..at][1..];
      BreakAt(text, start + 1, at);
    }
  }
}
