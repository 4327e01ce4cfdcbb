/** A model that is written to disk and loaded again keeps its digest. */
module DigestRoundTrip {
  import opened Outcomes
  import opened Powers
  import opened Ieee
  import opened IeeeProperties
  import opened Numerals
  import opened JsonText
  import opened HardwareOutput

  /** No floating number anywhere inside. */
  ghost predicate FloatFree(v: Json) {
    match v
    case Array(items) => forall i :: 0 <= i < |items| ==> FloatFree(items[i])
    case Object(fields) =>
      UniqueKeys(fields) && forall i :: 0 <= i < |fields| ==> FloatFree(fields[i].value)
    case Number(_) => false
    case Real(_) => false
    case Literal(_) => false
    case Pattern(_) => false
    case _ => true
  }

  /**
   A model as the resolver builds it: a C type is a string, and besides its value a float entry
   holds no floating number.
   */
  ghost predicate Admissible(v: Json) {
    match v
    case Array(items) => forall i :: 0 <= i < |items| ==> Admissible(items[i])
    case Object(fields) =>
      && UniqueKeys(fields)
      && (forall i :: 0 <= i < |fields| && fields[i].key == "cType" ==> fields[i].value.Text?)
      && if FloatEntry(fields)
         then forall i :: 0 <= i < |fields| && fields[i].key != "value" ==> FloatFree(fields[i].value)
         else forall i :: 0 <= i < |fields| ==> Admissible(fields[i].value)
    case Number(n) => n.Valid()
    case Literal(_) => false
    case Pattern(_) => false
    case _ => true
  }

  // ---------------------------------------------------------------- dictionaries

  /** Lists with the same keys, and the same values under one key, agree on that key. */
  lemma {:induction false} GetSame(a: seq<Field>, b: seq<Field>, key: string)
    requires |a| == |b|
    requires forall i :: 0 <= i < |a| ==>
               a[i].key == b[i].key && (a[i].key == key ==> a[i].value == b[i].value)
    ensures Get(a, key) == Get(b, key)
  {
    if a != [] && a[0].key != key {
      GetSame(a[1..], b[1..], key);
    }
  }

  lemma {:induction false} GetAt(a: seq<Field>, i: nat)
    requires UniqueKeys(a) && i < |a|
    ensures Get(a, a[i].key) == Some(a[i].value)
  {
    if i > 0 {
      GetAt(a[1..], i - 1);
    }
  }

  lemma GetIndex(a: seq<Field>, key: string) returns (i: nat)
    requires UniqueKeys(a) && Get(a, key).Some?
    ensures i < |a| && a[i].key == key && Get(a, key) == Some(a[i].value)
  {
    i :| 0 <= i < |a| && a[i].key == key;
    GetAt(a, i);
  }

  lemma GetMissing(a: seq<Field>, b: seq<Field>, key: string)
    requires |a| == |b| && forall i :: 0 <= i < |a| ==> a[i].key == b[i].key
    ensures Get(a, key).Some? <==> Get(b, key).Some?
  {
    if Get(a, key).Some? {
      var i :| 0 <= i < |a| && a[i].key == key;
      assert b[i].key == key;
    }
    if Get(b, key).Some? {
      var i :| 0 <= i < |b| && b[i].key == key;
      assert a[i].key == key;
    }
  }

  // ---------------------------------------------------------------- literals

  lemma FloatInDouble(x: real)
    requires Round(FLOAT, x).Ok?
    ensures Round(DOUBLE, x).Ok?
  {
    AcceptedRange(FLOAT, x);
    AcceptedRange(DOUBLE, x);
    PowPositive(Two, 127 - 24);
    PowGrows(Two, -1022 - 53, -126 - 24);
    PowGrows(Two, 127 + 1, 1023);
    PowGrows(Two, 1023 - 53, 1023);
    ScaledStep(Two, 1.0, 1023);
  }

  lemma RoundedPrints(f: Format, width: nat, x: real)
    requires Round(f, x).Ok? && WideEnough(f, width)
    ensures Round(f, Scientific(width, Round(f, x).value).Value()) == Round(f, x)
  {
    RoundIsNearestEven(f, x);
    hide Round, Scientific, WideEnough, Finite;
    PrintedReadsBack(f, width, Round(f, x).value);
  }

  /** The digits of a rounded value are a number the loader accepts, and round to the value. */
  lemma LiteralReads(cType: string, v: Json)
    requires FormatOf(cType).Some? && IeeeOf(FormatOf(cType).value.0, v).Ok?
    ensures var f := FormatOf(cType).value;
            var n := Scientific(f.1, IeeeOf(f.0, v).value);
            Loadable(n) && IeeeOf(f.0, Number(n)) == IeeeOf(f.0, v)
  {
    hide Round, Scientific, WideEnough, Numeral.Value;
    FormatWidths();
    var x := ExactValue(v).value;
    if cType == "float" {
      RoundedPrints(FLOAT, 9, x);
      FloatInDouble(Scientific(9, Round(FLOAT, x).value).Value());
    } else {
      RoundedPrints(DOUBLE, 17, x);
    }
  }

  // ---------------------------------------------------------------- one pass

  lemma {:induction false} FloatFreeStays(v: Json)
    requires FloatFree(v)
    ensures Writable(v) && Reread(v) == v
  {
    match v
    case Array(items) =>
      forall i | 0 <= i < |items| ensures Writable(items[i]) && Reread(items[i]) == items[i] {
        FloatFreeStays(items[i]);
      }
      assert RereadItems(items) == items;
    case Object(fields) =>
      forall i | 0 <= i < |fields|
        ensures Writable(fields[i].value) && Reread(fields[i].value) == fields[i].value
      {
        FloatFreeStays(fields[i].value);
      }
      assert RereadFields(fields) == fields;
    case _ =>
  }

  /** One value's trip through the file: h is its hash input and w its written form. */
  ghost predicate Survives(v: Json, h: Json, w: Json) {
    && Floats(v, true) == Ok(h)
    && Floats(v, false) == Ok(w)
    && Writable(w)
    && Floats(Reread(w), true) == Ok(h)
    && Floats(Reread(w), false) == Ok(w)
  }

  ghost predicate Robust(v: Json) {
    Floats(v, true).Ok? && exists w :: Survives(v, Floats(v, true).value, w)
  }

  /** A float entry whose value rounds to y. */
  lemma EntryFloats(fields: seq<Field>, cType: string, v: Json, y: real, hash: bool)
    requires Get(fields, "cType") == Some(Text(cType)) && Get(fields, "value") == Some(v)
    requires FormatOf(cType).Some? && IeeeOf(FormatOf(cType).value.0, v) == Ok(y)
    ensures var shown := if hash then Pattern(y) else Literal(Scientific(FormatOf(cType).value.1, y));
            Floats(Object(fields), hash) == Ok(Object(Put(fields, "value", shown)))
  {
    hide Scientific, IeeeOf, Get, FloatsFields, Put;
  }

  lemma EntryRounds(fields: seq<Field>) returns (cType: string, v: Json, y: real)
    requires FloatEntry(fields) && Floats(Object(fields), true).Ok?
    ensures Get(fields, "cType") == Some(Text(cType)) && Get(fields, "value") == Some(v)
    ensures FormatOf(cType).Some? && IeeeOf(FormatOf(cType).value.0, v) == Ok(y)
  {
    hide Scientific, IeeeOf, Get, FloatsFields, Put;
    cType, v := CType(fields).value, Get(fields, "value").value;
    y := IeeeOf(FormatOf(cType).value.0, v).value;
  }

  /** The reread form of a float entry: the same members, with the digits as its value. */
  lemma RereadEntry(fields: seq<Field>, n: Numeral)
    requires Admissible(Object(fields)) && FloatEntry(fields) && Writable(Literal(n))
    ensures var w := Put(fields, "value", Literal(n));
            Writable(Object(w)) && RereadFields(w) == Put(fields, "value", Number(n))
  {
    hide Get, Put, RereadFields, FormatOf, Numeral.Value, Round;
    var w := Put(fields, "value", Literal(n));
    forall i | 0 <= i < |w|
      ensures Writable(w[i].value)
      ensures Reread(w[i].value) == if fields[i].key == "value" then Number(n) else fields[i].value
    {
      if fields[i].key != "value" {
        FloatFreeStays(fields[i].value);
      }
    }
  }

  lemma GetPut(fields: seq<Field>, x: Json)
    requires UniqueKeys(fields) && Get(fields, "value").Some?
    ensures UniqueKeys(Put(fields, "value", x))
    ensures Get(Put(fields, "value", x), "value") == Some(x)
    ensures Get(Put(fields, "value", x), "cType") == Get(fields, "cType")
  {
    var r := Put(fields, "value", x);
    GetSame(r, fields, "cType");
    GetMissing(r, fields, "value");
    var i := GetIndex(r, "value");
  }

  lemma EntrySurvives(fields: seq<Field>) returns (h: Json, w: Json)
    requires Admissible(Object(fields)) && FloatEntry(fields) && Floats(Object(fields), true).Ok?
    ensures Survives(Object(fields), h, w)
  {
    var cType, v, y := EntryRounds(fields);
    var n := Scientific(FormatOf(cType).value.1, y);
    LiteralReads(cType, v);
    RereadEntry(fields, n);
    GetPut(fields, Number(n));
    h, w := EntryTrip(fields, cType, v, y, n);
  }

  lemma EntryTrip(fields: seq<Field>, cType: string, v: Json, y: real, n: Numeral) returns (h: Json, w: Json)
    requires FormatOf(cType).Some? && n == Scientific(FormatOf(cType).value.1, y)
    requires IeeeOf(FormatOf(cType).value.0, v) == Ok(y) == IeeeOf(FormatOf(cType).value.0, Number(n))
    requires Get(fields, "cType") == Some(Text(cType)) && Get(fields, "value") == Some(v)
    requires var r := Put(fields, "value", Number(n));
             Get(r, "cType") == Some(Text(cType)) && Get(r, "value") == Some(Number(n))
    requires var w := Put(fields, "value", Literal(n));
             Writable(Object(w)) && RereadFields(w) == Put(fields, "value", Number(n))
    ensures Survives(Object(fields), h, w)
  {
    hide Floats, Scientific, IeeeOf, Get, FormatOf, Writable, Put, RereadFields;
    EntryFloats(fields, cType, v, y, true);
    EntryFloats(fields, cType, v, y, false);
    var r := Put(fields, "value", Number(n));
    EntryFloats(r, cType, Number(n), y, true);
    EntryFloats(r, cType, Number(n), y, false);
    h, w := Object(Put(fields, "value", Pattern(y))), Object(Put(fields, "value", Literal(n)));
    assert Put(r, "value", Pattern(y)) == h.fields;
    assert Put(r, "value", Literal(n)) == w.fields;
  }

  lemma EntryMembers(cType: string, x: Json)
    ensures UniqueKeys(Entry(cType, x))
    ensures Get(Entry(cType, x), "cType") == Some(Text(cType))
    ensures Get(Entry(cType, x), "value") == Some(x)
  {
    var e := Entry(cType, x);
    GetAt(e, 0);
    GetAt(e, 1);
  }

  lemma EntryPut(cType: string, x: Json, y: Json)
    ensures Put(Entry(cType, x), "value", y) == Entry(cType, y)
  {
  }

  lemma EntryReread(cType: string, n: Numeral)
    requires Writable(Literal(n))
    ensures Writable(Object(Entry(cType, Literal(n))))
    ensures RereadFields(Entry(cType, Literal(n))) == Entry(cType, Number(n))
  {
    EntryMembers(cType, Literal(n));
  }

  /** A bare float is written and hashed as a double entry. */
  lemma BareSurvives(v: Json) returns (h: Json, w: Json)
    requires (v.Number? || v.Real?) && Floats(v, true).Ok?
    ensures Survives(v, h, w)
  {
    var y := IeeeOf(DOUBLE, v).value;
    var n := Scientific(17, y);
    h, w := Object(Entry("double", Pattern(y))), Object(Entry("double", Literal(n)));
    assert Floats(v, false) == Ok(w) && Floats(v, true) == Ok(h);
    LiteralReads("double", v);
    hide Scientific, IeeeOf, Get, Entry, RereadFields, Loadable, Put, Floats;
    EntryReread("double", n);
    EntryMembers("double", Number(n));
    EntryFloats(Entry("double", Number(n)), "double", Number(n), y, true);
    EntryFloats(Entry("double", Number(n)), "double", Number(n), y, false);
    EntryPut("double", Number(n), Pattern(y));
    EntryPut("double", Number(n), Literal(n));
  }

  lemma {:induction false} ValueSurvives(v: Json)
    requires Admissible(v) && Floats(v, true).Ok?
    ensures Robust(v)
  {
    if v.Array? {
      forall i | 0 <= i < |v.items|
        ensures Robust(v.items[i])
      {
        ValueSurvives(v.items[i]);
      }
      ItemsSurvive(v.items);
    } else if v.Object? && FloatEntry(v.fields) {
      var h, w := EntrySurvives(v.fields);
    } else if v.Object? {
      forall i | 0 <= i < |v.fields|
        ensures Robust(v.fields[i].value)
      {
        ValueSurvives(v.fields[i].value);
      }
      assert v == Object(v.fields);
      FieldsSurvive(v.fields);
    } else if v.Number? || v.Real? {
      var h, w := BareSurvives(v);
    } else {
      assert Survives(v, v, v);
    }
  }

  lemma ItemsSurvive(items: seq<Json>)
    requires forall i :: 0 <= i < |items| ==> Robust(items[i])
    ensures Robust(Array(items))
  {
    hide FloatsItems, RereadItems, Loadable;
    var w, h := FloatsItems(items, false).value, FloatsItems(items, true).value;
    var r := RereadItems(w);
    assert FloatsItems(r, true).Ok? && FloatsItems(r, true).value == h;
    assert FloatsItems(r, false).Ok? && FloatsItems(r, false).value == w;
    assert Survives(Array(items), Array(h), Array(w));
  }

  /** A dictionary that is no float entry is treated member by member. */
  lemma FieldsFloats(fields: seq<Field>, hash: bool)
    requires !FloatEntry(fields)
    requires Get(fields, "cType").Some? ==> Get(fields, "cType").value.Text?
    requires FloatsFields(fields, hash).Ok?
    ensures Floats(Object(fields), hash) == Ok(Object(FloatsFields(fields, hash).value))
  {
    hide Get, FloatsFields, FloatEntry;
  }

  lemma PlainDictionary(fields: seq<Field>, r: seq<Field>)
    requires Admissible(Object(fields)) && !FloatEntry(fields)
    requires |r| == |fields|
    requires forall i :: 0 <= i < |r| ==>
               r[i].key == fields[i].key && (fields[i].key == "cType" ==> r[i].value == fields[i].value)
    ensures !FloatEntry(r) && (Get(r, "cType").Some? ==> Get(r, "cType").value.Text?)
    ensures Get(fields, "cType") == Get(r, "cType")
  {
    GetSame(r, fields, "cType");
    GetMissing(r, fields, "value");
    if Get(r, "cType").Some? {
      var i := GetIndex(fields, "cType");
    }
  }

  lemma FieldsSurvive(fields: seq<Field>)
    requires Admissible(Object(fields)) && !FloatEntry(fields)
    requires forall i :: 0 <= i < |fields| ==> Robust(fields[i].value)
    ensures Robust(Object(fields))
  {
    hide Get, FloatEntry, RereadFields, FloatsFields, Loadable, FloatFree;
    var w, h := FloatsFields(fields, false).value, FloatsFields(fields, true).value;
    forall i | 0 <= i < |fields|
      ensures Writable(w[i].value)
      ensures Floats(Reread(w[i].value), true) == Ok(h[i].value) && Floats(Reread(w[i].value), false) == Ok(w[i].value)
    {
      var x :| Survives(fields[i].value, Floats(fields[i].value, true).value, x);
      assert w[i].value == x;
    }
    PlainDictionary(fields, fields);
    FieldsFloats(fields, true);
    FieldsFloats(fields, false);
    DictionaryTrip(fields, w, h);
  }

  lemma DictionaryTrip(fields: seq<Field>, w: seq<Field>, h: seq<Field>)
    requires Admissible(Object(fields)) && !FloatEntry(fields) && |fields| == |w| == |h|
    requires forall i :: 0 <= i < |fields| ==> w[i].key == h[i].key == fields[i].key && Writable(w[i].value)
    requires forall i :: 0 <= i < |fields| ==> Floats(fields[i].value, false) == Ok(w[i].value)
    requires forall i :: 0 <= i < |fields| ==>
               Floats(Reread(w[i].value), true) == Ok(h[i].value) && Floats(Reread(w[i].value), false) == Ok(w[i].value)
    requires Floats(Object(fields), true) == Ok(Object(h)) && Floats(Object(fields), false) == Ok(Object(w))
    ensures Survives(Object(fields), Object(h), Object(w))
  {
    var r := RereadFields(w);
    hide Get, FloatEntry, RereadFields, FloatsFields, Loadable, FloatFree;
    forall i | 0 <= i < |r| && fields[i].key == "cType" ensures r[i].value == fields[i].value {
      assert fields[i].value.Text?;
    }
    hide Floats, Reread;
    PlainDictionary(fields, r);
    FloatsPointwise(r, h, true);
    FloatsPointwise(r, w, false);
    FieldsFloats(r, true);
    FieldsFloats(r, false);
    assert UniqueKeys(w);
    RereadObject(w);
  }

  lemma RereadObject(w: seq<Field>)
    ensures Reread(Object(w)) == Object(RereadFields(w))
  {
  }

  lemma FloatsPointwise(r: seq<Field>, h: seq<Field>, hash: bool)
    requires |r| == |h|
    requires forall i :: 0 <= i < |r| ==> r[i].key == h[i].key && Floats(r[i].value, hash) == Ok(h[i].value)
    ensures FloatsFields(r, hash) == Ok(h)
  {
    hide Floats, FloatsFields;
    assert FloatsFields(r, hash).value == h;
  }

  // ---------------------------------------------------------------- exact numbers

  lemma {:induction false} ExactStaysAdmissible(v: Json)
    requires Admissible(v) && ExactNumbers(v).Ok?
    ensures Admissible(ExactNumbers(v).value)
  {
    hide Get, Put, FormatOf, IntegerValue, ExactItems, ExactFields, FloatFree;
    match v
    case Array(items) =>
      forall i | 0 <= i < |items| ensures Admissible(ExactItems(items).value[i]) {
        ExactStaysAdmissible(items[i]);
      }
    case Object(fields) =>
      if Get(fields, "cType").Some? && Get(fields, "value").Some? {
        var e := ExactNumbers(v).value.fields;
        GetSame(e, fields, "cType");
        GetMissing(e, fields, "value");
      } else {
        var e := ExactFields(fields).value;
        forall i | 0 <= i < |fields| ensures Admissible(e[i].value) {
          ExactStaysAdmissible(fields[i].value);
        }
        GetMissing(e, fields, "cType");
        GetMissing(e, fields, "value");
      }
    case _ =>
  }

  /** Reloading finds every integer already exact. */
  lemma {:induction false} ReloadedIsExact(v: Json)
    requires Admissible(v) && ExactNumbers(v).Ok? && Floats(ExactNumbers(v).value, false).Ok?
    ensures var r := Reread(Floats(ExactNumbers(v).value, false).value); ExactNumbers(r) == Ok(r)
  {
    hide Get, Put, IntegerValue, ExactItems, ExactFields, FloatsItems, FloatsFields, RereadItems, RereadFields;
    hide FloatFree;
    var e := ExactNumbers(v).value;
    match v
    case Array(items) =>
      forall i | 0 <= i < |items|
        ensures var r := RereadItems(FloatsItems(e.items, false).value); ExactNumbers(r[i]) == Ok(r[i])
      {
        ReloadedIsExact(items[i]);
      }
      var r := RereadItems(FloatsItems(e.items, false).value);
      assert ExactItems(r).Ok? && ExactItems(r).value == r;
    case Object(fields) =>
      if Get(fields, "cType").Some? && Get(fields, "value").Some? {
        ReloadedEntryIsExact(fields, e.fields);
      } else {
        GetMissing(e.fields, fields, "cType");
        GetMissing(e.fields, fields, "value");
        var r := RereadFields(FloatsFields(e.fields, false).value);
        forall i | 0 <= i < |fields| ensures ExactNumbers(r[i].value) == Ok(r[i].value) {
          ReloadedIsExact(fields[i].value);
        }
        GetMissing(r, fields, "cType");
        GetMissing(r, fields, "value");
        assert ExactFields(r).Ok? && ExactFields(r).value == r;
      }
    case Number(_) => BareReloadedIsExact(e);
    case Real(_) => BareReloadedIsExact(e);
    case _ =>
  }

  lemma EntryIsExact(cType: string, x: Json)
    requires FormatOf(cType).Some?
    ensures ExactNumbers(Object(Entry(cType, x))) == Ok(Object(Entry(cType, x)))
  {
    EntryMembers(cType, x);
    hide Get, Entry, IntegerValue, ExactFields;
  }

  lemma BareReloadedIsExact(e: Json)
    requires Floats(e, false).Ok? && (e.Number? || e.Real? || e.Int?)
    ensures var r := Reread(Floats(e, false).value); ExactNumbers(r) == Ok(r)
  {
    if !e.Int? {
      var n := Scientific(17, IeeeOf(DOUBLE, e).value);
      assert Floats(e, false) == Ok(Object(Entry("double", Literal(n))));
      LiteralReads("double", e);
      hide Scientific, IeeeOf, Entry, RereadFields, Loadable, Floats, ExactNumbers;
      EntryReread("double", n);
      EntryIsExact("double", Number(n));
    }
  }

  lemma ReloadedEntryIsExact(fields: seq<Field>, e: seq<Field>)
    requires Admissible(Object(fields)) && ExactNumbers(Object(fields)) == Ok(Object(e))
    requires Get(fields, "cType").Some? && Get(fields, "value").Some?
    requires Floats(Object(e), false).Ok?
    ensures var r := Reread(Floats(Object(e), false).value); ExactNumbers(r) == Ok(r)
  {
    hide Get, Put, ExactNumbers, Floats, RereadFields, Admissible;
    ExactKeepsKeys(fields, e);
    var w := FloatsKeepsKeys(e);
    RereadKeepsKeys(e, w);
    ReloadedEntry(fields, e, w, RereadFields(w));
  }

  /** Turning floats into digits keeps the keys and every text member. */
  lemma FloatsKeepsKeys(e: seq<Field>) returns (w: seq<Field>)
    requires Floats(Object(e), false).Ok? && Get(e, "cType").Some? && Get(e, "cType").value.Text?
    ensures Floats(Object(e), false) == Ok(Object(w)) && |w| == |e|
    ensures forall i :: 0 <= i < |e| ==> w[i].key == e[i].key
    ensures forall i :: 0 <= i < |e| && e[i].key != "value" && e[i].value.Text? ==> w[i].value == e[i].value
  {
    hide Get, Put, FloatsFields, IeeeOf, FormatOf;
    w := Floats(Object(e), false).value.fields;
  }

  lemma ExactKeepsKeys(fields: seq<Field>, e: seq<Field>)
    requires Admissible(Object(fields)) && ExactNumbers(Object(fields)) == Ok(Object(e))
    requires Get(fields, "cType").Some? && Get(fields, "value").Some?
    ensures Get(e, "cType") == Get(fields, "cType") && Get(e, "value").Some?
    ensures Get(e, "cType").value.Text? && UniqueKeys(e)
  {
    hide Get, Put, ExactFields, FloatFree, IntegerValue, FormatOf;
    GetSame(e, fields, "cType");
    GetMissing(e, fields, "value");
    var c := GetIndex(fields, "cType");
  }

  lemma RereadKeepsKeys(e: seq<Field>, w: seq<Field>)
    requires UniqueKeys(e) && |w| == |e| && forall i :: 0 <= i < |e| ==> w[i].key == e[i].key
    requires forall i :: 0 <= i < |e| && e[i].key != "value" && e[i].value.Text? ==> w[i].value == e[i].value
    requires Get(e, "cType").Some? && Get(e, "cType").value.Text? && Get(e, "value").Some?
    ensures Get(RereadFields(w), "cType") == Get(e, "cType") && Get(RereadFields(w), "value").Some?
    ensures UniqueKeys(RereadFields(w))
  {
    hide Get, RereadFields;
    var r := RereadFields(w);
    var c := GetIndex(e, "cType");
    GetSame(r, e, "cType");
    GetMissing(r, e, "value");
  }

  lemma ReloadedEntry(fields: seq<Field>, e: seq<Field>, w: seq<Field>, r: seq<Field>)
    requires ExactNumbers(Object(fields)) == Ok(Object(e)) && Floats(Object(e), false) == Ok(Object(w))
    requires Get(fields, "cType") == Get(r, "cType") == Get(e, "cType")
    requires Get(fields, "value").Some? && Get(r, "value").Some?
    requires Get(r, "cType").Some? && Get(r, "cType").value.Text?
    requires r == RereadFields(w) && UniqueKeys(r)
    ensures ExactNumbers(Object(r)) == Ok(Object(r))
  {
    hide Get, Put, ExactFields, FloatsFields, RereadFields;
    var c := Get(fields, "cType").value;
    if !(FormatOf(c.s).Some? || c.s in ["bool", "string"]) {
      var n := IntegerValue(Get(fields, "value").value).value;
      ReloadedInteger(fields, e, n, w, r);
    }
  }

  lemma ReloadedInteger(fields: seq<Field>, e: seq<Field>, n: int, w: seq<Field>, r: seq<Field>)
    requires e == Put(fields, "value", Int(n)) && !FloatEntry(e) && Floats(Object(e), false) == Ok(Object(w))
    requires r == RereadFields(w) && UniqueKeys(r) && Get(r, "value").Some?
    ensures Get(r, "value") == Some(Int(n)) && Put(r, "value", Int(n)) == r
  {
    hide Get, Put, FloatsFields, RereadFields, FloatEntry;
    assert forall i :: 0 <= i < |r| && r[i].key == "value" ==> r[i].value == Int(n);
    var j := GetIndex(r, "value");
  }

  // ---------------------------------------------------------------- the theorems

  /** The text written for a model loads, and the loaded model has the same hash input. */
  lemma DigestSurvives(v: Json)
    requires Admissible(v) && HashInput(v).Ok?
    ensures Dump(v).Ok? && Load(Dump(v).value).Some?
    ensures HashInput(Load(Dump(v).value).value) == HashInput(v)
    ensures Dump(Load(Dump(v).value).value) == Dump(v)
  {
    var e := ExactNumbers(v).value;
    ExactStaysAdmissible(v);
    ValueSurvives(e);
    var w :| Survives(e, Floats(e, true).value, w);
    ReloadedIsExact(v);
    hide ExactNumbers, Floats, Admissible, Load, Write, Reread;
    WrittenLoads(Floats(e, false).value);
  }

  lemma MemberSurvives(v: Json, e: Json, w: Json)
    requires Admissible(v) && ExactNumbers(v) == Ok(e) && Floats(e, false) == Ok(w) && Floats(e, true).Ok?
    ensures HashInput(Reread(w)) == HashInput(v)
  {
    ExactStaysAdmissible(v);
    ValueSurvives(e);
    ReloadedIsExact(v);
  }

  /** Finalize never rejects an unmodified file because of its digest. */
  lemma FinalizeAccepts(sha: Json -> string, doc: seq<Field>)
    requires Admissible(Object(doc)) && HashInput(Object(doc)).Ok? && Get(doc, "cType").None?
    requires DigestMatches(sha, doc)
    ensures Dump(Object(doc)).Ok? && Load(Dump(Object(doc)).value).Some?
    ensures Load(Dump(Object(doc)).value).value.Object?
    ensures DigestMatches(sha, Load(Dump(Object(doc)).value).value.fields)
  {
    var e := ExactFields(doc).value;
    PlainMembers(doc, e);
    DigestSurvives(Object(doc));
    var w := FloatsFields(e, false).value;
    var r := RereadFields(w);
    ExactStaysAdmissible(Object(doc));
    ValueSurvives(Object(e));
    WrittenLoads(Object(w));
    SameMember(doc, e, w, "hardware");
    SameMember(doc, e, w, "selection");
    SameMember(doc, e, w, "hardwareSha256");
    CoveredByParts(Get(doc, "hardware").value, Get(doc, "selection").value,
                   Get(r, "hardware").value, Get(r, "selection").value);
  }

  lemma PlainMembers(doc: seq<Field>, e: seq<Field>)
    requires Get(doc, "cType").None? && ExactNumbers(Object(doc)) == Ok(Object(e))
    ensures ExactFields(doc) == Ok(e)
    ensures !FloatEntry(e) && Get(e, "cType").None?
    ensures forall hash :: Floats(Object(e), hash).Ok? ==> FloatsFields(e, hash).Ok?
    ensures forall hash :: Floats(Object(e), hash).Ok? ==>
              Floats(Object(e), hash) == Ok(Object(FloatsFields(e, hash).value))
  {
    hide Get, ExactFields, FloatsFields;
    GetMissing(doc, e, "cType");
  }

  lemma SameMember(doc: seq<Field>, e: seq<Field>, w: seq<Field>, key: string)
    requires Admissible(Object(doc)) && Get(doc, "cType").None? && Get(doc, key).Some?
    requires ExactFields(doc) == Ok(e) && FloatsFields(e, false) == Ok(w) && FloatsFields(e, true).Ok?
    ensures Get(RereadFields(w), key).Some?
    ensures HashInput(Get(RereadFields(w), key).value) == HashInput(Get(doc, key).value)
    ensures Get(doc, key).value.Text? ==> Get(RereadFields(w), key) == Get(doc, key)
  {
    hide Get, ExactFields, FloatsFields, RereadFields, FloatFree;
    var r := RereadFields(w);
    GetMissing(doc, r, key);
    var i := GetIndex(doc, key);
    GetAt(r, i);
    MemberSurvives(doc[i].value, e[i].value, w[i].value);
  }

  /** The hash input of the covered part is made of the hash inputs of its two members. */
  lemma CoveredByParts(a: Json, b: Json, a': Json, b': Json)
    requires HashInput(a') == HashInput(a) && HashInput(b') == HashInput(b)
    requires HashInput(Covered(a, b)).Ok?
    ensures HashInput(Covered(a', b')) == HashInput(Covered(a, b))
  {
    var h := CoveredHash(a, b);
    CoveredPlain(a', b');
    var f, f' := Covered(a, b).fields, Covered(a', b').fields;
    hide Get, ExactNumbers, Floats, FloatsFields, ExactFields;
    CoveredFrom(a', b', h.0, h.1);
    CoveredFrom(a, b, h.0, h.1);
  }

  lemma CoveredPlain(a: Json, b: Json)
    ensures Get(Covered(a, b).fields, "cType").None?
  {
  }

  lemma CoveredHash(a: Json, b: Json) returns (h: (Json, Json))
    requires HashInput(Covered(a, b)).Ok?
    ensures HashInput(a) == Ok(h.0) && HashInput(b) == Ok(h.1)
  {
    var f := Covered(a, b).fields;
    CoveredPlain(a, b);
    hide Get;
    var e := ExactFields(f).value;
    assert f[0].value == a && f[1].value == b;
    GetMissing(e, f, "cType");
    h := (Floats(e[0].value, true).value, Floats(e[1].value, true).value);
  }

  lemma CoveredFrom(a: Json, b: Json, ha: Json, hb: Json)
    requires HashInput(a) == Ok(ha) && HashInput(b) == Ok(hb)
    ensures HashInput(Covered(a, b)) == Ok(Covered(ha, hb))
  {
    var f := Covered(a, b).fields;
    CoveredPlain(a, b);
    hide Get, ExactFields, FloatsFields, Floats;
    assert f[0].value == a && f[1].value == b;
    var e := ExactFields(f).value;
    GetMissing(e, f, "cType");
    assert ExactNumbers(Object(f)) == Ok(Object(e));
    assert Floats(e[0].value, true) == Ok(ha) && Floats(e[1].value, true) == Ok(hb);
    FloatsPointwise(e, Covered(ha, hb).fields, true);
    FieldsFloats(e, true);
  }

  // ---------------------------------------------------------------- literal text

  lemma KeepsTrimmed(s: string, chars: seq<char>, tail: string)
    requires s != "" && s[|s| - 1] !in chars && (forall i :: 0 <= i < |tail| ==> tail[i] in chars)
    ensures StripRight(s + tail, chars) == s
    decreases |tail|
  {
    if tail == "" {
      assert s + tail == s;
    } else {
      var t := tail[..|tail| - 1];
      assert (s + tail)[..|s + tail| - 1] == s + t;
      KeepsTrimmed(s, chars, t);
    }
  }

  lemma NumeralEnds(n: Numeral)
    requires n.Valid()
    ensures NumeralText(n) != "" && IsDigit(NumeralText(n)[|NumeralText(n)| - 1])
    ensures NumeralText(n)[0] == '-' || IsDigit(NumeralText(n)[0])
  {
    hide ExponentDigits;
    var d := ExponentDigits(if n.exponent < 0 then -n.exponent else n.exponent);
    var t := NumeralText(n);
    assert t[|t| - 1] == ExponentText(n.exponent)[|ExponentText(n.exponent)| - 1] == d[|d| - 1];
  }

  /** What the file keeps of a C literal are exactly the digits of the rounded value. */
  lemma LiteralKeepsDigits(single: bool, y: real)
    ensures KeptDigits(FloatLiteral(single, y)) == NumeralText(Scientific(if single then 9 else 17, y))
  {
    NumeralEnds(Scientific(if single then 9 else 17, y));
    hide NumeralText, Scientific, KeptDigits, Spelled;
    SpelledKeepsDigits(NumeralText(Scientific(if single then 9 else 17, y)), single, y < 0.0);
  }

  lemma SpelledKeepsDigits(digits: string, single: bool, negative: bool)
    requires digits != "" && IsDigit(digits[|digits| - 1]) && (digits[0] == '-' || IsDigit(digits[0]))
    ensures KeptDigits(Spelled(digits, single, negative)) == digits
  {
    var suffix := if single then "f" else "";
    var text := digits + suffix;
    assert StripLeft(text) == text;
    if negative {
      assert ("(" + text + ")")[1..] == text + ")";
      assert StripLeft(text + ")") == text + ")";
      KeepsTrimmed(text, ['(', ')'], ")");
    } else {
      assert text + "" == text;
      KeepsTrimmed(text, ['(', ')'], "");
    }
    KeepsTrimmed(digits, ['f'], suffix);
  }
}
