/**
 What a model means, path by path, and that the digest and the file show exactly that.

 `Seen` reads a model without transforming it: the exact integer, the rounded value, the text or the
 shape at each path. It says what is hashed and written; `HardwareOutput` says how.
 */
module HardwareNumbers {
  import opened Outcomes
  import opened Ieee
  import opened Numerals
  import opened JsonText
  import opened HardwareOutput
  import opened DigestRoundTrip

  // ---------------------------------------------------------------- paths

  datatype Step = Key(key: string) | Index(i: nat)

  type Path = seq<Step>

  /** What is seen at a path; `Fault` is a number the type there cannot hold. */
  datatype Sight =
    | Nothing
    | Truth(b: bool)
    | Whole(n: int)
    | Rounded(y: real)
    | Word(s: string)
    | Items(size: nat)
    | Members(keys: seq<string>)
    | Fault

  ghost function Keys(fields: seq<Field>): seq<string> {
    seq(|fields|, i requires 0 <= i < |fields| => fields[i].key)
  }

  /** The member or item one step leads to. */
  ghost function Part(v: Json, step: Step): Option<Json> {
    if v.Array? && step.Index? && step.i < |v.items| then Some(v.items[step.i])
    else if v.Object? && step.Key? then Get(v.fields, step.key)
    else None
  }

  ghost function At(v: Json, path: Path): Option<Json>
    decreases |path|
  {
    if path == [] then Some(v)
    else if Part(v, path[0]).None? then None
    else At(Part(v, path[0]).value, path[1..])
  }

  // ---------------------------------------------------------------- what a model means

  /**
   How numbers are read: integers at their exact value whatever their spelling; inside an entry, where
   a number in decimal notation stays floating; or, beside the value of a float entry, not at all.
   */
  datatype Reading = Exact | Floating | Kept

  /** A decimal number that stands for an integer. */
  ghost predicate IsWhole(v: Json) {
    ExactValue(v).Ok? && ExactValue(v).value == ExactValue(v).value.Floor as real
  }

  ghost function RoundedSight(f: Format, v: Json): Sight {
    if ExactValue(v).Err? || Round(f, ExactValue(v).value).Err? then Fault
    else Rounded(Round(f, ExactValue(v).value).value)
  }

  /** A decimal number: an integer where exactness counts, otherwise a dictionary of a double. */
  ghost function DecimalSeen(v: Json, path: Path, how: Reading): Option<Sight> {
    if how == Exact && IsWhole(v) then
      if path == [] then Some(Whole(ExactValue(v).value.Floor)) else None
    else if RoundedSight(DOUBLE, v).Fault? then
      if path == [] then Some(Fault) else None
    else if path == [] then Some(Members(["cType", "value"]))
    else if path == [Key("cType")] then Some(Word("double"))
    else if path == [Key("value")] then Some(RoundedSight(DOUBLE, v))
    else None
  }

  /** The value of an entry of an integer type. */
  ghost function WholeSight(v: Json): Sight {
    if IsWhole(v) then Whole(ExactValue(v).value.Floor) else Fault
  }

  ghost function OnlyHere(path: Path, s: Sight): Option<Sight> {
    if path == [] then Some(s) else None
  }

  /** A dictionary that has both a C type and a value. */
  ghost predicate TypedEntry(fields: seq<Field>) {
    CType(fields).Some? && Get(fields, "value").Some?
  }

  ghost predicate FloatType(cType: string) { cType == "float" || cType == "double" }

  ghost predicate IntegerType(cType: string) { !FloatType(cType) && cType != "bool" && cType != "string" }

  ghost function FormatNamed(cType: string): Format {
    if cType == "float" then FLOAT else DOUBLE
  }

  ghost function Seen(v: Json, path: Path, how: Reading): Option<Sight>
    decreases |path|
  {
    match v
    case Number(_) => DecimalSeen(v, path, how)
    case Real(_) => DecimalSeen(v, path, how)
    case Null => OnlyHere(path, Nothing)
    case Bool(b) => OnlyHere(path, Truth(b))
    case Int(n) => OnlyHere(path, Whole(n))
    case Text(s) => OnlyHere(path, Word(s))
    case Literal(_) => None
    case Pattern(_) => None
    case Array(items) =>
      if path == [] then Some(Items(|items|))
      else if Part(v, path[0]).None? then None
      else Seen(Part(v, path[0]).value, path[1..], how)
    case Object(fields) =>
      if path == [] then Some(Members(Keys(fields)))
      else if Part(v, path[0]).None? then None
      else
        var part := Part(v, path[0]).value;
        if how == Kept || !TypedEntry(fields) then Seen(part, path[1..], how)
        else
          var cType := CType(fields).value;
          if FloatType(cType) then
            if path[0].key == "value" then OnlyHere(path[1..], RoundedSight(FormatNamed(cType), part))
            else Seen(part, path[1..], Kept)
          else if how == Exact && IntegerType(cType) && path[0].key == "value" then
            OnlyHere(path[1..], WholeSight(part))
          else Seen(part, path[1..], Floating)
  }

  /** What a model means. */
  ghost function Meaning(v: Json, path: Path): Option<Sight> {
    Seen(v, path, Exact)
  }

  // ---------------------------------------------------------------- what a hash input shows

  /** A value of the hash input: no number but integers and bit patterns. */
  ghost predicate Hashed(h: Json) {
    match h
    case Array(items) => forall i :: 0 <= i < |items| ==> Hashed(items[i])
    case Object(fields) => UniqueKeys(fields) && forall i :: 0 <= i < |fields| ==> Hashed(fields[i].value)
    case Number(_) => false
    case Real(_) => false
    case Literal(_) => false
    case _ => true
  }

  ghost function Face(h: Json): Option<Sight> {
    match h
    case Null => Some(Nothing)
    case Bool(b) => Some(Truth(b))
    case Int(n) => Some(Whole(n))
    case Text(s) => Some(Word(s))
    case Pattern(y) => Some(Rounded(y))
    case Array(items) => Some(Items(|items|))
    case Object(fields) => Some(Members(Keys(fields)))
    case _ => None
  }

  ghost function Shown(h: Json, path: Path): Option<Sight> {
    if At(h, path).Some? then Face(At(h, path).value) else None
  }

  lemma ShownNext(h: Json, path: Path)
    requires path != []
    ensures Shown(h, path) == if Part(h, path[0]).Some? then Shown(Part(h, path[0]).value, path[1..]) else None
  {
  }

  // ---------------------------------------------------------------- integers at their exact value

  /** Two dictionaries with the same keys have a key at the same place. */
  lemma Paired(a: seq<Field>, b: seq<Field>, key: string) returns (i: nat)
    requires |a| == |b| && UniqueKeys(a) && forall j :: 0 <= j < |a| ==> a[j].key == b[j].key
    ensures Keys(a) == Keys(b) && (Get(a, key).Some? <==> Get(b, key).Some?)
    ensures Get(a, key).Some? ==>
              i < |a| && a[i].key == key && Get(a, key) == Some(a[i].value) && Get(b, key) == Some(b[i].value)
  {
    hide Get;
    GetMissing(a, b, key);
    i := 0;
    if Get(a, key).Some? {
      i := GetIndex(a, key);
      GetAt(b, i);
    }
  }

  /** Setting the value of a dictionary changes that member alone. */
  lemma PutShows(fields: seq<Field>, x: Json, key: string)
    requires UniqueKeys(fields) && Get(fields, "value").Some?
    ensures var r := Put(fields, "value", x);
            && Get(r, key) == (if key == "value" then Some(x) else Get(fields, key))
            && CType(r) == CType(fields) && Keys(r) == Keys(fields)
  {
    hide Get;
    GetPut(fields, x);
    if key != "value" {
      GetSame(Put(fields, "value", x), fields, key);
    }
  }

  // ---------------------------------------------------------------- integers at their exact value

  /** Making integers exact leaves a model in which the same is seen. */
  lemma {:induction false} ExactShows(v: Json, path: Path)
    requires Admissible(v) && ExactNumbers(v).Ok?
    ensures Seen(ExactNumbers(v).value, path, Floating) == Seen(v, path, Exact)
    decreases |path|, 1
  {
    hide Get, ExactFields, ExactItems;
    match v
    case Array(items) =>
      if path != [] && Part(v, path[0]).Some? {
        ExactShows(Part(v, path[0]).value, path[1..]);
      }
    case Object(fields) => ExactDictionary(fields, path);
    case _ =>
  }

  /** What is seen in a dictionary, below its keys. */
  lemma SeenMember(fields: seq<Field>, path: Path, how: Reading)
    requires path != []
    ensures Seen(Object(fields), [], how) == Some(Members(Keys(fields)))
    ensures Seen(Object(fields), path, how) ==
            if !path[0].Key? || Get(fields, path[0].key).None? then None
            else
              var part, key := Get(fields, path[0].key).value, path[0].key;
              if how == Kept || !TypedEntry(fields) then Seen(part, path[1..], how)
              else if FloatType(CType(fields).value) then
                if key == "value" then OnlyHere(path[1..], RoundedSight(FormatNamed(CType(fields).value), part))
                else Seen(part, path[1..], Kept)
              else if how == Exact && IntegerType(CType(fields).value) && key == "value" then
                OnlyHere(path[1..], WholeSight(part))
              else Seen(part, path[1..], Floating)
  {
    hide Get, Round, ExactValue;
  }

  lemma {:induction false} ExactDictionary(fields: seq<Field>, path: Path)
    requires Admissible(Object(fields)) && ExactNumbers(Object(fields)).Ok?
    ensures Seen(ExactNumbers(Object(fields)).value, path, Floating) == Seen(Object(fields), path, Exact)
    decreases |path|, 0
  {
    hide Get, Seen;
    var e := ExactDictionaryIs(fields);
    var p := if path == [] then [Index(0)] else path;
    SeenMember(fields, p, Exact);
    SeenMember(e, p, Floating);
    var key := if p[0].Key? then p[0].key else "";
    if TypedEntry(fields) && IntegerType(CType(fields).value) {
      var x := WholeSight(Get(fields, "value").value);
      PutShows(fields, Int(x.n), key);
      PutShows(fields, Int(x.n), "value");
      assert Seen(Int(x.n), p[1..], Floating) == OnlyHere(p[1..], x) by { IntSeen(x.n, p[1..], Floating); }
    } else if !TypedEntry(fields) {
      var i := Paired(fields, e, key);
      if path != [] && path[0].Key? && Get(fields, key).Some? {
        ExactShows(fields[i].value, path[1..]);
      }
    }
  }

  lemma IntSeen(n: int, path: Path, how: Reading)
    ensures Seen(Int(n), path, how) == OnlyHere(path, Whole(n))
  {
  }

  /** The three kinds of dictionaries, with their integers made exact. */
  lemma ExactDictionaryIs(fields: seq<Field>) returns (e: seq<Field>)
    requires Admissible(Object(fields)) && ExactNumbers(Object(fields)).Ok?
    ensures ExactNumbers(Object(fields)) == Ok(Object(e)) && |e| == |fields|
    ensures if !TypedEntry(fields) then
              && !TypedEntry(e)
              && forall i :: 0 <= i < |fields| ==>
                   e[i].key == fields[i].key && Admissible(fields[i].value)
                   && ExactNumbers(fields[i].value) == Ok(e[i].value)
            else if IntegerType(CType(fields).value) then
              && WholeSight(Get(fields, "value").value).Whole?
              && e == Put(fields, "value", Int(WholeSight(Get(fields, "value").value).n))
            else e == fields
  {
    hide Get, ExactFields, IntegerValue, Put;
    e := ExactNumbers(Object(fields)).value.fields;
    TypedByText(fields);
    if TypedEntry(fields) {
      WholeIs(Get(fields, "value").value);
    } else {
      GetMissing(e, fields, "value");
      GetSame(e, fields, "cType");
    }
  }

  lemma WholeIs(v: Json)
    ensures WholeSight(v) == if IntegerValue(v).Ok? then Whole(IntegerValue(v).value) else Fault
  {
  }

  /** In an admissible dictionary a C type is a string. */
  lemma TypedByText(fields: seq<Field>)
    requires Admissible(Object(fields))
    ensures Get(fields, "cType").Some? ==> Get(fields, "cType").value.Text?
    ensures TypedEntry(fields) <==> Get(fields, "cType").Some? && Get(fields, "value").Some?
    ensures FloatEntry(fields) <==> TypedEntry(fields) && FloatType(CType(fields).value)
  {
    hide Get;
    if Get(fields, "cType").Some? {
      var i := GetIndex(fields, "cType");
    }
  }

  // ---------------------------------------------------------------- the hash input

  /** Where no floating number is, everything is shown as it is. */
  lemma {:induction false} KeptShows(v: Json, path: Path)
    requires FloatFree(v)
    ensures Shown(v, path) == Seen(v, path, Kept)
    decreases |path|
  {
    hide Get;
    if path == [] || !(v.Array? || v.Object?) {
      PlainSeen(v, path, Kept);
    } else {
      ShownNext(v, path);
      if v.Object? {
        SeenMember(v.fields, path, Kept);
      }
      if Part(v, path[0]).Some? {
        PartFree(v, path[0]);
        KeptShows(Part(v, path[0]).value, path[1..]);
      }
    }
  }

  lemma PartFree(v: Json, step: Step)
    requires Part(v, step).Some?
    ensures FloatFree(v) ==> FloatFree(Part(v, step).value)
    ensures Hashed(v) ==> Hashed(Part(v, step).value)
  {
    if v.Object? && (FloatFree(v) || Hashed(v)) {
      var i := GetIndex(v.fields, step.key);
    }
  }

  /** Values without parts, and the shape of those with parts. */
  lemma PlainSeen(v: Json, path: Path, how: Reading)
    requires !v.Number? && !v.Real? && !v.Literal? && !v.Pattern?
    requires path == [] || !(v.Array? || v.Object?)
    ensures Shown(v, path) == Seen(v, path, how)
  {
  }

  /** A floating number outside an entry is shown as a dictionary of a double. */
  lemma DecimalShows(v: Json, path: Path)
    requires (v.Number? || v.Real?) && Floats(v, true).Ok?
    ensures Shown(Floats(v, true).value, path) == Seen(v, path, Floating) && Hashed(Floats(v, true).value)
  {
    var y := IeeeOf(DOUBLE, v).value;
    assert Floats(v, true) == Ok(Object(Entry("double", Pattern(y))));
    assert RoundedSight(DOUBLE, v) == Rounded(y);
    DoubleShown(y, path);
    hide Round, ExactValue, Get, Shown, Hashed, Entry, Floats;
  }

  /** What a dictionary of a double shows. */
  lemma DoubleShown(y: real, path: Path)
    ensures Hashed(Object(Entry("double", Pattern(y))))
    ensures Shown(Object(Entry("double", Pattern(y))), path) ==
            if path == [] then Some(Members(["cType", "value"]))
            else if path == [Key("cType")] then Some(Word("double"))
            else if path == [Key("value")] then Some(Rounded(y))
            else None
  {
    var fields := Entry("double", Pattern(y));
    EntryMembers("double", Pattern(y));
    assert Keys(fields) == ["cType", "value"];
    hide Get, Hashed;
    assert Hashed(Object(fields)) by { DoubleHashed(y); }
    if path != [] {
      ShownNext(Object(fields), path);
      assert path == [path[0]] + path[1..];
      var part := Part(Object(fields), path[0]);
      if part.Some? {
        var i := GetIndex(fields, path[0].key);
        LeafShown(part.value, path[1..]);
      }
    }
  }

  lemma DoubleHashed(y: real)
    ensures Hashed(Object(Entry("double", Pattern(y))))
  {
    EntryMembers("double", Pattern(y));
  }

  lemma LeafShown(h: Json, path: Path)
    requires h.Text? || h.Pattern? || h.Int?
    ensures Shown(h, path) == if path == [] then Face(h) else None
  {
  }

  /** Bit patterns show the rounded values, and everything else is shown as it is. */
  lemma {:induction false} FloatsShow(v: Json, path: Path)
    requires Admissible(v) && Floats(v, true).Ok?
    ensures Shown(Floats(v, true).value, path) == Seen(v, path, Floating)
    decreases |path|, 1
  {
    hide Get, FloatsItems, FloatsFields, Floats;
    match v
    case Array(items) =>
      FloatsArray(items);
      if path != [] {
        ShownNext(Floats(v, true).value, path);
        if Part(v, path[0]).Some? {
          FloatsShow(items[path[0].i], path[1..]);
        }
      }
    case Object(fields) => FloatsDictionary(fields, path);
    case Number(_) => DecimalShows(v, path);
    case Real(_) => DecimalShows(v, path);
    case _ =>
      FloatsLeaf(v);
      PlainSeen(v, path, Floating);
  }

  lemma FloatsLeaf(v: Json)
    requires v.Null? || v.Bool? || v.Int? || v.Text?
    ensures Floats(v, true) == Ok(v)
  {
  }

  lemma FloatsArray(items: seq<Json>)
    requires Floats(Array(items), true).Ok?
    ensures FloatsItems(items, true).Ok? && Floats(Array(items), true) == Ok(Array(FloatsItems(items, true).value))
  {
    hide FloatsItems;
  }

  lemma {:induction false} FloatsDictionary(fields: seq<Field>, path: Path)
    requires Admissible(Object(fields)) && Floats(Object(fields), true).Ok?
    ensures Shown(Floats(Object(fields), true).value, path) == Seen(Object(fields), path, Floating)
    decreases |path|, 0
  {
    hide Get, Seen, Floats, Shown, Admissible, FloatFree, RoundedSight, FormatNamed;
    var h := FloatsDictionaryIs(fields);
    if path == [] {
      KeysShown(fields, h);
    } else {
      SeenMember(fields, path, Floating);
      ShownNext(Object(h), path);
      if path[0].Key? {
        if TypedEntry(fields) && FloatType(CType(fields).value) {
          var key := path[0].key;
          if Get(fields, key).Some? && key != "value" {
            OtherFree(fields, key);
          }
          FloatMember(fields, RoundedSight(FormatNamed(CType(fields).value), Get(fields, "value").value), path);
        } else {
          var i := Paired(fields, h, path[0].key);
          if Get(fields, path[0].key).Some? {
            FloatsShow(fields[i].value, path[1..]);
          }
        }
      }
    }
  }

  lemma KeysShown(fields: seq<Field>, h: seq<Field>)
    requires |h| == |fields| && forall i :: 0 <= i < |fields| ==> h[i].key == fields[i].key
    ensures Shown(Object(h), []) == Seen(Object(fields), [], Floating)
  {
    assert Keys(h) == Keys(fields);
  }

  lemma OtherFree(fields: seq<Field>, key: string)
    requires UniqueKeys(fields) && Get(fields, key).Some? && key != "value"
    requires forall i :: 0 <= i < |fields| && fields[i].key != "value" ==> FloatFree(fields[i].value)
    ensures FloatFree(Get(fields, key).value)
  {
    hide Get, FloatFree;
    var i := GetIndex(fields, key);
  }

  /** A member of a float entry: its rounded value, or what is kept beside it. */
  lemma FloatMember(fields: seq<Field>, s: Sight, path: Path)
    requires UniqueKeys(fields) && Get(fields, "value").Some? && path != [] && path[0].Key? && s.Rounded?
    requires path[0].key != "value" && Get(fields, path[0].key).Some? ==> FloatFree(Get(fields, path[0].key).value)
    ensures Shown(Object(Put(fields, "value", Pattern(s.y))), path) ==
            if Get(fields, path[0].key).None? then None
            else if path[0].key == "value" then OnlyHere(path[1..], s)
            else Seen(Get(fields, path[0].key).value, path[1..], Kept)
  {
    hide Get, Seen, Shown, FloatFree, Put;
    var key := path[0].key;
    PutShows(fields, Pattern(s.y), key);
    ShownNext(Object(Put(fields, "value", Pattern(s.y))), path);
    LeafShown(Pattern(s.y), path[1..]);
    if Get(fields, key).Some? && key != "value" {
      KeptShows(Get(fields, key).value, path[1..]);
    }
  }

  /** The two kinds of dictionaries, with bit patterns for their floating values. */
  lemma FloatsDictionaryIs(fields: seq<Field>) returns (h: seq<Field>)
    requires Admissible(Object(fields)) && Floats(Object(fields), true).Ok?
    ensures Floats(Object(fields), true) == Ok(Object(h)) && |h| == |fields| && UniqueKeys(fields)
    ensures forall i :: 0 <= i < |fields| ==> h[i].key == fields[i].key
    ensures if TypedEntry(fields) && FloatType(CType(fields).value) then
              var s := RoundedSight(FormatNamed(CType(fields).value), Get(fields, "value").value);
              && s.Rounded? && h == Put(fields, "value", Pattern(s.y))
              && forall i :: 0 <= i < |fields| && fields[i].key != "value" ==> FloatFree(fields[i].value)
            else
              forall i :: 0 <= i < |fields| ==>
                h[i].key == fields[i].key && Admissible(fields[i].value)
                && Floats(fields[i].value, true) == Ok(h[i].value)
  {
    hide Get, FloatsFields, Round, ExactValue, Put;
    TypedByText(fields);
    h := Floats(Object(fields), true).value.fields;
  }

  lemma {:induction false} FloatsHashed(v: Json)
    requires Admissible(v) && Floats(v, true).Ok?
    ensures Hashed(Floats(v, true).value)
    decreases v
  {
    hide Get, FloatsItems, FloatsFields, Floats, Put;
    match v
    case Array(items) =>
      FloatsArray(items);
      forall i | 0 <= i < |items| ensures Hashed(FloatsItems(items, true).value[i]) {
        FloatsHashed(items[i]);
      }
    case Object(fields) =>
      var h := FloatsDictionaryIs(fields);
      forall i | 0 <= i < |fields| ensures Hashed(h[i].value) {
        if TypedEntry(fields) && FloatType(CType(fields).value) {
          if fields[i].key != "value" {
            FreeHashed(fields[i].value);
          }
        } else {
          FloatsHashed(fields[i].value);
        }
      }
    case Number(_) => DecimalShows(v, []);
    case Real(_) => DecimalShows(v, []);
    case _ => FloatsLeaf(v);
  }

  lemma {:induction false} FreeHashed(v: Json)
    requires FloatFree(v)
    ensures Hashed(v)
  {
    match v
    case Array(items) =>
      forall i | 0 <= i < |items| ensures Hashed(items[i]) {
        FreeHashed(items[i]);
      }
    case Object(fields) =>
      forall i | 0 <= i < |fields| ensures Hashed(fields[i].value) {
        FreeHashed(fields[i].value);
      }
    case _ =>
  }

  /** The hash input shows at every path what the model means there, and nothing else. */
  lemma HashShows(v: Json, path: Path)
    requires Admissible(v) && HashInput(v).Ok?
    ensures Shown(HashInput(v).value, path) == Meaning(v, path)
    ensures Hashed(HashInput(v).value)
  {
    ExactStaysAdmissible(v);
    ExactShows(v, path);
    FloatsShow(ExactNumbers(v).value, path);
    FloatsHashed(ExactNumbers(v).value);
  }

  /** Hash inputs that show the same at every path are the same. */
  lemma {:induction false} ShownDecides(a: Json, b: Json)
    requires Hashed(a) && Hashed(b) && forall path :: Shown(a, path) == Shown(b, path)
    ensures a == b
    decreases a
  {
    assert Shown(a, []) == Shown(b, []) && At(a, []) == Some(a) && At(b, []) == Some(b);
    match a
    case Array(items) =>
      forall i | 0 <= i < |items| ensures items[i] == b.items[i] {
        PartsShow(a, b, Index(i));
        ShownDecides(items[i], b.items[i]);
      }
    case Object(fields) =>
      assert Keys(fields) == Keys(b.fields) && |Keys(fields)| == |fields| && |Keys(b.fields)| == |b.fields|;
      forall i | 0 <= i < |fields| ensures fields[i] == b.fields[i] {
        assert fields[i].key == Keys(fields)[i] == Keys(b.fields)[i] == b.fields[i].key;
        GetAt(fields, i);
        GetAt(b.fields, i);
        PartsShow(a, b, Key(fields[i].key));
        ShownDecides(fields[i].value, b.fields[i].value);
      }
    case _ =>
  }

  lemma PartsShow(a: Json, b: Json, step: Step)
    requires Part(a, step).Some? && Part(b, step).Some? && forall path :: Shown(a, path) == Shown(b, path)
    ensures forall path :: Shown(Part(a, step).value, path) == Shown(Part(b, step).value, path)
  {
    hide Part, Shown;
    forall path ensures Shown(Part(a, step).value, path) == Shown(Part(b, step).value, path) {
      var p := [step] + path;
      assert p[0] == step && p[1..] == path;
      ShownNext(a, p);
      ShownNext(b, p);
      assert Shown(a, p) == Shown(b, p);
    }
  }

  /**
   Two models have one hash input exactly when they mean the same at every path: the same shape and
   texts, the same exact integers, the same rounded values.
   */
  lemma HashesAgreeExactly(a: Json, b: Json)
    requires Admissible(a) && Admissible(b) && HashInput(a).Ok? && HashInput(b).Ok?
    ensures HashInput(a) == HashInput(b) <==> forall path :: Meaning(a, path) == Meaning(b, path)
  {
    hide HashInput, Admissible, Meaning, Shown, Hashed;
    var ha, hb := HashInput(a).value, HashInput(b).value;
    forall path ensures Shown(ha, path) == Meaning(a, path) && Shown(hb, path) == Meaning(b, path) {
      HashShows(a, path);
      HashShows(b, path);
    }
    HashShows(a, []);
    HashShows(b, []);
    if forall path :: Meaning(a, path) == Meaning(b, path) {
      forall path ensures Shown(ha, path) == Shown(hb, path) {
        assert Meaning(a, path) == Meaning(b, path);
      }
      ShownDecides(ha, hb);
    }
  }

  // ---------------------------------------------------------------- the file

  /** A model read back from its file is one the resolver could have built. */
  lemma {:induction false} RereadAdmissible(e: Json)
    requires Admissible(e) && Floats(e, false).Ok?
    ensures Admissible(Reread(Floats(e, false).value))
    decreases e
  {
    hide Get, FloatsItems, FloatsFields, RereadItems, RereadFields, Put;
    match e
    case Array(items) =>
      var w := FloatsItems(items, false).value;
      forall i | 0 <= i < |items| ensures Admissible(RereadItems(w)[i]) {
        RereadAdmissible(items[i]);
      }
    case Object(fields) => RereadDictionary(fields);
    case Number(_) => RereadDecimal(e);
    case Real(_) => RereadDecimal(e);
    case _ =>
  }

  lemma RereadDecimal(e: Json)
    requires (e.Number? || e.Real?) && Floats(e, false).Ok?
    ensures Admissible(Reread(Floats(e, false).value))
  {
    var n := DecimalDigits(e);
    hide Floats, Entry, RereadFields, Admissible;
    EntryReread("double", n);
    RereadObject(Entry("double", Literal(n)));
    DoubleAdmissible(n);
  }

  lemma DecimalDigits(e: Json) returns (n: Numeral)
    requires (e.Number? || e.Real?) && Floats(e, false).Ok?
    ensures Writable(Literal(n)) && Floats(e, false) == Ok(Object(Entry("double", Literal(n))))
  {
    hide Scientific, IeeeOf, Entry, Loadable;
    n := Scientific(17, IeeeOf(DOUBLE, e).value);
    LiteralReads("double", e);
  }

  lemma DoubleAdmissible(n: Numeral)
    ensures Admissible(Object(Entry("double", Number(n))))
  {
    var fields := Entry("double", Number(n));
    EntryMembers("double", Number(n));
    hide Get;
    assert fields[0] == Field("cType", Text("double")) && fields[1] == Field("value", Number(n));
    assert FloatFree(fields[0].value);
  }

  lemma {:induction false} RereadDictionary(fields: seq<Field>)
    requires Admissible(Object(fields)) && Floats(Object(fields), false).Ok?
    ensures Admissible(Reread(Floats(Object(fields), false).value))
    decreases fields
  {
    hide Get, Floats, FloatsItems, FloatsFields, Put, RereadFields, Round, Scientific, ExactValue;
    TypedByText(fields);
    if FloatEntry(fields) {
      var n := EntryDigits(fields);
      RereadEntry(fields, n);
      GetPut(fields, Number(n));
      var r := Put(fields, "value", Number(n));
      RereadObject(Put(fields, "value", Literal(n)));
      assert FloatEntry(r) && UniqueKeys(r);
      assert forall i :: 0 <= i < |r| && fields[i].key != "value" ==> r[i] == fields[i];
      assert Admissible(Object(r));
    } else {
      var w := FloatsEach(fields);
      var r := RereadFields(w);
      RereadObject(w);
      forall i | 0 <= i < |r|
        ensures r[i].key == fields[i].key && Admissible(r[i].value)
        ensures fields[i].key == "cType" ==> r[i].value == fields[i].value
      {
        RereadAdmissible(fields[i].value);
        if fields[i].key == "cType" {
          TextStays(fields[i].value, w[i].value);
        }
      }
      PlainDictionary(fields, r);
      assert Admissible(Object(r));
    }
  }

  lemma TextStays(v: Json, w: Json)
    requires v.Text? && Floats(v, false) == Ok(w)
    ensures Reread(w) == v
  {
  }

  lemma FloatsEach(fields: seq<Field>) returns (w: seq<Field>)
    requires !FloatEntry(fields) && Floats(Object(fields), false).Ok?
    ensures Floats(Object(fields), false) == Ok(Object(w)) && |w| == |fields|
    ensures forall i :: 0 <= i < |fields| ==>
              w[i].key == fields[i].key && Floats(fields[i].value, false) == Ok(w[i].value)
  {
    hide Get, FloatsFields;
    w := FloatsFields(fields, false).value;
  }

  /** The digits written for a float entry. */
  lemma EntryDigits(fields: seq<Field>) returns (n: Numeral)
    requires FloatEntry(fields) && Floats(Object(fields), false).Ok?
    ensures Writable(Literal(n))
    ensures Floats(Object(fields), false) == Ok(Object(Put(fields, "value", Literal(n))))
  {
    hide Get, FloatsFields, Scientific, IeeeOf, Put;
    var cType, v := CType(fields).value, Get(fields, "value").value;
    n := Scientific(FormatOf(cType).value.1, IeeeOf(FormatOf(cType).value.0, v).value);
    LiteralReads(cType, v);
  }

  /** Read back from its file, a model means the same at every path. */
  lemma FileKeepsMeaning(v: Json, path: Path)
    requires Admissible(v) && HashInput(v).Ok?
    ensures Dump(v).Ok? && Load(Dump(v).value).Some?
    ensures Meaning(Load(Dump(v).value).value, path) == Meaning(v, path)
    ensures Meaning(v, path).Some? && Meaning(v, path).value.Whole? ==>
              At(Load(Dump(v).value).value, path) == Some(Int(Meaning(v, path).value.n))
  {
    var r := FileReads(v);
    DigestSurvives(v);
    hide Load, Dump, Admissible, Seen, ExactNumbers, Floats;
    HashShows(v, path);
    HashShows(r, path);
    ExactShows(r, path);
    if Meaning(v, path).Some? && Meaning(v, path).value.Whole? {
      WholeSpelled(r, path, Meaning(v, path).value.n);
    }
  }

  /** The model read back: admissible, and its integers are exact. */
  lemma FileReads(v: Json) returns (r: Json)
    requires Admissible(v) && HashInput(v).Ok?
    ensures Dump(v).Ok? && Load(Dump(v).value) == Some(r) && Admissible(r) && ExactNumbers(r) == Ok(r)
  {
    var e := ExactNumbers(v).value;
    ExactStaysAdmissible(v);
    ValueSurvives(e);
    var w :| Survives(e, Floats(e, true).value, w);
    ReloadedIsExact(v);
    RereadAdmissible(e);
    hide ExactNumbers, Floats, Admissible, Load, Write, Reread;
    WrittenLoads(w);
    r := Reread(w);
  }

  /** Where no exactness is needed to see an integer, it is spelled as one. */
  lemma {:induction false} WholeSpelled(v: Json, path: Path, n: int)
    requires Seen(v, path, Floating) == Some(Whole(n)) || Seen(v, path, Kept) == Some(Whole(n))
    ensures At(v, path) == Some(Int(n))
    decreases |path|
  {
    hide Get, Round, ExactValue;
    if path != [] && (v.Array? || v.Object?) {
      if v.Object? {
        SeenMember(v.fields, path, Floating);
        SeenMember(v.fields, path, Kept);
      }
      WholeSpelled(Part(v, path[0]).value, path[1..], n);
    }
  }

  // ---------------------------------------------------------------- what is rejected

  lemma PartSeen(v: Json, step: Step, path: Path, how: Reading)
    requires v.Array? && Part(v, step).Some?
    ensures Seen(v, [step] + path, how) == Seen(Part(v, step).value, path, how)
  {
    assert ([step] + path)[1..] == path;
  }

  /** A model whose integers cannot be made exact has a fault somewhere. */
  lemma {:induction false} ExactFault(v: Json) returns (path: Path)
    requires Admissible(v) && ExactNumbers(v).Err?
    ensures Seen(v, path, Exact) == Some(Fault)
    decreases v
  {
    hide Get, ExactItems, ExactFields, Seen, IntegerValue;
    path := [];
    match v
    case Array(items) =>
      var i :| 0 <= i < |items| && ExactNumbers(items[i]).Err?;
      var rest := ExactFault(items[i]);
      PartSeen(v, Index(i), rest, Exact);
      path := [Index(i)] + rest;
    case Object(fields) =>
      TypedByText(fields);
      if TypedEntry(fields) {
        path := [Key("value")];
        SeenMember(fields, path, Exact);
        WholeIs(Get(fields, "value").value);
      } else {
        var i :| 0 <= i < |fields| && ExactNumbers(fields[i].value).Err?;
        var rest := ExactFault(fields[i].value);
        GetAt(fields, i);
        path := [Key(fields[i].key)] + rest;
        assert path[1..] == rest;
        SeenMember(fields, path, Exact);
      }
    case _ =>
  }

  /** A model whose floating values cannot be rounded has a fault somewhere. */
  lemma {:induction false} FloatsFault(v: Json) returns (path: Path)
    requires Admissible(v) && Floats(v, true).Err?
    ensures Seen(v, path, Floating) == Some(Fault)
    decreases v
  {
    hide Get, FloatsItems, FloatsFields, Seen, Round, ExactValue;
    path := [];
    match v
    case Array(items) =>
      var i :| 0 <= i < |items| && Floats(items[i], true).Err?;
      var rest := FloatsFault(items[i]);
      PartSeen(v, Index(i), rest, Floating);
      path := [Index(i)] + rest;
    case Object(fields) =>
      TypedByText(fields);
      if FloatEntry(fields) {
        path := [Key("value")];
        SeenMember(fields, path, Floating);
      } else {
        var i :| 0 <= i < |fields| && Floats(fields[i].value, true).Err?;
        var rest := FloatsFault(fields[i].value);
        GetAt(fields, i);
        path := [Key(fields[i].key)] + rest;
        assert path[1..] == rest;
        SeenMember(fields, path, Floating);
      }
    case Number(_) => DecimalFault(v);
    case Real(_) => DecimalFault(v);
    case _ =>
  }

  lemma DecimalFault(v: Json)
    requires (v.Number? || v.Real?) && Floats(v, true).Err?
    ensures Seen(v, [], Floating) == Some(Fault)
  {
  }

  /** A model is hashed and written exactly when its types can hold its numbers. */
  lemma AcceptsExactly(v: Json)
    requires Admissible(v)
    ensures HashInput(v).Ok? <==> forall path :: Meaning(v, path) != Some(Fault)
    ensures HashInput(v).Ok? ==> Dump(v).Ok?
  {
    hide ExactNumbers, Floats, Admissible, Seen, Dump, Shown;
    if HashInput(v).Ok? {
      DigestSurvives(v);
      forall path ensures Meaning(v, path) != Some(Fault) {
        HashShows(v, path);
        NeverFault(HashInput(v).value, path);
      }
    } else if ExactNumbers(v).Err? {
      var path := ExactFault(v);
      assert Meaning(v, path) == Some(Fault);
    } else {
      ExactStaysAdmissible(v);
      var path := FloatsFault(ExactNumbers(v).value);
      ExactShows(v, path);
      assert Meaning(v, path) == Some(Fault);
    }
  }

  lemma NeverFault(h: Json, path: Path)
    ensures Shown(h, path) != Some(Fault)
  {
  }
}
