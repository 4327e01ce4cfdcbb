/**
 The resolved hardware model on its way to disk and back: exact integers, floating values as bit
 patterns in the hash input and as decimal digits in the file, and the digest check on reload.
 */
module HardwareOutput {
  import opened Outcomes
  import opened Ieee
  import opened Numerals
  import opened JsonText

  // ---------------------------------------------------------------- numbers of a model

  /** The exact number a JSON value stands for. */
  ghost function ExactValue(v: Json): Result<real, LiteralError> {
    match v
    case Int(n) => Ok(n as real)
    case Number(n) => if n.Valid() then Ok(n.Value()) else Err(NotANumber)
    case Real(x) => Ok(x)
    case _ => Err(NotANumber)
  }

  ghost function IntegerValue(v: Json): Result<int, LiteralError> {
    var x := ExactValue(v);
    if x.Err? then Err(x.error)
    else if x.value.Floor as real == x.value then Ok(x.value.Floor) else Err(NotAnInteger)
  }

  /** The floating formats by C type, with the digits their literals print. */
  function FormatOf(cType: string): Option<(Format, nat)> {
    if cType == "float" then Some((FLOAT, 9))
    else if cType == "double" then Some((DOUBLE, 17))
    else None
  }

  ghost function IeeeOf(f: Format, v: Json): Result<real, LiteralError> {
    var x := ExactValue(v);
    if x.Err? then Err(x.error) else Round(f, x.value)
  }

  // ---------------------------------------------------------------- members of a dictionary

  function Get(fields: seq<Field>, key: string): (r: Option<Json>)
    ensures r.Some? <==> exists i :: 0 <= i < |fields| && fields[i].key == key
  {
    if fields == [] then None
    else if fields[0].key == key then Some(fields[0].value)
    else
      assert forall i :: 0 <= i < |fields[1..]| ==> fields[1..][i] == fields[i + 1];
      Get(fields[1..], key)
  }

  function Put(fields: seq<Field>, key: string, value: Json): (r: seq<Field>)
    ensures |r| == |fields|
    ensures forall i :: 0 <= i < |r| ==>
              r[i] == if fields[i].key == key then Field(key, value) else fields[i]
  {
    if fields == [] then []
    else [if fields[0].key == key then Field(key, value) else fields[0]] + Put(fields[1..], key, value)
  }

  /** The C type name of a dictionary, if it has one. */
  function CType(fields: seq<Field>): Option<string> {
    match Get(fields, "cType")
    case Some(Text(s)) => Some(s)
    case _ => None
  }

  /** A dictionary that stands for a float or double value. */
  predicate FloatEntry(fields: seq<Field>) {
    && CType(fields).Some? && FormatOf(CType(fields).value).Some?
    && Get(fields, "value").Some?
  }

  // ---------------------------------------------------------------- the transformations

  /** Integers at their exact value, whatever their spelling; float entries keep their token. */
  ghost function ExactNumbers(v: Json): Result<Json, LiteralError>
    decreases v, 1
  {
    match v
    case Object(fields) =>
      if Get(fields, "cType").Some? && Get(fields, "value").Some? then
        var c := Get(fields, "cType").value;
        if c.Array? || c.Object? then Err(Unhashable)
        else if c.Text? && (FormatOf(c.s).Some? || c.s in ["bool", "string"]) then Ok(v)
        else
          var n := IntegerValue(Get(fields, "value").value);
          if n.Err? then Err(n.error) else Ok(Object(Put(fields, "value", Int(n.value))))
      else
        var r := ExactFields(fields);
        if r.Err? then Err(r.error) else Ok(Object(r.value))
    case Array(items) =>
      var r := ExactItems(items);
      if r.Err? then Err(r.error) else Ok(Array(r.value))
    case Number(_) => if IntegerValue(v).Ok? then Ok(Int(IntegerValue(v).value)) else Ok(v)
    case Real(_) => if IntegerValue(v).Ok? then Ok(Int(IntegerValue(v).value)) else Ok(v)
    case _ => Ok(v)
  }

  ghost function ExactItems(items: seq<Json>): (r: Result<seq<Json>, LiteralError>)
    ensures r.Ok? <==> forall i :: 0 <= i < |items| ==> ExactNumbers(items[i]).Ok?
    ensures r.Ok? ==> |r.value| == |items|
    ensures r.Ok? ==> forall i :: 0 <= i < |items| ==> ExactNumbers(items[i]) == Ok(r.value[i])
    decreases items, 0
  {
    if items == [] then Ok([])
    else
      assert forall i :: 0 < i < |items| ==> items[i] == items[1..][i - 1];
      var a, r := ExactNumbers(items[0]), ExactItems(items[1..]);
      assert forall i :: 0 <= i < |items[1..]| ==> items[1..][i] == items[i + 1];
      if a.Err? then Err(a.error) else if r.Err? then r else Ok([a.value] + r.value)
  }

  ghost function ExactFields(fields: seq<Field>): (r: Result<seq<Field>, LiteralError>)
    ensures r.Ok? <==> forall i :: 0 <= i < |fields| ==> ExactNumbers(fields[i].value).Ok?
    ensures r.Ok? ==> |r.value| == |fields|
    ensures r.Ok? ==> forall i :: 0 <= i < |fields| ==>
              r.value[i].key == fields[i].key && ExactNumbers(fields[i].value) == Ok(r.value[i].value)
    decreases fields, 0
  {
    if fields == [] then Ok([])
    else
      assert forall i :: 0 < i < |fields| ==> fields[i] == fields[1..][i - 1];
      var a, r := ExactNumbers(fields[0].value), ExactFields(fields[1..]);
      assert forall i :: 0 <= i < |fields[1..]| ==> fields[1..][i] == fields[i + 1];
      if a.Err? then Err(a.error) else if r.Err? then r
      else Ok([Field(fields[0].key, a.value)] + r.value)
  }

  /** One floating value: its bit pattern for the hash, its digits for the file. */
  ghost function FloatValue(f: (Format, nat), v: Json, hash: bool): Result<Json, LiteralError>
    requires f.1 > 0
  {
    var y := IeeeOf(f.0, v);
    if y.Err? then Err(y.error)
    else Ok(if hash then Pattern(y.value) else Literal(Scientific(f.1, y.value)))
  }

  ghost function Floats(v: Json, hash: bool): Result<Json, LiteralError>
    decreases v, 1
  {
    match v
    case Object(fields) =>
      var c := Get(fields, "cType");
      if c.Some? && (c.value.Array? || c.value.Object?) then Err(Unhashable)
      else if FloatEntry(fields) then
        var y := FloatValue(FormatOf(CType(fields).value).value, Get(fields, "value").value, hash);
        if y.Err? then Err(y.error) else Ok(Object(Put(fields, "value", y.value)))
      else
        var r := FloatsFields(fields, hash);
        if r.Err? then Err(r.error) else Ok(Object(r.value))
    case Array(items) =>
      var r := FloatsItems(items, hash);
      if r.Err? then Err(r.error) else Ok(Array(r.value))
    case Number(_) => BareFloat(v, hash)
    case Real(_) => BareFloat(v, hash)
    case _ => Ok(v)
  }

  /** A floating number outside an entry becomes a double entry of its own. */
  ghost function BareFloat(v: Json, hash: bool): Result<Json, LiteralError> {
    var y := FloatValue((DOUBLE, 17), v, hash);
    if y.Err? then Err(y.error)
    else Ok(Object(Entry("double", y.value)))
  }

  function Entry(cType: string, value: Json): seq<Field> {
    [Field("cType", Text(cType)), Field("value", value)]
  }

  ghost function FloatsItems(items: seq<Json>, hash: bool): (r: Result<seq<Json>, LiteralError>)
    ensures r.Ok? <==> forall i :: 0 <= i < |items| ==> Floats(items[i], hash).Ok?
    ensures r.Ok? ==> |r.value| == |items|
    ensures r.Ok? ==> forall i :: 0 <= i < |items| ==> Floats(items[i], hash) == Ok(r.value[i])
    decreases items, 0
  {
    if items == [] then Ok([])
    else
      assert forall i :: 0 < i < |items| ==> items[i] == items[1..][i - 1];
      var a, r := Floats(items[0], hash), FloatsItems(items[1..], hash);
      assert forall i :: 0 <= i < |items[1..]| ==> items[1..][i] == items[i + 1];
      if a.Err? then Err(a.error) else if r.Err? then r else Ok([a.value] + r.value)
  }

  ghost function FloatsFields(fields: seq<Field>, hash: bool): (r: Result<seq<Field>, LiteralError>)
    ensures r.Ok? <==> forall i :: 0 <= i < |fields| ==> Floats(fields[i].value, hash).Ok?
    ensures r.Ok? ==> |r.value| == |fields|
    ensures r.Ok? ==> forall i :: 0 <= i < |fields| ==>
              r.value[i].key == fields[i].key && Floats(fields[i].value, hash) == Ok(r.value[i].value)
    decreases fields, 0
  {
    if fields == [] then Ok([])
    else
      assert forall i :: 0 < i < |fields| ==> fields[i] == fields[1..][i - 1];
      var a, r := Floats(fields[0].value, hash), FloatsFields(fields[1..], hash);
      assert forall i :: 0 <= i < |fields[1..]| ==> fields[1..][i] == fields[i + 1];
      if a.Err? then Err(a.error) else if r.Err? then r
      else Ok([Field(fields[0].key, a.value)] + r.value)
  }

  /** What the digest is taken of. */
  ghost function HashInput(v: Json): Result<Json, LiteralError> {
    var e := ExactNumbers(v);
    if e.Err? then e else Floats(e.value, true)
  }

  /** The text written to disk. */
  ghost function Dump(v: Json): Result<string, LiteralError> {
    var e := ExactNumbers(v);
    if e.Err? then Err(e.error)
    else
      var w := Floats(e.value, false);
      if w.Err? then Err(w.error) else Ok(Write(w.value, "") + "\n")
  }

  // ---------------------------------------------------------------- the digest check on reload

  /** The part of a document its digest covers. */
  function Covered(hardware: Json, selection: Json): Json {
    Object([Field("hardware", hardware), Field("selection", selection)])
  }

  /** The digest of a document, for any hash function of the hash input. */
  ghost function HardwareDigest(sha: Json -> string, doc: seq<Field>): Option<string> {
    var hardware, selection := Get(doc, "hardware"), Get(doc, "selection");
    if hardware.None? || selection.None? then None
    else
      var h := HashInput(Covered(hardware.value, selection.value));
      if h.Err? then None else Some(sha(h.value))
  }

  /** The stored digest is the one the document has. */
  ghost predicate DigestMatches(sha: Json -> string, doc: seq<Field>) {
    && HardwareDigest(sha, doc).Some?
    && Get(doc, "hardwareSha256") == Some(Text(HardwareDigest(sha, doc).value))
  }

  // ---------------------------------------------------------------- the spelling of a literal

  /** The C spelling of a rounded floating value. */
  function FloatLiteral(single: bool, y: real): string {
    Spelled(NumeralText(Scientific(if single then 9 else 17, y)), single, y < 0.0)
  }

  function Spelled(digits: string, single: bool, negative: bool): string {
    var text := if single then digits + "f" else digits;
    if negative then "(" + text + ")" else text
  }

  function StripLeft(s: string): string {
    if s != "" && s[0] in ['(', ')'] then StripLeft(s[1..]) else s
  }

  function StripRight(s: string, chars: seq<char>): string {
    if s != "" && s[|s| - 1] in chars then StripRight(s[..|s| - 1], chars) else s
  }

  /** The digits kept for the file: parentheses and the suffix are stripped. */
  function KeptDigits(literal: string): string {
    StripRight(StripRight(StripLeft(literal), ['(', ')']), ['f'])
  }
}
