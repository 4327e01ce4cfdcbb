/**
 Validation of hardware descriptions against their schemas: the subset of JSON Schema 2020-12 that
 the schemas use, with every error at its pointer.
 */
module SchemaCheck {
  import opened Outcomes
  import opened Instances
  import opened StringOrder
  import Numerals

  // ---------------------------------------------------------------- schemas

  datatype Kind = NullKind | BooleanKind | StringKind | ArrayKind | ObjectKind | NumberKind | IntegerKind

  /** A schema file, empty for the one the reference is in, and a place in it. */
  datatype Reference = Reference(file: string, fragment: string)

  datatype Schema =
    | Always
    | Never
    | Rules(ref: Option<Reference>, types: Option<seq<Kind>>, scalar: Scalars, list: Arrays, fields: Fields,
            parts: Parts)

  datatype Scalars = Scalars(
    constant: Option<Instance>, enumeration: Option<seq<Instance>>,
    minLength: Option<nat>, pattern: Option<string -> bool>, minimum: Option<real>, maximum: Option<real>)

  datatype Arrays = Arrays(minItems: Option<nat>, uniqueItems: bool, items: Option<Schema>)

  datatype Fields = Fields(
    required: seq<string>, properties: seq<Property>, extra: Option<Schema>, names: Option<Schema>,
    minProperties: Option<nat>, maxProperties: Option<nat>)

  datatype Property = Property(key: string, schema: Schema)

  datatype Choice = NoChoice | OneOf(options: seq<Schema>)

  datatype Parts = Parts(
    allOf: seq<Schema>, oneOf: Choice, forbidden: Option<Schema>,
    condition: Option<Schema>, consequence: Option<Schema>)

  type Place = (string, string)   // a schema file and a place in it

  /** The places references lead to, and a rank that falls along references to the same value. */
  datatype Library = Library(schemas: map<Place, Schema>, rank: map<Place, nat>)

  function Target(doc: string, r: Reference): Place {
    (if r.file == "" then doc else r.file, r.fragment)
  }

  /** Every reference leads somewhere, and constants have unique keys. */
  predicate Linked(lib: Library, doc: string, s: Schema) {
    s.Rules? ==>
      && (s.ref.Some? ==> Target(doc, s.ref.value) in lib.schemas && Target(doc, s.ref.value) in lib.rank)
      && (s.scalar.constant.Some? ==> WellFormed(s.scalar.constant.value))
      && (s.scalar.enumeration.Some? ==> forall i :: 0 <= i < |s.scalar.enumeration.value| ==>
            WellFormed(s.scalar.enumeration.value[i]))
      && (s.list.items.Some? ==> Linked(lib, doc, s.list.items.value))
      && (forall i :: 0 <= i < |s.fields.properties| ==> Linked(lib, doc, s.fields.properties[i].schema))
      && (s.fields.extra.Some? ==> Linked(lib, doc, s.fields.extra.value))
      && (s.fields.names.Some? ==> Linked(lib, doc, s.fields.names.value))
      && (forall i :: 0 <= i < |s.parts.allOf| ==> Linked(lib, doc, s.parts.allOf[i]))
      && (s.parts.oneOf.OneOf? ==> forall i :: 0 <= i < |s.parts.oneOf.options| ==>
            Linked(lib, doc, s.parts.oneOf.options[i]))
      && (s.parts.forbidden.Some? ==> Linked(lib, doc, s.parts.forbidden.value))
      && (s.parts.condition.Some? ==> Linked(lib, doc, s.parts.condition.value))
      && (s.parts.consequence.Some? ==> Linked(lib, doc, s.parts.consequence.value))
  }

  function Max(a: nat, b: nat): nat {
    if a < b then b else a
  }

  /** A bound above the ranks of the references a schema applies to the same value. */
  ghost function Level(lib: Library, doc: string, s: Schema): nat
    requires Linked(lib, doc, s)
    decreases s, 1, 0
  {
    if !s.Rules? then 0
    else
      var p := s.parts;
      var a := if s.ref.Some? then lib.rank[Target(doc, s.ref.value)] + 1 else 0;
      var b := Max(LevelOfAll(lib, doc, s, |p.allOf|),
                   if p.oneOf.OneOf? then LevelOfOne(lib, doc, s, |p.oneOf.options|) else 0);
      var c := Max(if p.condition.Some? then Level(lib, doc, p.condition.value) else 0,
                   if p.consequence.Some? then Level(lib, doc, p.consequence.value) else 0);
      Max(Max(a, b), Max(c, if p.forbidden.Some? then Level(lib, doc, p.forbidden.value) else 0))
  }

  ghost function LevelOfAll(lib: Library, doc: string, s: Schema, n: nat): nat
    requires s.Rules? && Linked(lib, doc, s) && n <= |s.parts.allOf|
    decreases s, 0, n
  {
    if n == 0 then 0 else Max(LevelOfAll(lib, doc, s, n - 1), Level(lib, doc, s.parts.allOf[n - 1]))
  }

  ghost function LevelOfOne(lib: Library, doc: string, s: Schema, n: nat): nat
    requires s.Rules? && Linked(lib, doc, s) && s.parts.oneOf.OneOf? && n <= |s.parts.oneOf.options|
    decreases s, 0, n
  {
    if n == 0 then 0 else Max(LevelOfOne(lib, doc, s, n - 1), Level(lib, doc, s.parts.oneOf.options[n - 1]))
  }

  lemma {:induction false} LevelOfAllAt(lib: Library, doc: string, s: Schema, n: nat, i: nat)
    requires s.Rules? && Linked(lib, doc, s) && i < n <= |s.parts.allOf|
    ensures Level(lib, doc, s.parts.allOf[i]) <= LevelOfAll(lib, doc, s, n)
  {
    hide Level, Linked;
    if i < n - 1 {
      LevelOfAllAt(lib, doc, s, n - 1, i);
    }
  }

  lemma {:induction false} LevelOfOneAt(lib: Library, doc: string, s: Schema, n: nat, i: nat)
    requires s.Rules? && Linked(lib, doc, s) && s.parts.oneOf.OneOf? && i < n <= |s.parts.oneOf.options|
    ensures Level(lib, doc, s.parts.oneOf.options[i]) <= LevelOfOne(lib, doc, s, n)
  {
    hide Level, Linked;
    if i < n - 1 {
      LevelOfOneAt(lib, doc, s, n - 1, i);
    }
  }

  /** A part of allOf has no higher level than the whole. */
  lemma AllOfLevel(lib: Library, doc: string, s: Schema, i: nat)
    requires s.Rules? && Linked(lib, doc, s) && i < |s.parts.allOf|
    ensures Level(lib, doc, s.parts.allOf[i]) <= Level(lib, doc, s)
  {
    LevelOfAllAt(lib, doc, s, |s.parts.allOf|, i);
    hide LevelOfAll, LevelOfOne, Linked;
  }

  lemma OneOfLevel(lib: Library, doc: string, s: Schema, i: nat)
    requires s.Rules? && Linked(lib, doc, s) && s.parts.oneOf.OneOf? && i < |s.parts.oneOf.options|
    ensures Level(lib, doc, s.parts.oneOf.options[i]) <= Level(lib, doc, s)
  {
    LevelOfOneAt(lib, doc, s, |s.parts.oneOf.options|, i);
    hide LevelOfAll, LevelOfOne, Linked;
  }

  /**
   Following references without descending into the value ends: the rank bounds every schema.
   References below properties and items may lead back, since the value gets smaller there.
   */
  ghost predicate Sound(lib: Library) {
    forall t :: t in lib.schemas ==>
      t in lib.rank && Linked(lib, t.0, lib.schemas[t]) && Level(lib, t.0, lib.schemas[t]) <= lib.rank[t]
  }

  // ---------------------------------------------------------------- heights of values

  ghost function Height(v: Instance): nat
    decreases v, 1, 0
  {
    if v.Array? then 1 + ItemsHeight(v, |v.items|)
    else if v.Object? then 1 + FieldsHeight(v, |v.fields|)
    else 0
  }

  ghost function ItemsHeight(v: Instance, n: nat): nat
    requires v.Array? && n <= |v.items|
    decreases v, 0, n
  {
    if n == 0 then 0 else Max(ItemsHeight(v, n - 1), Height(v.items[n - 1]))
  }

  ghost function FieldsHeight(v: Instance, n: nat): nat
    requires v.Object? && n <= |v.fields|
    decreases v, 0, n
  {
    if n == 0 then 0 else Max(FieldsHeight(v, n - 1), Height(v.fields[n - 1].value))
  }

  lemma {:induction false} ItemHeight(v: Instance, n: nat, i: nat)
    requires v.Array? && i < n <= |v.items|
    ensures Height(v.items[i]) <= ItemsHeight(v, n) && Height(v.items[i]) < 1 + ItemsHeight(v, n)
  {
    hide Height;
    if i < n - 1 {
      ItemHeight(v, n - 1, i);
    }
  }

  lemma {:induction false} FieldHeight(v: Instance, n: nat, i: nat)
    requires v.Object? && i < n <= |v.fields|
    ensures Height(v.fields[i].value) <= FieldsHeight(v, n)
  {
    hide Height;
    if i < n - 1 {
      FieldHeight(v, n - 1, i);
    }
  }

  /** An item is smaller than its array, a field than its object. */
  lemma ItemSmaller(v: Instance, i: nat)
    requires v.Array? && i < |v.items|
    ensures Height(v.items[i]) < Height(v)
  {
    ItemHeight(v, |v.items|, i);
  }

  lemma FieldSmaller(v: Instance, i: nat)
    requires v.Object? && i < |v.fields|
    ensures Height(v.fields[i].value) < Height(v) && Height(Text(v.fields[i].key)) < Height(v)
  {
    FieldHeight(v, |v.fields|, i);
  }

  // ---------------------------------------------------------------- errors

  /** A pointer as its tokens. */
  type Pointer = seq<string>

  datatype Message =
    | NotAllowed | TypeMismatch | NotConstant | NotListed | TooShort | NoMatch | TooLow | TooHigh
    | TooFewItems | DuplicateItem | Missing | UnknownField | FieldName(m: Message) | TooFewFields | TooManyFields
    | Forbidden | MoreThanOne | NoneOfThem

  datatype Error = Error(pointer: Pointer, message: Message)

  predicate IsKind(v: Instance, k: Kind) {
    match k
    case NullKind => v.Null?
    case BooleanKind => v.Bool?
    case StringKind => v.Text?
    case ArrayKind => v.Array?
    case ObjectKind => v.Object?
    case NumberKind => v.Number?
    case IntegerKind => v.Number? && v.x == v.x.Floor as real
  }

  function When(fails: bool, at: Pointer, m: Message): seq<Error> {
    if fails then [Error(at, m)] else []
  }

  function ScalarErrors(r: Scalars, v: Instance, at: Pointer): seq<Error> {
    When(r.constant.Some? && !JsonEqual(v, r.constant.value), at, NotConstant)
    + When(r.enumeration.Some?
           && !(exists i :: 0 <= i < |r.enumeration.value| && JsonEqual(v, r.enumeration.value[i])), at, NotListed)
    + When(v.Text? && r.minLength.Some? && |v.s| < r.minLength.value, at, TooShort)
    + When(v.Text? && r.pattern.Some? && !r.pattern.value(v.s), at, NoMatch)
    + When(v.Number? && r.minimum.Some? && v.x < r.minimum.value, at, TooLow)
    + When(v.Number? && r.maximum.Some? && v.x > r.maximum.value, at, TooHigh)
  }

  function DuplicateErrors(items: seq<Instance>, at: Pointer): seq<Error> {
    if items == [] then []
    else
      var n := |items| - 1;
      DuplicateErrors(items[..n], at)
      + When(exists i :: 0 <= i < n && JsonEqual(items[n], items[i]), at + [Numerals.Digits(n)], DuplicateItem)
  }

  function MissingErrors(required: seq<string>, fields: seq<Member>, at: Pointer): seq<Error> {
    if required == [] then []
    else
      var n := |required| - 1;
      MissingErrors(required[..n], fields, at) + When(!HasKey(fields, required[n]), at + [required[n]], Missing)
  }

  function PropertyOf(properties: seq<Property>, key: string): (r: Option<Schema>)
    ensures r.Some? ==> exists i :: 0 <= i < |properties| && properties[i] == Property(key, r.value)
    ensures r.None? ==> forall i :: 0 <= i < |properties| ==> properties[i].key != key
  {
    if properties == [] then None
    else if properties[0].key == key then
      assert properties[0] == Property(key, properties[0].schema);
      Some(properties[0].schema)
    else
      var r := PropertyOf(properties[1..], key);
      assert forall i :: 0 <= i < |properties| - 1 ==> properties[1..][i] == properties[i + 1];
      r
  }

  /** The least key, in code point order, that a condition does not name. */
  function FirstExtra(fields: seq<Member>, keep: set<string>): Option<string> {
    if fields == [] then None
    else
      var key, rest := fields[0].key, FirstExtra(fields[1..], keep);
      if key in keep then rest
      else if rest.None? || Before(key, rest.value) then Some(key)
      else rest
  }

  /** The fields a condition names. */
  function Named(s: Schema): set<string> {
    if !s.Rules? then {}
    else (set key | key in s.fields.required) + (set i | 0 <= i < |s.fields.properties| :: s.fields.properties[i].key)
  }

  function Passing(results: seq<seq<Error>>): nat {
    if results == [] then 0
    else Passing(results[..|results| - 1]) + if results[|results| - 1] == [] then 1 else 0
  }

  /** Branches that accept the type of the value. */
  function Typed(results: seq<seq<Error>>, at: Pointer): (typed: seq<seq<Error>>)
    ensures forall t :: t in typed ==> t in results
  {
    if results == [] then []
    else
      var n := |results| - 1;
      Typed(results[..n], at) + if Error(at, TypeMismatch) in results[n] then [] else [results[n]]
  }

  function Chosen(results: seq<seq<Error>>, at: Pointer): seq<Error> {
    var passing := Passing(results);
    if passing == 1 then []
    else if passing > 1 then [Error(at, MoreThanOne)]
    else
      var typed := Typed(results, at);
      if |typed| == 1 then typed[0] else [Error(at, NoneOfThem)]
  }

  function Renamed(errors: seq<Error>, at: Pointer): seq<Error> {
    seq(|errors|, i requires 0 <= i < |errors| => Error(at, FieldName(errors[i].message)))
  }

  /** Every error of a value under a schema. */
  function Errors(lib: Library, doc: string, s: Schema, v: Instance, at: Pointer, keep: set<string>): seq<Error>
    requires Sound(lib) && Linked(lib, doc, s)
    decreases Height(v), Level(lib, doc, s), s, 2, 0
  {
    if s.Always? then []
    else if s.Never? then [Error(at, NotAllowed)]
    else
      var referred :=
        if s.ref.Some? then
          var t := Target(doc, s.ref.value);
          Errors(lib, t.0, lib.schemas[t], v, at, {})
        else [];
      if s.types.Some? && !(exists i :: 0 <= i < |s.types.value| && IsKind(v, s.types.value[i])) then
        referred + [Error(at, TypeMismatch)]
      else
        referred + ScalarErrors(s.scalar, v, at)
        + (if v.Array? then ArrayErrors(lib, doc, s, v, at) else [])
        + (if v.Object? then ObjectErrors(lib, doc, s, v, at, keep) else [])
        + PartErrors(lib, doc, s, v, at)
  }

  function ArrayErrors(lib: Library, doc: string, s: Schema, v: Instance, at: Pointer): seq<Error>
    requires Sound(lib) && s.Rules? && Linked(lib, doc, s) && v.Array?
    decreases Height(v), Level(lib, doc, s), s, 1, 0
  {
    When(s.list.minItems.Some? && |v.items| < s.list.minItems.value, at, TooFewItems)
    + (if s.list.uniqueItems then DuplicateErrors(v.items, at) else [])
    + (if s.list.items.Some? then ItemErrors(lib, doc, s, v, at, |v.items|) else [])
  }

  function ItemErrors(lib: Library, doc: string, s: Schema, v: Instance, at: Pointer, n: nat): seq<Error>
    requires Sound(lib) && s.Rules? && Linked(lib, doc, s) && v.Array? && n <= |v.items| && s.list.items.Some?
    decreases Height(v), Level(lib, doc, s), s, 0, n
  {
    if n == 0 then []
    else
      ItemSmaller(v, n - 1);
      ItemErrors(lib, doc, s, v, at, n - 1)
      + Errors(lib, doc, s.list.items.value, v.items[n - 1], at + [Numerals.Digits(n - 1)], {})
  }

  function ObjectErrors(lib: Library, doc: string, s: Schema, v: Instance, at: Pointer, keep: set<string>): seq<Error>
    requires Sound(lib) && s.Rules? && Linked(lib, doc, s) && v.Object?
    decreases Height(v), Level(lib, doc, s), s, 1, 0
  {
    var extra := FirstExtra(v.fields, keep);
    MissingErrors(s.fields.required, v.fields, at)
    + FieldErrors(lib, doc, s, v, at, |v.fields|)
    + When(s.fields.minProperties.Some? && |v.fields| < s.fields.minProperties.value, at, TooFewFields)
    + When(s.fields.maxProperties.Some? && |v.fields| > s.fields.maxProperties.value,
           if extra.Some? then at + [extra.value] else at, TooManyFields)
  }

  function FieldErrors(lib: Library, doc: string, s: Schema, v: Instance, at: Pointer, n: nat): seq<Error>
    requires Sound(lib) && s.Rules? && Linked(lib, doc, s) && v.Object? && n <= |v.fields|
    decreases Height(v), Level(lib, doc, s), s, 0, n
  {
    if n == 0 then []
    else
      FieldSmaller(v, n - 1);
      var field := v.fields[n - 1];
      var property := PropertyOf(s.fields.properties, field.key);
      FieldErrors(lib, doc, s, v, at, n - 1)
      + (if property.Some? then Errors(lib, doc, property.value, field.value, at + [field.key], {})
         else if s.fields.extra.Some? then
           if s.fields.extra.value.Never? then [Error(at + [field.key], UnknownField)]
           else Errors(lib, doc, s.fields.extra.value, field.value, at + [field.key], {})
         else [])
      + (if s.fields.names.Some? then
           Renamed(Errors(lib, doc, s.fields.names.value, Text(field.key), at, {}), at + [field.key])
         else [])
  }

  function PartErrors(lib: Library, doc: string, s: Schema, v: Instance, at: Pointer): seq<Error>
    requires Sound(lib) && s.Rules? && Linked(lib, doc, s)
    decreases Height(v), Level(lib, doc, s), s, 1, 0
  {
    var p := s.parts;
    AllOfErrors(lib, doc, s, v, at, |p.allOf|)
    + (if p.oneOf.OneOf? then Chosen(Results(lib, doc, s, v, at, |p.oneOf.options|), at) else [])
    + (if p.forbidden.Some? && Errors(lib, doc, p.forbidden.value, v, at, {}) == [] then [Error(at, Forbidden)] else [])
    + (if p.condition.Some? && p.consequence.Some? && Errors(lib, doc, p.condition.value, v, at, {}) == [] then
         Errors(lib, doc, p.consequence.value, v, at, Named(p.condition.value))
       else [])
  }

  function AllOfErrors(lib: Library, doc: string, s: Schema, v: Instance, at: Pointer, n: nat): seq<Error>
    requires Sound(lib) && s.Rules? && Linked(lib, doc, s) && n <= |s.parts.allOf|
    decreases Height(v), Level(lib, doc, s), s, 0, n
  {
    if n == 0 then []
    else
      AllOfLevel(lib, doc, s, n - 1);
      AllOfErrors(lib, doc, s, v, at, n - 1) + Errors(lib, doc, s.parts.allOf[n - 1], v, at, {})
  }

  /** The errors of each branch of oneOf. */
  function Results(lib: Library, doc: string, s: Schema, v: Instance, at: Pointer, n: nat): (r: seq<seq<Error>>)
    requires Sound(lib) && s.Rules? && Linked(lib, doc, s) && s.parts.oneOf.OneOf? && n <= |s.parts.oneOf.options|
    ensures |r| == n
    decreases Height(v), Level(lib, doc, s), s, 0, n
  {
    if n == 0 then []
    else
      OneOfLevel(lib, doc, s, n - 1);
      Results(lib, doc, s, v, at, n - 1) + [Errors(lib, doc, s.parts.oneOf.options[n - 1], v, at, {})]
  }

  // ---------------------------------------------------------------- satisfaction

  ghost predicate ScalarHolds(r: Scalars, v: Instance) {
    && (r.constant.Some? ==> Canonical(v) == Canonical(r.constant.value))
    && (r.enumeration.Some? ==>
          exists i :: 0 <= i < |r.enumeration.value| && Canonical(v) == Canonical(r.enumeration.value[i]))
    && (v.Text? && r.minLength.Some? ==> r.minLength.value <= |v.s|)
    && (v.Text? && r.pattern.Some? ==> r.pattern.value(v.s))
    && (v.Number? && r.minimum.Some? ==> r.minimum.value <= v.x)
    && (v.Number? && r.maximum.Some? ==> v.x <= r.maximum.value)
  }

  ghost predicate Unlike(items: seq<Instance>) {
    forall i, j :: 0 <= i < j < |items| ==> Canonical(items[i]) != Canonical(items[j])
  }

  /** A value satisfies a schema: what each keyword asserts, without errors and without pointers. */
  ghost predicate Satisfies(lib: Library, doc: string, s: Schema, v: Instance)
    requires Sound(lib) && Linked(lib, doc, s)
    decreases Height(v), Level(lib, doc, s), s, 3
  {
    !s.Never? && (s.Rules? ==>
      && (s.ref.Some? ==> var t := Target(doc, s.ref.value); Satisfies(lib, t.0, lib.schemas[t], v))
      && (s.types.Some? ==> exists i :: 0 <= i < |s.types.value| && IsKind(v, s.types.value[i]))
      && ScalarHolds(s.scalar, v)
      && (v.Array? ==> ArrayHolds(lib, doc, s, v))
      && (v.Object? ==> ObjectHolds(lib, doc, s, v))
      && PartsHold(lib, doc, s, v))
  }

  ghost predicate ArrayHolds(lib: Library, doc: string, s: Schema, v: Instance)
    requires Sound(lib) && s.Rules? && Linked(lib, doc, s) && v.Array?
    decreases Height(v), Level(lib, doc, s), s, 1
  {
    && (s.list.minItems.Some? ==> s.list.minItems.value <= |v.items|)
    && (s.list.uniqueItems ==> Unlike(v.items))
    && (s.list.items.Some? ==> forall i :: 0 <= i < |v.items| ==>
          (ItemSmaller(v, i); Satisfies(lib, doc, s.list.items.value, v.items[i])))
  }

  ghost predicate FieldHolds(lib: Library, doc: string, s: Schema, v: Instance, i: nat)
    requires Sound(lib) && s.Rules? && Linked(lib, doc, s) && v.Object? && i < |v.fields|
    decreases Height(v), Level(lib, doc, s), s, 0
  {
    FieldSmaller(v, i);
    var property := PropertyOf(s.fields.properties, v.fields[i].key);
    && (property.Some? ==> Satisfies(lib, doc, property.value, v.fields[i].value))
    && (property.None? && s.fields.extra.Some? ==> Satisfies(lib, doc, s.fields.extra.value, v.fields[i].value))
    && (s.fields.names.Some? ==> Satisfies(lib, doc, s.fields.names.value, Text(v.fields[i].key)))
  }

  ghost predicate ObjectHolds(lib: Library, doc: string, s: Schema, v: Instance)
    requires Sound(lib) && s.Rules? && Linked(lib, doc, s) && v.Object?
    decreases Height(v), Level(lib, doc, s), s, 1
  {
    && (forall key :: key in s.fields.required ==> HasKey(v.fields, key))
    && (forall i :: 0 <= i < |v.fields| ==> FieldHolds(lib, doc, s, v, i))
    && (s.fields.minProperties.Some? ==> s.fields.minProperties.value <= |v.fields|)
    && (s.fields.maxProperties.Some? ==> |v.fields| <= s.fields.maxProperties.value)
  }

  ghost predicate PartsHold(lib: Library, doc: string, s: Schema, v: Instance)
    requires Sound(lib) && s.Rules? && Linked(lib, doc, s)
    decreases Height(v), Level(lib, doc, s), s, 2
  {
    var p := s.parts;
    && (forall i :: 0 <= i < |p.allOf| ==> PartHolds(lib, doc, s, v, i))
    && (p.oneOf.OneOf? ==> ExactlyOne(Verdicts(lib, doc, s, v, |p.oneOf.options|)))
    && (p.forbidden.Some? ==> !Satisfies(lib, doc, p.forbidden.value, v))
    && (p.condition.Some? && p.consequence.Some? && Satisfies(lib, doc, p.condition.value, v) ==>
          Satisfies(lib, doc, p.consequence.value, v))
  }

  ghost predicate PartHolds(lib: Library, doc: string, s: Schema, v: Instance, i: nat)
    requires Sound(lib) && s.Rules? && Linked(lib, doc, s) && i < |s.parts.allOf|
    decreases Height(v), Level(lib, doc, s), s, 0
  {
    AllOfLevel(lib, doc, s, i);
    Satisfies(lib, doc, s.parts.allOf[i], v)
  }

  /** Which of the first options of oneOf hold. */
  ghost function Verdicts(lib: Library, doc: string, s: Schema, v: Instance, n: nat): (r: seq<bool>)
    requires Sound(lib) && s.Rules? && Linked(lib, doc, s) && s.parts.oneOf.OneOf? && n <= |s.parts.oneOf.options|
    ensures |r| == n
    decreases Height(v), Level(lib, doc, s), s, 1, n
  {
    if n == 0 then []
    else
      OneOfLevel(lib, doc, s, n - 1);
      Verdicts(lib, doc, s, v, n - 1) + [Satisfies(lib, doc, s.parts.oneOf.options[n - 1], v)]
  }

  ghost predicate ExactlyOne(r: seq<bool>) {
    exists i :: 0 <= i < |r| && r[i] && forall j :: 0 <= j < |r| && j != i ==> !r[j]
  }
}
