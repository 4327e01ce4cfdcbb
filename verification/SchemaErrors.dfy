/**
 Which errors the validator lists, and where: a relation between a value, its schema and one violation,
 said with what the keywords assert and not with the lists the validator builds.
 */
module SchemaErrors {
  import opened Instances
  import opened SchemaCheck
  import opened SchemaProperties
  import opened StringOrder
  import Numerals

  // ---------------------------------------------------------------- violations

  /** A keyword for single values is violated. */
  ghost predicate ScalarBroken(r: Scalars, v: Instance, m: Message) {
    match m
    case NotConstant => r.constant.Some? && Canonical(v) != Canonical(r.constant.value)
    case NotListed => r.enumeration.Some? &&
        forall i :: 0 <= i < |r.enumeration.value| ==> Canonical(v) != Canonical(r.enumeration.value[i])
    case TooShort => v.Text? && r.minLength.Some? && |v.s| < r.minLength.value
    case NoMatch => v.Text? && r.pattern.Some? && !r.pattern.value(v.s)
    case TooLow => v.Number? && r.minimum.Some? && v.x < r.minimum.value
    case TooHigh => v.Number? && r.maximum.Some? && r.maximum.value < v.x
    case _ => false
  }

  /** The i-th item repeats an earlier one. */
  ghost predicate Repeated(items: seq<Instance>, i: int) {
    0 <= i < |items| && exists j :: 0 <= j < i && Canonical(items[j]) == Canonical(items[i])
  }

  /** The pointer of a field too many: the least key outside those kept, or the object. */
  ghost predicate Surplus(fields: seq<Member>, keep: set<string>, path: Pointer) {
    if forall i :: 0 <= i < |fields| ==> fields[i].key in keep then path == []
    else
      && |path| == 1 && HasKey(fields, path[0]) && path[0] !in keep
      && forall i :: 0 <= i < |fields| && fields[i].key !in keep && fields[i].key != path[0] ==>
           Before(path[0], fields[i].key)
  }

  /** The token of an item: its number. */
  ghost function Token(i: nat): string {
    Numerals.Digits(i)
  }

  /**
   The value violates its schema in this way at this path below it. `keep` are the fields an enclosing
   condition names.
   */
  ghost predicate Violates(lib: Library, doc: string, s: Schema, v: Instance, keep: set<string>, path: Pointer,
                           m: Message)
    requires Sound(lib) && Linked(lib, doc, s)
    decreases Height(v), Level(lib, doc, s), s, 2
  {
    if s.Always? then false
    else if s.Never? then path == [] && m == NotAllowed
    else
      || (s.ref.Some? && var t := Target(doc, s.ref.value); Violates(lib, t.0, lib.schemas[t], v, {}, path, m))
      || (!TypeFits(s, v) && path == [] && m == TypeMismatch)
      || (TypeFits(s, v) && (
            || (path == [] && ScalarBroken(s.scalar, v, m))
            || (v.Array? && ArrayViolates(lib, doc, s, v, path, m))
            || (v.Object? && ObjectViolates(lib, doc, s, v, keep, path, m))
            || PartsViolate(lib, doc, s, v, path, m)))
  }

  ghost predicate ArrayViolates(lib: Library, doc: string, s: Schema, v: Instance, path: Pointer, m: Message)
    requires Sound(lib) && s.Rules? && Linked(lib, doc, s) && v.Array?
    decreases Height(v), Level(lib, doc, s), s, 1
  {
    || (path == [] && m == TooFewItems && s.list.minItems.Some? && |v.items| < s.list.minItems.value)
    || (m == DuplicateItem && s.list.uniqueItems && exists i: nat :: path == [Token(i)] && Repeated(v.items, i))
    || (exists i :: 0 <= i < |v.items| && ItemViolates(lib, doc, s, v, i, path, m))
  }

  /** An item violates the schema of the items, below its number. */
  ghost predicate ItemViolates(lib: Library, doc: string, s: Schema, v: Instance, i: nat, path: Pointer, m: Message)
    requires Sound(lib) && s.Rules? && Linked(lib, doc, s) && v.Array? && i < |v.items|
    decreases Height(v), Level(lib, doc, s), s, 0
  {
    ItemSmaller(v, i);
    s.list.items.Some? && path != [] && path[0] == Token(i)
    && Violates(lib, doc, s.list.items.value, v.items[i], {}, path[1..], m)
  }

  ghost predicate ObjectViolates(lib: Library, doc: string, s: Schema, v: Instance, keep: set<string>, path: Pointer,
                                 m: Message)
    requires Sound(lib) && s.Rules? && Linked(lib, doc, s) && v.Object?
    decreases Height(v), Level(lib, doc, s), s, 1
  {
    || (|path| == 1 && m == Missing && path[0] in s.fields.required && !HasKey(v.fields, path[0]))
    || (exists i :: 0 <= i < |v.fields| && FieldViolates(lib, doc, s, v, i, path, m))
    || (path == [] && m == TooFewFields && s.fields.minProperties.Some? && |v.fields| < s.fields.minProperties.value)
    || (m == TooManyFields && s.fields.maxProperties.Some? && s.fields.maxProperties.value < |v.fields|
        && Surplus(v.fields, keep, path))
  }

  /** A field violates the schema of its name, is not known, or has a name that is not allowed. */
  ghost predicate FieldViolates(lib: Library, doc: string, s: Schema, v: Instance, i: nat, path: Pointer, m: Message)
    requires Sound(lib) && s.Rules? && Linked(lib, doc, s) && v.Object? && i < |v.fields|
    decreases Height(v), Level(lib, doc, s), s, 0
  {
    FieldSmaller(v, i);
    var field := v.fields[i];
    var property := PropertyOf(s.fields.properties, field.key);
    path != [] && path[0] == field.key && (
      || (property.Some? && Violates(lib, doc, property.value, field.value, {}, path[1..], m))
      || (property.None? && s.fields.extra.Some? &&
          if s.fields.extra.value.Never? then |path| == 1 && m == UnknownField
          else Violates(lib, doc, s.fields.extra.value, field.value, {}, path[1..], m))
      || (|path| == 1 && m.FieldName? && NameViolates(lib, doc, s, v, i, m.m)))
  }

  /** The name of a field violates the schema of names, wherever below it. */
  ghost predicate NameViolates(lib: Library, doc: string, s: Schema, v: Instance, i: nat, m: Message)
    requires Sound(lib) && s.Rules? && Linked(lib, doc, s) && v.Object? && i < |v.fields|
    decreases Height(v), Level(lib, doc, s), s, 0, 0
  {
    FieldSmaller(v, i);
    s.fields.names.Some?
    && exists below :: Violates(lib, doc, s.fields.names.value, Text(v.fields[i].key), {}, below, m)
  }

  ghost predicate PartsViolate(lib: Library, doc: string, s: Schema, v: Instance, path: Pointer, m: Message)
    requires Sound(lib) && s.Rules? && Linked(lib, doc, s)
    decreases Height(v), Level(lib, doc, s), s, 1
  {
    var p := s.parts;
    || (exists i :: 0 <= i < |p.allOf| && PartViolates(lib, doc, s, v, i, path, m))
    || (p.oneOf.OneOf? && ChoiceViolates(lib, doc, s, v, path, m))
    || (path == [] && m == Forbidden && p.forbidden.Some? && Satisfies(lib, doc, p.forbidden.value, v))
    || (p.condition.Some? && p.consequence.Some? && Satisfies(lib, doc, p.condition.value, v)
        && Violates(lib, doc, p.consequence.value, v, Named(p.condition.value), path, m))
  }

  ghost predicate PartViolates(lib: Library, doc: string, s: Schema, v: Instance, i: nat, path: Pointer, m: Message)
    requires Sound(lib) && s.Rules? && Linked(lib, doc, s) && i < |s.parts.allOf|
    decreases Height(v), Level(lib, doc, s), s, 0
  {
    AllOfLevel(lib, doc, s, i);
    Violates(lib, doc, s.parts.allOf[i], v, {}, path, m)
  }

  /** The value violates the i-th form of oneOf in this way. */
  ghost predicate FormViolates(lib: Library, doc: string, s: Schema, v: Instance, i: nat, path: Pointer, m: Message)
    requires Sound(lib) && s.Rules? && Linked(lib, doc, s) && s.parts.oneOf.OneOf? && i < |s.parts.oneOf.options|
    decreases Height(v), Level(lib, doc, s), s, 0, 0
  {
    OneOfLevel(lib, doc, s, i);
    Violates(lib, doc, s.parts.oneOf.options[i], v, {}, path, m)
  }

  ghost predicate FormHolds(lib: Library, doc: string, s: Schema, v: Instance, i: nat)
    requires Sound(lib) && s.Rules? && Linked(lib, doc, s) && s.parts.oneOf.OneOf? && i < |s.parts.oneOf.options|
  {
    Satisfies(lib, doc, s.parts.oneOf.options[i], v)
  }

  /** The i-th form is the only one that takes values of this type. */
  ghost predicate OnlyTyped(lib: Library, doc: string, s: Schema, v: Instance, i: nat)
    requires Sound(lib) && s.Rules? && Linked(lib, doc, s) && s.parts.oneOf.OneOf? && i < |s.parts.oneOf.options|
    decreases Height(v), Level(lib, doc, s), s, 0, 1
  {
    && !FormViolates(lib, doc, s, v, i, [], TypeMismatch)
    && forall j :: 0 <= j < |s.parts.oneOf.options| && j != i ==> FormViolates(lib, doc, s, v, j, [], TypeMismatch)
  }

  /**
   More than one form holds, or none does: then the violations of the one form that takes the type, or
   the value itself if there is no such form or more than one.
   */
  ghost predicate ChoiceViolates(lib: Library, doc: string, s: Schema, v: Instance, path: Pointer, m: Message)
    requires Sound(lib) && s.Rules? && Linked(lib, doc, s) && s.parts.oneOf.OneOf?
    decreases Height(v), Level(lib, doc, s), s, 0, 2
  {
    var n := |s.parts.oneOf.options|;
    || (path == [] && m == MoreThanOne
        && exists i, j :: 0 <= i < j < n && FormHolds(lib, doc, s, v, i) && FormHolds(lib, doc, s, v, j))
    || ((forall i :: 0 <= i < n ==> !FormHolds(lib, doc, s, v, i)) && (
          || (exists i :: 0 <= i < n && OnlyTyped(lib, doc, s, v, i) && FormViolates(lib, doc, s, v, i, path, m))
          || (path == [] && m == NoneOfThem && forall i :: 0 <= i < n ==> !OnlyTyped(lib, doc, s, v, i))))
  }

  // ---------------------------------------------------------------- the violations, unfolded once

  lemma ArrayViolatesIs(lib: Library, doc: string, s: Schema, v: Instance, path: Pointer, m: Message)
    requires Sound(lib) && s.Rules? && Linked(lib, doc, s) && v.Array?
    ensures ArrayViolates(lib, doc, s, v, path, m) <==>
              || (path == [] && m == TooFewItems && s.list.minItems.Some? && |v.items| < s.list.minItems.value)
              || (m == DuplicateItem && s.list.uniqueItems
                  && exists i: nat :: path == [Token(i)] && Repeated(v.items, i))
              || (exists i :: 0 <= i < |v.items| && ItemBroken(lib, doc, s, v, i, path, m))
  {
    hide Violates, Repeated, Token;
    forall i | 0 <= i < |v.items| ensures ItemBroken(lib, doc, s, v, i, path, m) <==>
      ItemViolates(lib, doc, s, v, i, path, m) {
    }
  }

  ghost predicate ItemBroken(lib: Library, doc: string, s: Schema, v: Instance, i: nat, path: Pointer, m: Message)
    requires Sound(lib) && s.Rules? && Linked(lib, doc, s) && v.Array? && i < |v.items|
  {
    ItemViolates(lib, doc, s, v, i, path, m)
  }

  ghost predicate FieldBroken(lib: Library, doc: string, s: Schema, v: Instance, i: nat, path: Pointer, m: Message)
    requires Sound(lib) && s.Rules? && Linked(lib, doc, s) && v.Object? && i < |v.fields|
  {
    FieldViolates(lib, doc, s, v, i, path, m)
  }

  lemma ObjectViolatesIs(lib: Library, doc: string, s: Schema, v: Instance, keep: set<string>, path: Pointer,
                         m: Message)
    requires Sound(lib) && s.Rules? && Linked(lib, doc, s) && v.Object?
    ensures ObjectViolates(lib, doc, s, v, keep, path, m) <==>
              || (|path| == 1 && m == Missing && path[0] in s.fields.required && !HasKey(v.fields, path[0]))
              || (exists i :: 0 <= i < |v.fields| && FieldBroken(lib, doc, s, v, i, path, m))
              || (path == [] && m == TooFewFields && s.fields.minProperties.Some?
                  && |v.fields| < s.fields.minProperties.value)
              || (m == TooManyFields && s.fields.maxProperties.Some? && s.fields.maxProperties.value < |v.fields|
                  && Surplus(v.fields, keep, path))
  {
    hide Violates, HasKey, Surplus, PropertyOf;
    forall i | 0 <= i < |v.fields| ensures FieldBroken(lib, doc, s, v, i, path, m) <==>
      FieldViolates(lib, doc, s, v, i, path, m) {
    }
  }

  /** A name has this error, wherever below it. */
  ghost predicate NameBroken(lib: Library, doc: string, s: Schema, key: string, below: Pointer, m: Message)
    requires Sound(lib) && Linked(lib, doc, s)
  {
    Violates(lib, doc, s, Text(key), {}, below, m)
  }

  lemma FieldViolatesIs(lib: Library, doc: string, s: Schema, v: Instance, i: nat, path: Pointer, m: Message)
    requires Sound(lib) && s.Rules? && Linked(lib, doc, s) && v.Object? && i < |v.fields|
    ensures var field := v.fields[i]; var property := PropertyOf(s.fields.properties, field.key);
            FieldBroken(lib, doc, s, v, i, path, m) <==>
              path != [] && path[0] == field.key && (
                || (property.Some? && Violates(lib, doc, property.value, field.value, {}, path[1..], m))
                || (property.None? && s.fields.extra.Some? &&
                    if s.fields.extra.value.Never? then path == [field.key] && m == UnknownField
                    else Violates(lib, doc, s.fields.extra.value, field.value, {}, path[1..], m))
                || (path == [field.key] && m.FieldName? && NameViolates(lib, doc, s, v, i, m.m)))
  {
    hide Violates, PropertyOf, NameViolates;
    var key := v.fields[i].key;
    assert |path| == 1 && path[0] == key <==> path == [key];
  }

  lemma NameViolatesIs(lib: Library, doc: string, s: Schema, v: Instance, i: nat, m: Message)
    requires Sound(lib) && s.Rules? && Linked(lib, doc, s) && v.Object? && i < |v.fields|
    ensures NameViolates(lib, doc, s, v, i, m) <==>
              s.fields.names.Some?
              && exists below :: NameBroken(lib, doc, s.fields.names.value, v.fields[i].key, below, m)
  {
    hide Violates;
    if s.fields.names.Some? {
      var key := v.fields[i].key;
      forall below ensures NameBroken(lib, doc, s.fields.names.value, key, below, m) <==>
        Violates(lib, doc, s.fields.names.value, Text(key), {}, below, m) {
      }
    }
  }

  ghost predicate PartBroken(lib: Library, doc: string, s: Schema, v: Instance, i: nat, path: Pointer, m: Message)
    requires Sound(lib) && s.Rules? && Linked(lib, doc, s) && i < |s.parts.allOf|
  {
    Violates(lib, doc, s.parts.allOf[i], v, {}, path, m)
  }

  lemma PartsViolateIs(lib: Library, doc: string, s: Schema, v: Instance, path: Pointer, m: Message)
    requires Sound(lib) && s.Rules? && Linked(lib, doc, s)
    ensures var p := s.parts;
            PartsViolate(lib, doc, s, v, path, m) <==>
              || (exists i :: 0 <= i < |p.allOf| && PartBroken(lib, doc, s, v, i, path, m))
              || (p.oneOf.OneOf? && ChoiceViolates(lib, doc, s, v, path, m))
              || (path == [] && m == Forbidden && p.forbidden.Some? && Satisfies(lib, doc, p.forbidden.value, v))
              || (p.condition.Some? && p.consequence.Some? && Satisfies(lib, doc, p.condition.value, v)
                  && Violates(lib, doc, p.consequence.value, v, Named(p.condition.value), path, m))
  {
    hide Violates, ChoiceViolates, Satisfies, Named, PartBroken, PartViolates, Level, Height, Sound, Linked;
    forall i | 0 <= i < |s.parts.allOf| ensures PartBroken(lib, doc, s, v, i, path, m) <==>
      PartViolates(lib, doc, s, v, i, path, m) {
      PartBrokenIs(lib, doc, s, v, i, path, m);
    }
  }

  lemma PartBrokenIs(lib: Library, doc: string, s: Schema, v: Instance, i: nat, path: Pointer, m: Message)
    requires Sound(lib) && s.Rules? && Linked(lib, doc, s) && i < |s.parts.allOf|
    ensures PartBroken(lib, doc, s, v, i, path, m) <==> PartViolates(lib, doc, s, v, i, path, m)
  {
    hide Violates;
  }

  ghost predicate FormBroken(lib: Library, doc: string, s: Schema, v: Instance, i: nat, path: Pointer, m: Message)
    requires Sound(lib) && s.Rules? && Linked(lib, doc, s) && s.parts.oneOf.OneOf? && i < |s.parts.oneOf.options|
  {
    Violates(lib, doc, s.parts.oneOf.options[i], v, {}, path, m)
  }

  ghost predicate OnlyForm(lib: Library, doc: string, s: Schema, v: Instance, i: nat)
    requires Sound(lib) && s.Rules? && Linked(lib, doc, s) && s.parts.oneOf.OneOf? && i < |s.parts.oneOf.options|
  {
    && !FormBroken(lib, doc, s, v, i, [], TypeMismatch)
    && forall j :: 0 <= j < |s.parts.oneOf.options| && j != i ==> FormBroken(lib, doc, s, v, j, [], TypeMismatch)
  }

  lemma OnlyFormIs(lib: Library, doc: string, s: Schema, v: Instance, i: nat)
    requires Sound(lib) && s.Rules? && Linked(lib, doc, s) && s.parts.oneOf.OneOf? && i < |s.parts.oneOf.options|
    ensures OnlyForm(lib, doc, s, v, i) <==> OnlyTyped(lib, doc, s, v, i)
  {
    hide Violates;
    forall j | 0 <= j < |s.parts.oneOf.options| ensures FormBroken(lib, doc, s, v, j, [], TypeMismatch) <==>
      FormViolates(lib, doc, s, v, j, [], TypeMismatch) {
    }
  }

  lemma ChoiceViolatesIs(lib: Library, doc: string, s: Schema, v: Instance, path: Pointer, m: Message)
    requires Sound(lib) && s.Rules? && Linked(lib, doc, s) && s.parts.oneOf.OneOf?
    ensures var n := |s.parts.oneOf.options|;
            ChoiceViolates(lib, doc, s, v, path, m) <==>
              || (path == [] && m == MoreThanOne
                  && exists i, j :: 0 <= i < j < n && FormHolds(lib, doc, s, v, i) && FormHolds(lib, doc, s, v, j))
              || ((forall i :: 0 <= i < n ==> !FormHolds(lib, doc, s, v, i)) && (
                    || (exists i :: 0 <= i < n && OnlyForm(lib, doc, s, v, i) && FormBroken(lib, doc, s, v, i, path, m))
                    || (path == [] && m == NoneOfThem && forall i :: 0 <= i < n ==> !OnlyForm(lib, doc, s, v, i))))
  {
    hide Violates, FormHolds, FormBroken, FormViolates, OnlyForm, OnlyTyped, Level, Height, Sound, Linked;
    var n := |s.parts.oneOf.options|;
    forall i | 0 <= i < n ensures FormBroken(lib, doc, s, v, i, path, m) <==>
      FormViolates(lib, doc, s, v, i, path, m) {
      FormBrokenIs(lib, doc, s, v, i, path, m);
    }
    forall i | 0 <= i < n ensures OnlyForm(lib, doc, s, v, i) <==> OnlyTyped(lib, doc, s, v, i) {
      OnlyFormIs(lib, doc, s, v, i);
    }
  }

  lemma FormBrokenIs(lib: Library, doc: string, s: Schema, v: Instance, i: nat, path: Pointer, m: Message)
    requires Sound(lib) && s.Rules? && Linked(lib, doc, s) && s.parts.oneOf.OneOf? && i < |s.parts.oneOf.options|
    ensures FormBroken(lib, doc, s, v, i, path, m) <==> FormViolates(lib, doc, s, v, i, path, m)
  {
    hide Violates;
  }

  // ---------------------------------------------------------------- the lists of the validator

  /** The path of an error below a pointer. */
  ghost function Below(at: Pointer, e: Error): Pointer
    requires at <= e.pointer
  {
    e.pointer[|at|..]
  }

  lemma BelowNext(at: Pointer, token: string, e: Error)
    ensures at + [token] <= e.pointer <==> at <= e.pointer && Below(at, e) != [] && Below(at, e)[0] == token
    ensures at + [token] <= e.pointer ==> at <= e.pointer && Below(at + [token], e) == Below(at, e)[1..]
    ensures at + [token] == e.pointer <==> at <= e.pointer && Below(at, e) == [token]
    ensures at == e.pointer <==> at <= e.pointer && Below(at, e) == []
  {
    if at <= e.pointer {
      assert e.pointer == at + Below(at, e);
      if Below(at, e) != [] && Below(at, e)[0] == token {
        assert e.pointer[|at|] == token;
        assert e.pointer[..|at| + 1] == at + [token];
      }
    }
    if at + [token] <= e.pointer {
      assert e.pointer[..|at|] == at && e.pointer[|at|] == token;
    }
  }

  lemma WhenIs(fails: bool, at: Pointer, m: Message, e: Error)
    ensures e in When(fails, at, m) <==> fails && e.pointer == at && e.message == m
  {
  }

  /** One of six lists. */
  lemma OneOfSix(a: seq<Error>, b: seq<Error>, c: seq<Error>, d: seq<Error>, f: seq<Error>, g: seq<Error>, e: Error)
    ensures e in a + b + c + d + f + g <==> e in a || e in b || e in c || e in d || e in f || e in g
  {
  }

  lemma ScalarErrorParts(r: Scalars, v: Instance, at: Pointer, e: Error)
    ensures e in ScalarErrors(r, v, at) <==> e.pointer == at && match e.message
      case NotConstant => r.constant.Some? && !JsonEqual(v, r.constant.value)
      case NotListed => r.enumeration.Some?
          && !(exists i :: 0 <= i < |r.enumeration.value| && JsonEqual(v, r.enumeration.value[i]))
      case TooShort => v.Text? && r.minLength.Some? && |v.s| < r.minLength.value
      case NoMatch => v.Text? && r.pattern.Some? && !r.pattern.value(v.s)
      case TooLow => v.Number? && r.minimum.Some? && v.x < r.minimum.value
      case TooHigh => v.Number? && r.maximum.Some? && v.x > r.maximum.value
      case _ => false
  {
    hide JsonEqual, When;
    var constant := r.constant.Some? && !JsonEqual(v, r.constant.value);
    var listed := r.enumeration.Some?
      && !(exists i :: 0 <= i < |r.enumeration.value| && JsonEqual(v, r.enumeration.value[i]));
    var short := v.Text? && r.minLength.Some? && |v.s| < r.minLength.value;
    var odd := v.Text? && r.pattern.Some? && !r.pattern.value(v.s);
    var low := v.Number? && r.minimum.Some? && v.x < r.minimum.value;
    var high := v.Number? && r.maximum.Some? && v.x > r.maximum.value;
    WhenIs(constant, at, NotConstant, e);
    WhenIs(listed, at, NotListed, e);
    WhenIs(short, at, TooShort, e);
    WhenIs(odd, at, NoMatch, e);
    WhenIs(low, at, TooLow, e);
    WhenIs(high, at, TooHigh, e);
    OneOfSix(When(constant, at, NotConstant), When(listed, at, NotListed), When(short, at, TooShort),
             When(odd, at, NoMatch), When(low, at, TooLow), When(high, at, TooHigh), e);
  }

  lemma ScalarErrorIs(r: Scalars, v: Instance, at: Pointer, e: Error)
    requires WellFormed(v) && (r.constant.Some? ==> WellFormed(r.constant.value))
    requires r.enumeration.Some? ==> forall i :: 0 <= i < |r.enumeration.value| ==> WellFormed(r.enumeration.value[i])
    ensures e in ScalarErrors(r, v, at) <==> e.pointer == at && ScalarBroken(r, v, e.message)
  {
    hide JsonEqual, Canonical, WellFormed;
    ScalarErrorParts(r, v, at, e);
    hide ScalarErrors;
    if r.constant.Some? {
      JsonEqualIsCanonical(v, r.constant.value);
    }
    if r.enumeration.Some? {
      forall i | 0 <= i < |r.enumeration.value|
        ensures JsonEqual(v, r.enumeration.value[i]) <==> Canonical(v) == Canonical(r.enumeration.value[i])
      {
        JsonEqualIsCanonical(v, r.enumeration.value[i]);
      }
    }
  }

  lemma {:induction false} DuplicateErrorIs(items: seq<Instance>, at: Pointer, e: Error)
    requires forall i :: 0 <= i < |items| ==> WellFormed(items[i])
    ensures e in DuplicateErrors(items, at) <==>
              e.message == DuplicateItem && exists i: nat :: e.pointer == at + [Token(i)] && Repeated(items, i)
  {
    hide JsonEqual, Canonical, WellFormed, Numerals.Digits;
    if items != [] {
      var n := |items| - 1;
      var some := items[..n];
      DuplicateErrorIs(some, at, e);
      forall i | 0 <= i < n ensures JsonEqual(items[n], items[i]) <==> Canonical(items[i]) == Canonical(items[n]) {
        JsonEqualIsCanonical(items[n], items[i]);
      }
      assert forall i :: 0 <= i < n ==> some[i] == items[i];
      assert forall i: nat :: i < n ==> (Repeated(some, i) <==> Repeated(items, i));
      assert Token(n) == Numerals.Digits(n);
    }
  }

  lemma {:induction false} MissingErrorIs(required: seq<string>, fields: seq<Member>, at: Pointer, e: Error)
    ensures e in MissingErrors(required, fields, at) <==>
              e.message == Missing && exists key :: key in required && !HasKey(fields, key) && e.pointer == at + [key]
  {
    hide HasKey;
    if required != [] {
      var n := |required| - 1;
      MissingErrorIs(required[..n], fields, at, e);
      assert forall key :: key in required <==> key in required[..n] || key == required[n];
    }
  }

  lemma {:induction false} SurplusIs(fields: seq<Member>, keep: set<string>)
    ensures var extra := FirstExtra(fields, keep);
            && (extra.None? <==> forall i :: 0 <= i < |fields| ==> fields[i].key in keep)
            && (extra.Some? ==>
                  && HasKey(fields, extra.value) && extra.value !in keep
                  && forall i :: 0 <= i < |fields| && fields[i].key !in keep && fields[i].key != extra.value ==>
                       Before(extra.value, fields[i].key))
  {
    if fields != [] {
      var key, rest := fields[0].key, FirstExtra(fields[1..], keep);
      SurplusIs(fields[1..], keep);
      hide Before;
      assert forall i :: 0 < i < |fields| ==> fields[i] == fields[1..][i - 1];
      if rest.Some? {
        BeforeTotal(key, rest.value);
        var j :| 0 <= j < |fields[1..]| && fields[1..][j].key == rest.value;
        assert fields[j + 1].key == rest.value;
        forall i | 0 <= i < |fields| && Before(key, rest.value) && Before(rest.value, fields[i].key)
          ensures Before(key, fields[i].key)
        {
          BeforeTransitive(key, rest.value, fields[i].key);
        }
      }
    }
  }

  /** There is one pointer for a field too many. */
  lemma SurplusOnce(fields: seq<Member>, keep: set<string>, path: Pointer)
    ensures Surplus(fields, keep, path) <==>
              path == if FirstExtra(fields, keep).Some? then [FirstExtra(fields, keep).value] else []
  {
    SurplusIs(fields, keep);
    var extra := FirstExtra(fields, keep);
    hide Before, FirstExtra;
    if Surplus(fields, keep, path) && extra.Some? {
      BeforeTotal(path[0], extra.value);
      assert path == [path[0]];
    }
  }

  lemma {:induction false} ErrorIs(lib: Library, doc: string, s: Schema, v: Instance, at: Pointer, keep: set<string>,
                                   e: Error)
    requires Sound(lib) && Linked(lib, doc, s) && WellFormed(v)
    ensures e in Errors(lib, doc, s, v, at, keep) <==>
              at <= e.pointer && Violates(lib, doc, s, v, keep, Below(at, e), e.message)
    decreases Height(v), Level(lib, doc, s), s, 2, 0
  {
    BelowNext(at, "", e);
    if s.Rules? {
      ErrorOfRules(lib, doc, s, v, at, keep, e);
      ViolatesRules(lib, doc, s, v, keep, if at <= e.pointer then Below(at, e) else [], e.message);
      hide ScalarErrors, ScalarBroken, ArrayErrors, ArrayViolates, ObjectErrors, ObjectViolates, PartErrors,
           PartsViolate, IsKind, Errors, Violates, Below;
      if s.ref.Some? {
        var t := Target(doc, s.ref.value);
        ErrorIs(lib, t.0, lib.schemas[t], v, at, {}, e);
      }
      ScalarErrorIs(s.scalar, v, at, e);
      if v.Array? {
        ArrayErrorIs(lib, doc, s, v, at, e);
      }
      if v.Object? {
        ObjectErrorIs(lib, doc, s, v, at, keep, e);
      }
      PartErrorIs(lib, doc, s, v, at, e);
    }
  }

  /** What the list of a schema with rules consists of. */
  lemma ErrorOfRules(lib: Library, doc: string, s: Schema, v: Instance, at: Pointer, keep: set<string>, e: Error)
    requires Sound(lib) && s.Rules? && Linked(lib, doc, s)
    ensures e in Errors(lib, doc, s, v, at, keep) <==>
              || (s.ref.Some? && var t := Target(doc, s.ref.value); e in Errors(lib, t.0, lib.schemas[t], v, at, {}))
              || (!TypeFits(s, v) && e == Error(at, TypeMismatch))
              || (TypeFits(s, v) && (
                    || e in ScalarErrors(s.scalar, v, at)
                    || (v.Array? && e in ArrayErrors(lib, doc, s, v, at))
                    || (v.Object? && e in ObjectErrors(lib, doc, s, v, at, keep))
                    || e in PartErrors(lib, doc, s, v, at)))
  {
    hide ScalarErrors, ArrayErrors, ObjectErrors, PartErrors, Level, Height;
  }

  lemma ViolatesRules(lib: Library, doc: string, s: Schema, v: Instance, keep: set<string>, path: Pointer, m: Message)
    requires Sound(lib) && s.Rules? && Linked(lib, doc, s)
    ensures Violates(lib, doc, s, v, keep, path, m) <==>
              || (s.ref.Some? && var t := Target(doc, s.ref.value); Violates(lib, t.0, lib.schemas[t], v, {}, path, m))
              || (!TypeFits(s, v) && path == [] && m == TypeMismatch)
              || (TypeFits(s, v) && (
                    || (path == [] && ScalarBroken(s.scalar, v, m))
                    || (v.Array? && ArrayViolates(lib, doc, s, v, path, m))
                    || (v.Object? && ObjectViolates(lib, doc, s, v, keep, path, m))
                    || PartsViolate(lib, doc, s, v, path, m)))
  {
    hide ScalarBroken, ArrayViolates, ObjectViolates, PartsViolate, Level, Height;
  }

  lemma ArrayErrorParts(lib: Library, doc: string, s: Schema, v: Instance, at: Pointer, e: Error)
    requires Sound(lib) && s.Rules? && Linked(lib, doc, s) && v.Array?
    ensures e in ArrayErrors(lib, doc, s, v, at) <==>
              || (e.pointer == at && e.message == TooFewItems && s.list.minItems.Some?
                  && |v.items| < s.list.minItems.value)
              || (s.list.uniqueItems && e in DuplicateErrors(v.items, at))
              || (s.list.items.Some? && e in ItemErrors(lib, doc, s, v, at, |v.items|))
  {
    WhenIs(s.list.minItems.Some? && |v.items| < s.list.minItems.value, at, TooFewItems, e);
    hide When, DuplicateErrors, ItemErrors;
  }

  lemma {:induction false} ArrayErrorIs(lib: Library, doc: string, s: Schema, v: Instance, at: Pointer, e: Error)
    requires Sound(lib) && s.Rules? && Linked(lib, doc, s) && v.Array? && WellFormed(v)
    ensures e in ArrayErrors(lib, doc, s, v, at) <==>
              at <= e.pointer && ArrayViolates(lib, doc, s, v, Below(at, e), e.message)
    decreases Height(v), Level(lib, doc, s), s, 1, 0
  {
    hide Repeated, DuplicateErrors, ItemBroken, ArrayViolates, Errors, ItemErrors, ArrayErrors, Below;
    BelowNext(at, "", e);
    if at <= e.pointer {
      ArrayViolatesIs(lib, doc, s, v, Below(at, e), e.message);
    }
    ArrayErrorParts(lib, doc, s, v, at, e);
    DuplicateErrorIs(v.items, at, e);
    forall i: nat ensures e.pointer == at + [Token(i)] <==> at <= e.pointer && Below(at, e) == [Token(i)] {
      BelowNext(at, Token(i), e);
    }
    if s.list.items.Some? {
      ItemErrorIs(lib, doc, s, v, at, |v.items|, e);
    } else {
      NoItemViolates(lib, doc, s, v);
    }
    hide Token;
  }

  lemma NoItemViolates(lib: Library, doc: string, s: Schema, v: Instance)
    requires Sound(lib) && s.Rules? && Linked(lib, doc, s) && v.Array? && s.list.items.None?
    ensures forall i, path, m :: 0 <= i < |v.items| ==> !ItemBroken(lib, doc, s, v, i, path, m)
  {
  }

  lemma {:induction false} ItemErrorIs(lib: Library, doc: string, s: Schema, v: Instance, at: Pointer, n: nat,
                                       e: Error)
    requires Sound(lib) && s.Rules? && Linked(lib, doc, s) && v.Array? && WellFormed(v) && n <= |v.items|
    requires s.list.items.Some?
    ensures e in ItemErrors(lib, doc, s, v, at, n) <==>
              at <= e.pointer && exists i :: 0 <= i < n && ItemBroken(lib, doc, s, v, i, Below(at, e), e.message)
    decreases Height(v), Level(lib, doc, s), s, 0, n
  {
    hide Violates, Errors, Below, Numerals.Digits;
    if n > 0 {
      ItemSmaller(v, n - 1);
      ItemErrorIs(lib, doc, s, v, at, n - 1, e);
      ErrorIs(lib, doc, s.list.items.value, v.items[n - 1], at + [Token(n - 1)], {}, e);
      BelowNext(at, Token(n - 1), e);
      if at <= e.pointer {
        ItemViolatesIs(lib, doc, s, v, n - 1, Below(at, e), e.message);
      }
      hide ItemBroken;
    }
  }

  lemma ItemViolatesIs(lib: Library, doc: string, s: Schema, v: Instance, i: nat, path: Pointer, m: Message)
    requires Sound(lib) && s.Rules? && Linked(lib, doc, s) && v.Array? && i < |v.items| && s.list.items.Some?
    ensures ItemBroken(lib, doc, s, v, i, path, m) <==>
              path != [] && path[0] == Token(i) && Violates(lib, doc, s.list.items.value, v.items[i], {}, path[1..], m)
  {
    ItemSmaller(v, i);
    hide Violates;
  }

  lemma ObjectErrorParts(lib: Library, doc: string, s: Schema, v: Instance, at: Pointer, keep: set<string>, e: Error)
    requires Sound(lib) && s.Rules? && Linked(lib, doc, s) && v.Object?
    ensures var extra := FirstExtra(v.fields, keep);
            e in ObjectErrors(lib, doc, s, v, at, keep) <==>
              || e in MissingErrors(s.fields.required, v.fields, at)
              || e in FieldErrors(lib, doc, s, v, at, |v.fields|)
              || (e.pointer == at && e.message == TooFewFields && s.fields.minProperties.Some?
                  && |v.fields| < s.fields.minProperties.value)
              || (e.pointer == (if extra.Some? then at + [extra.value] else at) && e.message == TooManyFields
                  && s.fields.maxProperties.Some? && |v.fields| > s.fields.maxProperties.value)
  {
    var extra := FirstExtra(v.fields, keep);
    WhenIs(s.fields.minProperties.Some? && |v.fields| < s.fields.minProperties.value, at, TooFewFields, e);
    WhenIs(s.fields.maxProperties.Some? && |v.fields| > s.fields.maxProperties.value,
           if extra.Some? then at + [extra.value] else at, TooManyFields, e);
    hide When, MissingErrors, FieldErrors, FirstExtra;
  }

  lemma {:induction false} ObjectErrorIs(lib: Library, doc: string, s: Schema, v: Instance, at: Pointer,
                                         keep: set<string>, e: Error)
    requires Sound(lib) && s.Rules? && Linked(lib, doc, s) && v.Object? && WellFormed(v)
    ensures e in ObjectErrors(lib, doc, s, v, at, keep) <==>
              at <= e.pointer && ObjectViolates(lib, doc, s, v, keep, Below(at, e), e.message)
    decreases Height(v), Level(lib, doc, s), s, 1, 0
  {
    hide FieldBroken, FieldErrors, MissingErrors, FirstExtra, HasKey, Surplus, Below, ObjectErrors, ObjectViolates;
    BelowNext(at, "", e);
    ObjectErrorParts(lib, doc, s, v, at, keep, e);
    MissingErrorIs(s.fields.required, v.fields, at, e);
    FieldErrorIs(lib, doc, s, v, at, |v.fields|, e);
    forall key ensures e.pointer == at + [key] <==> at <= e.pointer && Below(at, e) == [key] {
      BelowNext(at, key, e);
    }
    if at <= e.pointer {
      var path := Below(at, e);
      ObjectViolatesIs(lib, doc, s, v, keep, path, e.message);
      SurplusOnce(v.fields, keep, path);
      assert |path| == 1 ==> path == [path[0]] && e.pointer == at + [path[0]];
    }
  }

  lemma {:induction false} FieldErrorIs(lib: Library, doc: string, s: Schema, v: Instance, at: Pointer, n: nat,
                                        e: Error)
    requires Sound(lib) && s.Rules? && Linked(lib, doc, s) && v.Object? && WellFormed(v) && n <= |v.fields|
    ensures e in FieldErrors(lib, doc, s, v, at, n) <==>
              at <= e.pointer && exists i :: 0 <= i < n && FieldBroken(lib, doc, s, v, i, Below(at, e), e.message)
    decreases Height(v), Level(lib, doc, s), s, 0, n
  {
    hide Violates, Errors, Below, FieldBroken;
    if n > 0 {
      FieldSmaller(v, n - 1);
      var field := v.fields[n - 1];
      FieldErrorIs(lib, doc, s, v, at, n - 1, e);
      hide FieldErrors;
      var property := PropertyOf(s.fields.properties, field.key);
      if property.Some? {
        ErrorIs(lib, doc, property.value, field.value, at + [field.key], {}, e);
      } else if s.fields.extra.Some? {
        ErrorIs(lib, doc, s.fields.extra.value, field.value, at + [field.key], {}, e);
      }
      if s.fields.names.Some? {
        NameErrorIs(lib, doc, s, v, at, n - 1, e);
      }
      LastField(lib, doc, s, v, at, n, e);
    }
  }

  /** The errors of a field name: its own errors, at the field. */
  lemma {:induction false} NameErrorIs(lib: Library, doc: string, s: Schema, v: Instance, at: Pointer, i: nat,
                                       e: Error)
    requires Sound(lib) && s.Rules? && Linked(lib, doc, s) && v.Object? && i < |v.fields| && s.fields.names.Some?
    ensures var key := v.fields[i].key;
            e in Renamed(Errors(lib, doc, s.fields.names.value, Text(key), at, {}), at + [key]) <==>
              e.pointer == at + [key] && e.message.FieldName? && NameViolates(lib, doc, s, v, i, e.message.m)
    decreases Height(v), Level(lib, doc, s), s, 0, 0
  {
    hide Violates, Errors, NameViolates;
    FieldSmaller(v, i);
    var key := v.fields[i].key;
    var errors := Errors(lib, doc, s.fields.names.value, Text(key), at, {});
    RenamedAre(errors, at + [key], e);
    if e.message.FieldName? {
      NameViolatesIs(lib, doc, s, v, i, e.message.m);
      if x :| x in errors && x.message == e.message.m {
        ErrorIs(lib, doc, s.fields.names.value, Text(key), at, {}, x);
        assert NameBroken(lib, doc, s.fields.names.value, key, Below(at, x), e.message.m);
      }
      if below :| NameBroken(lib, doc, s.fields.names.value, key, below, e.message.m) {
        var x := Error(at + below, e.message.m);
        assert Below(at, x) == below;
        ErrorIs(lib, doc, s.fields.names.value, Text(key), at, {}, x);
      }
    }
  }

  lemma RenamedAre(errors: seq<Error>, at: Pointer, e: Error)
    ensures e in Renamed(errors, at) <==>
              e.pointer == at && e.message.FieldName? && exists x :: x in errors && x.message == e.message.m
  {
    if e.pointer == at && e.message.FieldName? {
      if x :| x in errors && x.message == e.message.m {
        var j :| 0 <= j < |errors| && errors[j] == x;
        assert Renamed(errors, at)[j] == e;
      }
    }
  }

  lemma FieldErrorParts(lib: Library, doc: string, s: Schema, v: Instance, at: Pointer, n: nat, e: Error)
    requires Sound(lib) && s.Rules? && Linked(lib, doc, s) && v.Object? && 0 < n <= |v.fields|
    ensures var field := v.fields[n - 1]; var property := PropertyOf(s.fields.properties, field.key);
            e in FieldErrors(lib, doc, s, v, at, n) <==>
              || e in FieldErrors(lib, doc, s, v, at, n - 1)
              || (property.Some? && e in Errors(lib, doc, property.value, field.value, at + [field.key], {}))
              || (property.None? && s.fields.extra.Some? &&
                  if s.fields.extra.value.Never? then e.pointer == at + [field.key] && e.message == UnknownField
                  else e in Errors(lib, doc, s.fields.extra.value, field.value, at + [field.key], {}))
              || (s.fields.names.Some?
                  && e in Renamed(Errors(lib, doc, s.fields.names.value, Text(field.key), at, {}), at + [field.key]))
  {
    hide Errors, Renamed, PropertyOf;
  }

  /** The errors of the last of n fields, given those of its schemas. */
  lemma LastField(lib: Library, doc: string, s: Schema, v: Instance, at: Pointer, n: nat, e: Error)
    requires Sound(lib) && s.Rules? && Linked(lib, doc, s) && v.Object? && 0 < n <= |v.fields|
    requires var field := v.fields[n - 1]; var property := PropertyOf(s.fields.properties, field.key);
             && (property.Some? ==>
                   (e in Errors(lib, doc, property.value, field.value, at + [field.key], {}) <==>
                      at + [field.key] <= e.pointer
                      && Violates(lib, doc, property.value, field.value, {}, Below(at + [field.key], e), e.message)))
             && (property.None? && s.fields.extra.Some? ==>
                   (e in Errors(lib, doc, s.fields.extra.value, field.value, at + [field.key], {}) <==>
                      at + [field.key] <= e.pointer
                      && Violates(lib, doc, s.fields.extra.value, field.value, {}, Below(at + [field.key], e),
                                  e.message)))
             && (s.fields.names.Some? ==>
                   (e in Renamed(Errors(lib, doc, s.fields.names.value, Text(field.key), at, {}), at + [field.key]) <==>
                      e.pointer == at + [field.key] && e.message.FieldName?
                      && NameViolates(lib, doc, s, v, n - 1, e.message.m)))
    ensures e in FieldErrors(lib, doc, s, v, at, n) <==>
              || e in FieldErrors(lib, doc, s, v, at, n - 1)
              || (at <= e.pointer && FieldBroken(lib, doc, s, v, n - 1, Below(at, e), e.message))
  {
    hide Violates, Errors, Below, Renamed, FieldErrors, FieldBroken, NameViolates, PropertyOf;
    FieldErrorParts(lib, doc, s, v, at, n, e);
    BelowNext(at, v.fields[n - 1].key, e);
    if at <= e.pointer {
      FieldViolatesIs(lib, doc, s, v, n - 1, Below(at, e), e.message);
    }
    if e.message.FieldName? {
      NameViolatesIs(lib, doc, s, v, n - 1, e.message.m);
    }
  }

  lemma PartErrorParts(lib: Library, doc: string, s: Schema, v: Instance, at: Pointer, e: Error)
    requires Sound(lib) && s.Rules? && Linked(lib, doc, s)
    ensures var p := s.parts;
            e in PartErrors(lib, doc, s, v, at) <==>
              || e in AllOfErrors(lib, doc, s, v, at, |p.allOf|)
              || (p.oneOf.OneOf? && e in Chosen(Results(lib, doc, s, v, at, |p.oneOf.options|), at))
              || (p.forbidden.Some? && Errors(lib, doc, p.forbidden.value, v, at, {}) == [] && e.pointer == at
                  && e.message == Forbidden)
              || (p.condition.Some? && p.consequence.Some? && Errors(lib, doc, p.condition.value, v, at, {}) == []
                  && e in Errors(lib, doc, p.consequence.value, v, at, Named(p.condition.value)))
  {
    hide Errors, AllOfErrors, Results, Chosen, Named;
  }

  lemma {:induction false} PartErrorIs(lib: Library, doc: string, s: Schema, v: Instance, at: Pointer, e: Error)
    requires Sound(lib) && s.Rules? && Linked(lib, doc, s) && WellFormed(v)
    ensures e in PartErrors(lib, doc, s, v, at) <==>
              at <= e.pointer && PartsViolate(lib, doc, s, v, Below(at, e), e.message)
    decreases Height(v), Level(lib, doc, s), s, 1, 0
  {
    hide Satisfies, Errors, AllOfErrors, Results, Chosen, PartBroken, ChoiceViolates, Violates, Below, PartErrors,
         PartsViolate, Named;
    PartErrorParts(lib, doc, s, v, at, e);
    if at <= e.pointer {
      PartsViolateIs(lib, doc, s, v, Below(at, e), e.message);
    }
    BelowNext(at, "", e);
    var p := s.parts;
    AllOfErrorIs(lib, doc, s, v, at, |p.allOf|, e);
    if p.oneOf.OneOf? {
      ChoiceErrorIs(lib, doc, s, v, at, e);
    }
    if p.forbidden.Some? {
      ErrorsDecide(lib, doc, p.forbidden.value, v, at, {});
    }
    if p.condition.Some? && p.consequence.Some? {
      ErrorsDecide(lib, doc, p.condition.value, v, at, {});
      ErrorIs(lib, doc, p.consequence.value, v, at, Named(p.condition.value), e);
    }
  }

  lemma {:induction false} AllOfErrorIs(lib: Library, doc: string, s: Schema, v: Instance, at: Pointer, n: nat,
                                        e: Error)
    requires Sound(lib) && s.Rules? && Linked(lib, doc, s) && WellFormed(v) && n <= |s.parts.allOf|
    ensures e in AllOfErrors(lib, doc, s, v, at, n) <==>
              at <= e.pointer && exists i :: 0 <= i < n && PartBroken(lib, doc, s, v, i, Below(at, e), e.message)
    decreases Height(v), Level(lib, doc, s), s, 0, n
  {
    hide Violates, Errors, Below;
    if n > 0 {
      AllOfLevel(lib, doc, s, n - 1);
      AllOfErrorIs(lib, doc, s, v, at, n - 1, e);
      ErrorIs(lib, doc, s.parts.allOf[n - 1], v, at, {}, e);
      assert at <= e.pointer ==>
        (PartBroken(lib, doc, s, v, n - 1, Below(at, e), e.message) <==>
         Violates(lib, doc, s.parts.allOf[n - 1], v, {}, Below(at, e), e.message));
      hide PartBroken;
    }
  }

  // ---------------------------------------------------------------- the form that is shown

  /** Of the lists of the forms, the empty ones and their errors. */
  lemma {:induction false} ResultsAre(lib: Library, doc: string, s: Schema, v: Instance, at: Pointer, n: nat, e: Error)
    requires Sound(lib) && s.Rules? && Linked(lib, doc, s) && WellFormed(v) && s.parts.oneOf.OneOf?
    requires n <= |s.parts.oneOf.options|
    ensures forall i :: 0 <= i < n ==>
              && (Results(lib, doc, s, v, at, n)[i] == [] <==> FormHolds(lib, doc, s, v, i))
              && (e in Results(lib, doc, s, v, at, n)[i] <==>
                    at <= e.pointer && FormBroken(lib, doc, s, v, i, Below(at, e), e.message))
    decreases Height(v), Level(lib, doc, s), s, 0, n
  {
    hide Satisfies, Errors, Violates, Below;
    if n > 0 {
      OneOfLevel(lib, doc, s, n - 1);
      ResultsAre(lib, doc, s, v, at, n - 1, e);
      ErrorsDecide(lib, doc, s.parts.oneOf.options[n - 1], v, at, {});
      ErrorIs(lib, doc, s.parts.oneOf.options[n - 1], v, at, {}, e);
      hide FormBroken, FormHolds;
    }
  }

  /** The list of the i-th form does not say that the type is wrong. */
  ghost predicate TakesType(results: seq<seq<Error>>, at: Pointer, i: int) {
    0 <= i < |results| && Error(at, TypeMismatch) !in results[i]
  }

  ghost predicate OnlyType(results: seq<seq<Error>>, at: Pointer, i: int) {
    TakesType(results, at, i) && forall j :: TakesType(results, at, j) ==> j == i
  }

  lemma {:induction false} TypedAre(results: seq<seq<Error>>, at: Pointer)
    ensures Typed(results, at) == [] <==> forall i :: !TakesType(results, at, i)
    ensures |Typed(results, at)| == 1 <==> exists i :: OnlyType(results, at, i)
    ensures forall i :: OnlyType(results, at, i) ==> Typed(results, at) == [results[i]]
  {
    if results != [] {
      var n := |results| - 1;
      var some := results[..n];
      TypedAre(some, at);
      assert forall i :: TakesType(results, at, i) <==> TakesType(some, at, i) || (i == n && TakesType(results, at, n));
      assert Typed(results, at) == Typed(some, at) + if TakesType(results, at, n) then [results[n]] else [];
      assert !TakesType(some, at, n);
      hide TakesType, Typed;
      if TakesType(results, at, n) {
        if Typed(some, at) == [] {
          assert OnlyType(results, at, n);
        }
        forall i | OnlyType(results, at, i) ensures i == n && Typed(some, at) == [] {
          assert forall j :: !TakesType(some, at, j);
        }
      } else {
        forall i ensures OnlyType(results, at, i) <==> OnlyType(some, at, i) {
        }
        assert forall i :: OnlyType(some, at, i) ==> 0 <= i < n && some[i] == results[i] by {
          OnlyTypeWithin(some, at);
        }
      }
    }
  }

  lemma {:induction false} PassingMany(results: seq<seq<Error>>)
    ensures Passing(results) > 1 <==> exists i, j :: 0 <= i < j < |results| && results[i] == [] && results[j] == []
  {
    if results != [] {
      var n := |results| - 1;
      var some := results[..n];
      PassingMany(some);
      PassingCounts(some);
      assert forall i :: 0 <= i < n ==> some[i] == results[i];
      if i, j :| 0 <= i < j < |results| && results[i] == [] && results[j] == [] {
        assert j < n ==> some[i] == [] && some[j] == [];
        assert j == n ==> some[i] == [];
      }
      if Passing(results) > 1 && Passing(some) <= 1 {
        var i :| OnlyAt(some, i);
        assert results[i] == [] && results[n] == [];
      }
    }
  }

  /** What the choice among the lists of the forms shows. */
  lemma ChosenIs(results: seq<seq<Error>>, at: Pointer, e: Error)
    ensures e in Chosen(results, at) <==>
              || (e == Error(at, MoreThanOne)
                  && exists i, j :: 0 <= i < j < |results| && results[i] == [] && results[j] == [])
              || ((forall i :: 0 <= i < |results| ==> results[i] != []) && (
                    || (exists i :: OnlyType(results, at, i) && e in results[i])
                    || (e == Error(at, NoneOfThem) && forall i :: !OnlyType(results, at, i))))
  {
    PassingCounts(results);
    PassingMany(results);
    TypedAre(results, at);
    hide Passing, Typed, TakesType;
    if Passing(results) == 1 {
      var i :| OnlyAt(results, i);
      assert results[i] == [];
    }
  }

  lemma OnlyTypedIs(lib: Library, doc: string, s: Schema, v: Instance, at: Pointer, results: seq<seq<Error>>, i: nat)
    requires Sound(lib) && s.Rules? && Linked(lib, doc, s) && s.parts.oneOf.OneOf? && i < |s.parts.oneOf.options|
    requires |results| == |s.parts.oneOf.options|
    requires forall j :: 0 <= j < |results| ==>
               (Error(at, TypeMismatch) in results[j] <==> FormBroken(lib, doc, s, v, j, [], TypeMismatch))
    ensures OnlyForm(lib, doc, s, v, i) <==> OnlyType(results, at, i)
  {
    hide FormBroken;
    if OnlyType(results, at, i) {
      assert TakesType(results, at, i);
      forall j | 0 <= j < |results| && j != i ensures FormBroken(lib, doc, s, v, j, [], TypeMismatch) {
        assert !TakesType(results, at, j);
      }
    }
  }

  lemma {:induction false} ChoiceErrorIs(lib: Library, doc: string, s: Schema, v: Instance, at: Pointer, e: Error)
    requires Sound(lib) && s.Rules? && Linked(lib, doc, s) && WellFormed(v) && s.parts.oneOf.OneOf?
    ensures e in Chosen(Results(lib, doc, s, v, at, |s.parts.oneOf.options|), at) <==>
              at <= e.pointer && ChoiceViolates(lib, doc, s, v, Below(at, e), e.message)
    decreases Height(v), Level(lib, doc, s), s, 0, |s.parts.oneOf.options| + 1
  {
    hide FormBroken, FormHolds, Chosen, Below, OnlyType, Results;
    var n := |s.parts.oneOf.options|;
    ResultsAre(lib, doc, s, v, at, n, e);
    ResultsAre(lib, doc, s, v, at, n, Error(at, TypeMismatch));
    BelowNext(at, "", e);
    BelowNext(at, "", Error(at, TypeMismatch));
    var results := Results(lib, doc, s, v, at, n);
    ChosenIs(results, at, e);
    if at <= e.pointer {
      ChoiceViolatesIs(lib, doc, s, v, Below(at, e), e.message);
    }
    hide ChoiceViolates;
    hide Results, FormBroken, FormHolds, Chosen, Below, OnlyType;
    forall i: nat | i < n ensures OnlyForm(lib, doc, s, v, i) <==> OnlyType(results, at, i) {
      OnlyTypedIs(lib, doc, s, v, at, results, i);
    }
    assert forall i :: OnlyType(results, at, i) ==> 0 <= i < n by { OnlyTypeWithin(results, at); }
    hide OnlyForm;
  }

  lemma OnlyTypeWithin(results: seq<seq<Error>>, at: Pointer)
    ensures forall i :: OnlyType(results, at, i) ==> 0 <= i < |results|
  {
  }

  // ---------------------------------------------------------------- where errors point

  /** The path leads to a part of the value. */
  ghost predicate Leads(v: Instance, path: Pointer)
    decreases |path|
  {
    || path == []
    || (v.Array? && exists i :: 0 <= i < |v.items| && path[0] == Token(i) && Leads(v.items[i], path[1..]))
    || (v.Object? && exists i :: 0 <= i < |v.fields| && path[0] == v.fields[i].key
                                 && Leads(v.fields[i].value, path[1..]))
  }

  /** The path leads to a field that a dictionary in the value does not have. */
  ghost predicate Lacks(v: Instance, path: Pointer)
    decreases |path|
  {
    || (|path| == 1 && v.Object? && !HasKey(v.fields, path[0]))
    || (path != [] && v.Array? && exists i :: 0 <= i < |v.items| && path[0] == Token(i)
                                             && Lacks(v.items[i], path[1..]))
    || (path != [] && v.Object? && exists i :: 0 <= i < |v.fields| && path[0] == v.fields[i].key
                                              && Lacks(v.fields[i].value, path[1..]))
  }

  /** Where an error may point: a missing field to what is missing, everything else to what is there. */
  ghost predicate Points(v: Instance, path: Pointer, m: Message) {
    if m == Missing then Lacks(v, path) else Leads(v, path)
  }

  lemma PointsItem(v: Instance, i: nat, path: Pointer, m: Message)
    requires v.Array? && i < |v.items| && path != [] && path[0] == Token(i) && Points(v.items[i], path[1..], m)
    ensures Points(v, path, m)
  {
    hide Token;
  }

  lemma PointsField(v: Instance, i: nat, path: Pointer, m: Message)
    requires v.Object? && i < |v.fields| && path != [] && path[0] == v.fields[i].key
    requires Points(v.fields[i].value, path[1..], m)
    ensures Points(v, path, m)
  {
  }

  lemma PointsHere(v: Instance, m: Message)
    requires m != Missing
    ensures Points(v, [], m)
    ensures v.Array? ==> forall i: nat :: i < |v.items| ==> Points(v, [Token(i)], m)
    ensures v.Object? ==> forall i :: 0 <= i < |v.fields| ==> Points(v, [v.fields[i].key], m)
  {
    hide Token;
    assert forall x: Instance :: Leads(x, []);
    if v.Array? {
      forall i: nat | i < |v.items| ensures Points(v, [Token(i)], m) {
        assert [Token(i)][1..] == [];
        PointsItem(v, i, [Token(i)], m);
      }
    }
    if v.Object? {
      forall i | 0 <= i < |v.fields| ensures Points(v, [v.fields[i].key], m) {
        assert [v.fields[i].key][1..] == [];
        PointsField(v, i, [v.fields[i].key], m);
      }
    }
  }

  /** Every violation is at a part of the value, or at a field one of its parts lacks. */
  lemma {:induction false} ViolationsPoint(lib: Library, doc: string, s: Schema, v: Instance, keep: set<string>,
                                           path: Pointer, m: Message)
    requires Sound(lib) && Linked(lib, doc, s) && Violates(lib, doc, s, v, keep, path, m)
    ensures Points(v, path, m)
    decreases Height(v), Level(lib, doc, s), s, 2, 0
  {
    hide Points;
    if m != Missing {
      PointsHere(v, m);
    }
    if s.Rules? {
      ViolatesRules(lib, doc, s, v, keep, path, m);
      hide Violates, ScalarBroken, ArrayViolates, ObjectViolates, PartsViolate, IsKind, TypeFits, Level, Height;
      if s.ref.Some? && ReferredViolates(lib, doc, s, v, path, m) {
        ReferredPoints(lib, doc, s, v, path, m);
      } else if v.Array? && ArrayViolates(lib, doc, s, v, path, m) {
        ArrayPoints(lib, doc, s, v, path, m);
      } else if v.Object? && ObjectViolates(lib, doc, s, v, keep, path, m) {
        ObjectPoints(lib, doc, s, v, keep, path, m);
      } else if PartsViolate(lib, doc, s, v, path, m) {
        PartsPoint(lib, doc, s, v, path, m);
      } else {
        ScalarHere(s.scalar, v, m);
      }
    }
  }

  ghost predicate ReferredViolates(lib: Library, doc: string, s: Schema, v: Instance, path: Pointer, m: Message)
    requires Sound(lib) && s.Rules? && Linked(lib, doc, s) && s.ref.Some?
  {
    var t := Target(doc, s.ref.value);
    Violates(lib, t.0, lib.schemas[t], v, {}, path, m)
  }

  lemma {:induction false} ReferredPoints(lib: Library, doc: string, s: Schema, v: Instance, path: Pointer, m: Message)
    requires Sound(lib) && s.Rules? && Linked(lib, doc, s) && s.ref.Some? && ReferredViolates(lib, doc, s, v, path, m)
    ensures Points(v, path, m)
    decreases Height(v), Level(lib, doc, s), s, 1, 1
  {
    hide Points, Violates;
    var t := Target(doc, s.ref.value);
    ViolationsPoint(lib, t.0, lib.schemas[t], v, {}, path, m);
  }

  lemma ScalarHere(r: Scalars, v: Instance, m: Message)
    ensures ScalarBroken(r, v, m) ==> m != Missing
  {
  }

  lemma {:induction false} ArrayPoints(lib: Library, doc: string, s: Schema, v: Instance, path: Pointer, m: Message)
    requires Sound(lib) && s.Rules? && Linked(lib, doc, s) && v.Array? && ArrayViolates(lib, doc, s, v, path, m)
    ensures Points(v, path, m)
    decreases Height(v), Level(lib, doc, s), s, 1, 0
  {
    ArrayViolatesIs(lib, doc, s, v, path, m);
    hide Points, ArrayViolates, ItemBroken, Token;
    if m != Missing {
      PointsHere(v, m);
    }
    if i :| 0 <= i < |v.items| && ItemBroken(lib, doc, s, v, i, path, m) {
      ItemSmaller(v, i);
      if s.list.items.Some? {
        ItemViolatesIs(lib, doc, s, v, i, path, m);
        ViolationsPoint(lib, doc, s.list.items.value, v.items[i], {}, path[1..], m);
        PointsItem(v, i, path, m);
      } else {
        NoItemViolates(lib, doc, s, v);
      }
    }
  }

  lemma {:induction false} ObjectPoints(lib: Library, doc: string, s: Schema, v: Instance, keep: set<string>,
                                        path: Pointer, m: Message)
    requires Sound(lib) && s.Rules? && Linked(lib, doc, s) && v.Object?
    requires ObjectViolates(lib, doc, s, v, keep, path, m)
    ensures Points(v, path, m)
    decreases Height(v), Level(lib, doc, s), s, 1, 0
  {
    ObjectViolatesIs(lib, doc, s, v, keep, path, m);
    hide ObjectViolates, FieldBroken;
    if i :| 0 <= i < |v.fields| && FieldBroken(lib, doc, s, v, i, path, m) {
      FieldPoints(lib, doc, s, v, i, path, m);
    } else if m != Missing {
      PointsHere(v, m);
      hide Points;
      if path != [] {
        var i :| 0 <= i < |v.fields| && v.fields[i].key == path[0];
        assert path == [v.fields[i].key];
      }
    }
  }

  lemma {:induction false} FieldPoints(lib: Library, doc: string, s: Schema, v: Instance, i: nat, path: Pointer,
                                       m: Message)
    requires Sound(lib) && s.Rules? && Linked(lib, doc, s) && v.Object? && i < |v.fields|
    requires FieldBroken(lib, doc, s, v, i, path, m)
    ensures Points(v, path, m)
    decreases Height(v), Level(lib, doc, s), s, 0, 0
  {
    FieldViolatesIs(lib, doc, s, v, i, path, m);
    FieldSmaller(v, i);
    hide FieldBroken, Violates, Points;
    if m != Missing {
      PointsHere(v, m);
    }
    var field := v.fields[i];
    var property := PropertyOf(s.fields.properties, field.key);
    if path != [field.key] || !(m.UnknownField? || m.FieldName?) {
      if property.Some? {
        ViolationsPoint(lib, doc, property.value, field.value, {}, path[1..], m);
      } else {
        ViolationsPoint(lib, doc, s.fields.extra.value, field.value, {}, path[1..], m);
      }
      PointsField(v, i, path, m);
    }
  }

  lemma {:induction false} PartsPoint(lib: Library, doc: string, s: Schema, v: Instance, path: Pointer, m: Message)
    requires Sound(lib) && s.Rules? && Linked(lib, doc, s) && PartsViolate(lib, doc, s, v, path, m)
    ensures Points(v, path, m)
    decreases Height(v), Level(lib, doc, s), s, 1, 0
  {
    hide PartsViolate, Points, ChoiceViolates, Violates, Satisfies, Named, PartBroken, Linked, Level, Height, Sound;
    PartsViolateIs(lib, doc, s, v, path, m);
    var p := s.parts;
    if i :| 0 <= i < |p.allOf| && PartBroken(lib, doc, s, v, i, path, m) {
      AllOfPoints(lib, doc, s, v, i, path, m);
    } else if p.oneOf.OneOf? && ChoiceViolates(lib, doc, s, v, path, m) {
      ChoicePoints(lib, doc, s, v, path, m);
    } else if m != Missing && path == [] {
      PointsHere(v, m);
    } else {
      ConsequencePoints(lib, doc, s, v, path, m);
    }
  }

  lemma {:induction false} AllOfPoints(lib: Library, doc: string, s: Schema, v: Instance, i: nat, path: Pointer,
                                       m: Message)
    requires Sound(lib) && s.Rules? && Linked(lib, doc, s) && i < |s.parts.allOf|
    requires PartBroken(lib, doc, s, v, i, path, m)
    ensures Points(v, path, m)
    decreases Height(v), Level(lib, doc, s), s, 0, 0
  {
    hide Points, Violates;
    AllOfLevel(lib, doc, s, i);
    ViolationsPoint(lib, doc, s.parts.allOf[i], v, {}, path, m);
  }

  lemma {:induction false} ConsequencePoints(lib: Library, doc: string, s: Schema, v: Instance, path: Pointer,
                                             m: Message)
    requires Sound(lib) && s.Rules? && Linked(lib, doc, s)
    requires s.parts.condition.Some? && s.parts.consequence.Some?
    requires Violates(lib, doc, s.parts.consequence.value, v, Named(s.parts.condition.value), path, m)
    ensures Points(v, path, m)
    decreases Height(v), Level(lib, doc, s), s, 0, 0
  {
    hide Points, Violates;
    ViolationsPoint(lib, doc, s.parts.consequence.value, v, Named(s.parts.condition.value), path, m);
  }

  lemma {:induction false} ChoicePoints(lib: Library, doc: string, s: Schema, v: Instance, path: Pointer, m: Message)
    requires Sound(lib) && s.Rules? && Linked(lib, doc, s) && s.parts.oneOf.OneOf?
    requires ChoiceViolates(lib, doc, s, v, path, m)
    ensures Points(v, path, m)
    decreases Height(v), Level(lib, doc, s), s, 0, 1
  {
    hide ChoiceViolates, Points, OnlyForm, FormHolds, Violates, FormBroken, Linked, Level, Height, Sound;
    ChoiceViolatesIs(lib, doc, s, v, path, m);
    if i :| 0 <= i < |s.parts.oneOf.options| && FormBroken(lib, doc, s, v, i, path, m) {
      FormPoints(lib, doc, s, v, i, path, m);
    } else {
      PointsHere(v, m);
    }
  }

  lemma {:induction false} FormPoints(lib: Library, doc: string, s: Schema, v: Instance, i: nat, path: Pointer,
                                      m: Message)
    requires Sound(lib) && s.Rules? && Linked(lib, doc, s) && s.parts.oneOf.OneOf? && i < |s.parts.oneOf.options|
    requires FormBroken(lib, doc, s, v, i, path, m)
    ensures Points(v, path, m)
    decreases Height(v), Level(lib, doc, s), s, 0, 0
  {
    hide Points, Violates;
    OneOfLevel(lib, doc, s, i);
    ViolationsPoint(lib, doc, s.parts.oneOf.options[i], v, {}, path, m);
  }

  /**
   The errors of a value are exactly its violations, each at its path; and each is at a part of the
   value, or at a field one of its parts lacks.
   */
  lemma ErrorsAreViolations(lib: Library, doc: string, s: Schema, v: Instance, at: Pointer, keep: set<string>,
                            path: Pointer, m: Message)
    requires Sound(lib) && Linked(lib, doc, s) && WellFormed(v)
    ensures Error(at + path, m) in Errors(lib, doc, s, v, at, keep) <==> Violates(lib, doc, s, v, keep, path, m)
    ensures forall e :: e in Errors(lib, doc, s, v, at, keep) ==>
              at <= e.pointer && Points(v, e.pointer[|at|..], e.message)
  {
    hide Errors, Violates, Points;
    var x := Error(at + path, m);
    ErrorIs(lib, doc, s, v, at, keep, x);
    assert Below(at, x) == path;
    forall e | e in Errors(lib, doc, s, v, at, keep)
      ensures at <= e.pointer && Points(v, e.pointer[|at|..], e.message)
    {
      ErrorIs(lib, doc, s, v, at, keep, e);
      ViolationsPoint(lib, doc, s, v, keep, Below(at, e), e.message);
    }
  }
}
