/** The error list is empty exactly for the values that satisfy the schema. */
module SchemaProperties {
  import opened Instances
  import opened SchemaCheck
  import Numerals

  lemma EmptySums()
    ensures forall a: seq<Error>, b: seq<Error> :: a + b == [] <==> a == [] && b == []
  {
  }

  lemma ScalarsDecide(r: Scalars, v: Instance, at: Pointer)
    requires WellFormed(v) && (r.constant.Some? ==> WellFormed(r.constant.value))
    requires r.enumeration.Some? ==> forall i :: 0 <= i < |r.enumeration.value| ==> WellFormed(r.enumeration.value[i])
    ensures ScalarErrors(r, v, at) == [] <==> ScalarHolds(r, v)
  {
    hide JsonEqual, Canonical, WellFormed;
    if r.constant.Some? {
      JsonEqualIsCanonical(v, r.constant.value);
    }
    if r.enumeration.Some? {
      forall i | 0 <= i < |r.enumeration.value|
        ensures JsonEqual(v, r.enumeration.value[i]) <==> Canonical(v) == Canonical(r.enumeration.value[i])
      {
        JsonEqualIsCanonical(v, r.enumeration.value[i]);
      }
    }
  }

  lemma {:induction false} DuplicatesDecide(items: seq<Instance>, at: Pointer)
    requires forall i :: 0 <= i < |items| ==> WellFormed(items[i])
    ensures DuplicateErrors(items, at) == [] <==> Unlike(items)
  {
    hide JsonEqual, Canonical, WellFormed;
    if items != [] {
      var n := |items| - 1;
      var some := items[..n];
      DuplicatesDecide(some, at);
      forall i | 0 <= i < n ensures JsonEqual(items[n], items[i]) <==> Canonical(items[i]) == Canonical(items[n]) {
        JsonEqualIsCanonical(items[n], items[i]);
      }
      assert forall i :: 0 <= i < n ==> some[i] == items[i];
    }
  }

  lemma {:induction false} MissingDecide(required: seq<string>, fields: seq<Member>, at: Pointer)
    ensures MissingErrors(required, fields, at) == [] <==> forall key :: key in required ==> HasKey(fields, key)
  {
    hide HasKey;
    if required != [] {
      var n := |required| - 1;
      MissingDecide(required[..n], fields, at);
      assert forall key :: key in required <==> key in required[..n] || key == required[n];
    }
  }

  /** How the branches of oneOf are counted, and which errors are shown instead. */
  lemma {:induction false} PassingCounts(results: seq<seq<Error>>)
    ensures Passing(results) == 0 <==> forall i :: 0 <= i < |results| ==> results[i] != []
    ensures Passing(results) == 1 <==> exists i :: OnlyAt(results, i)
  {
    if results != [] {
      var n := |results| - 1;
      var some := results[..n];
      PassingCounts(some);
      assert forall i :: 0 <= i < n ==> some[i] == results[i];
      if results[n] != [] {
        if i :| OnlyAt(some, i) {
          assert OnlyAt(results, i);
        }
        if i :| OnlyAt(results, i) {
          assert OnlyAt(some, i);
        }
      } else {
        if Passing(some) == 0 {
          assert OnlyAt(results, n);
        }
        if i :| OnlyAt(results, i) {
          assert i == n;
        }
      }
    }
  }

  ghost predicate OnlyAt(results: seq<seq<Error>>, i: int) {
    0 <= i < |results| && results[i] == [] && forall j :: 0 <= j < |results| && j != i ==> results[j] != []
  }

  lemma ChosenDecides(results: seq<seq<Error>>, at: Pointer)
    ensures Chosen(results, at) == [] <==> exists i :: OnlyAt(results, i)
  {
    PassingCounts(results);
    var typed := Typed(results, at);
    if Passing(results) == 0 && |typed| == 1 {
      assert typed[0] in results;
    }
  }

  // ---------------------------------------------------------------- the validator

  /**
   Whatever fields are kept for the pointer of an error, the validator lists no error exactly when
   the value satisfies the schema.
   */
  lemma {:induction false} ErrorsDecide(lib: Library, doc: string, s: Schema, v: Instance, at: Pointer,
                                        keep: set<string>)
    requires Sound(lib) && Linked(lib, doc, s) && WellFormed(v)
    ensures Errors(lib, doc, s, v, at, keep) == [] <==> Satisfies(lib, doc, s, v)
    decreases Height(v), Level(lib, doc, s), s, 2, 0
  {
    if s.Rules? {
      RulesErrors(lib, doc, s, v, at, keep);
      RulesHold(lib, doc, s, v);
      hide ScalarErrors, ScalarHolds, ArrayErrors, ArrayHolds, ObjectErrors, ObjectHolds, PartErrors, PartsHold,
           IsKind, Errors, Satisfies;
      if s.ref.Some? {
        var t := Target(doc, s.ref.value);
        ErrorsDecide(lib, t.0, lib.schemas[t], v, at, {});
      }
      ScalarsDecide(s.scalar, v, at);
      if v.Array? {
        ArrayDecides(lib, doc, s, v, at);
      }
      if v.Object? {
        ObjectDecides(lib, doc, s, v, at, keep);
      }
      PartsDecide(lib, doc, s, v, at);
    }
  }

  ghost predicate TypeFits(s: Schema, v: Instance)
    requires s.Rules?
  {
    s.types.Some? ==> exists i :: 0 <= i < |s.types.value| && IsKind(v, s.types.value[i])
  }

  /** What an empty error list of a schema with rules consists of. */
  lemma RulesErrors(lib: Library, doc: string, s: Schema, v: Instance, at: Pointer, keep: set<string>)
    requires Sound(lib) && s.Rules? && Linked(lib, doc, s)
    ensures Errors(lib, doc, s, v, at, keep) == [] <==>
              && (s.ref.Some? ==> var t := Target(doc, s.ref.value); Errors(lib, t.0, lib.schemas[t], v, at, {}) == [])
              && TypeFits(s, v) && ScalarErrors(s.scalar, v, at) == []
              && (v.Array? ==> ArrayErrors(lib, doc, s, v, at) == [])
              && (v.Object? ==> ObjectErrors(lib, doc, s, v, at, keep) == [])
              && PartErrors(lib, doc, s, v, at) == []
  {
    hide ScalarErrors, ArrayErrors, ObjectErrors, PartErrors, Level, Height;
  }

  lemma RulesHold(lib: Library, doc: string, s: Schema, v: Instance)
    requires Sound(lib) && s.Rules? && Linked(lib, doc, s)
    ensures Satisfies(lib, doc, s, v) <==>
              && (s.ref.Some? ==> var t := Target(doc, s.ref.value); Satisfies(lib, t.0, lib.schemas[t], v))
              && TypeFits(s, v) && ScalarHolds(s.scalar, v)
              && (v.Array? ==> ArrayHolds(lib, doc, s, v))
              && (v.Object? ==> ObjectHolds(lib, doc, s, v))
              && PartsHold(lib, doc, s, v)
  {
    hide ScalarHolds, ArrayHolds, ObjectHolds, PartsHold, Level, Height;
  }

  lemma {:induction false} ArrayDecides(lib: Library, doc: string, s: Schema, v: Instance, at: Pointer)
    requires Sound(lib) && s.Rules? && Linked(lib, doc, s) && v.Array? && WellFormed(v)
    ensures ArrayErrors(lib, doc, s, v, at) == [] <==> ArrayHolds(lib, doc, s, v)
    decreases Height(v), Level(lib, doc, s), s, 1, 0
  {
    EmptySums();
    hide Unlike, DuplicateErrors, Satisfies, Errors, ItemErrors;
    DuplicatesDecide(v.items, at);
    if s.list.items.Some? {
      ItemsDecide(lib, doc, s, v, at, |v.items|);
      forall i | 0 <= i < |v.items| ensures ItemHolds(lib, doc, s, v, i) <==>
        (ItemSmaller(v, i); Satisfies(lib, doc, s.list.items.value, v.items[i])) {
      }
    }
  }

  ghost predicate ItemHolds(lib: Library, doc: string, s: Schema, v: Instance, i: nat)
    requires Sound(lib) && s.Rules? && Linked(lib, doc, s) && v.Array? && i < |v.items| && s.list.items.Some?
  {
    Satisfies(lib, doc, s.list.items.value, v.items[i])
  }

  lemma {:induction false} ItemsDecide(lib: Library, doc: string, s: Schema, v: Instance, at: Pointer, n: nat)
    requires Sound(lib) && s.Rules? && Linked(lib, doc, s) && v.Array? && WellFormed(v) && n <= |v.items|
    requires s.list.items.Some?
    ensures ItemErrors(lib, doc, s, v, at, n) == [] <==> forall i :: 0 <= i < n ==> ItemHolds(lib, doc, s, v, i)
    decreases Height(v), Level(lib, doc, s), s, 0, n
  {
    EmptySums();
    hide Satisfies, Errors;
    if n > 0 {
      ItemSmaller(v, n - 1);
      ItemsDecide(lib, doc, s, v, at, n - 1);
      ErrorsDecide(lib, doc, s.list.items.value, v.items[n - 1], at + [Numerals.Digits(n - 1)], {});
      assert ItemHolds(lib, doc, s, v, n - 1) <==> Satisfies(lib, doc, s.list.items.value, v.items[n - 1]);
    }
  }

  lemma {:induction false} ObjectDecides(lib: Library, doc: string, s: Schema, v: Instance, at: Pointer,
                                         keep: set<string>)
    requires Sound(lib) && s.Rules? && Linked(lib, doc, s) && v.Object? && WellFormed(v)
    ensures ObjectErrors(lib, doc, s, v, at, keep) == [] <==> ObjectHolds(lib, doc, s, v)
    decreases Height(v), Level(lib, doc, s), s, 1, 0
  {
    EmptySums();
    hide FieldHolds, FieldErrors, MissingErrors, FirstExtra, HasKey;
    MissingDecide(s.fields.required, v.fields, at);
    FieldsDecide(lib, doc, s, v, at, |v.fields|);
    forall i | 0 <= i < |v.fields| ensures FieldPasses(lib, doc, s, v, i) <==> FieldHolds(lib, doc, s, v, i) {
    }
  }

  ghost predicate FieldPasses(lib: Library, doc: string, s: Schema, v: Instance, i: nat)
    requires Sound(lib) && s.Rules? && Linked(lib, doc, s) && v.Object? && i < |v.fields|
  {
    FieldHolds(lib, doc, s, v, i)
  }

  lemma {:induction false} FieldsDecide(lib: Library, doc: string, s: Schema, v: Instance, at: Pointer, n: nat)
    requires Sound(lib) && s.Rules? && Linked(lib, doc, s) && v.Object? && WellFormed(v) && n <= |v.fields|
    ensures FieldErrors(lib, doc, s, v, at, n) == [] <==> forall i :: 0 <= i < n ==> FieldPasses(lib, doc, s, v, i)
    decreases Height(v), Level(lib, doc, s), s, 0, n
  {
    EmptySums();
    hide Satisfies, Errors;
    if n > 0 {
      FieldSmaller(v, n - 1);
      var field := v.fields[n - 1];
      FieldsDecide(lib, doc, s, v, at, n - 1);
      var property := PropertyOf(s.fields.properties, field.key);
      if property.Some? {
        ErrorsDecide(lib, doc, property.value, field.value, at + [field.key], {});
      } else if s.fields.extra.Some? {
        ErrorsDecide(lib, doc, s.fields.extra.value, field.value, at + [field.key], {});
        NeverFails(lib, doc, s.fields.extra.value, field.value);
      }
      if s.fields.names.Some? {
        ErrorsDecide(lib, doc, s.fields.names.value, Text(field.key), at, {});
      }
      assert FieldErrors(lib, doc, s, v, at, n) == [] <==>
               FieldErrors(lib, doc, s, v, at, n - 1) == [] && FieldHolds(lib, doc, s, v, n - 1);
      assert FieldPasses(lib, doc, s, v, n - 1) <==> FieldHolds(lib, doc, s, v, n - 1);
    }
  }

  lemma NeverFails(lib: Library, doc: string, s: Schema, v: Instance)
    requires Sound(lib) && Linked(lib, doc, s)
    ensures s.Never? ==> !Satisfies(lib, doc, s, v)
  {
  }

  ghost predicate PartPasses(lib: Library, doc: string, s: Schema, v: Instance, i: nat)
    requires Sound(lib) && s.Rules? && Linked(lib, doc, s) && i < |s.parts.allOf|
  {
    PartHolds(lib, doc, s, v, i)
  }

  lemma {:induction false} PartsDecide(lib: Library, doc: string, s: Schema, v: Instance, at: Pointer)
    requires Sound(lib) && s.Rules? && Linked(lib, doc, s) && WellFormed(v)
    ensures PartErrors(lib, doc, s, v, at) == [] <==> PartsHold(lib, doc, s, v)
    decreases Height(v), Level(lib, doc, s), s, 1, 0
  {
    EmptySums();
    hide Satisfies, Errors, AllOfErrors, Results, Verdicts, Chosen, ExactlyOne, PartHolds;
    var p := s.parts;
    AllOfDecides(lib, doc, s, v, at, |p.allOf|);
    forall i | 0 <= i < |p.allOf| ensures PartPasses(lib, doc, s, v, i) <==> PartHolds(lib, doc, s, v, i) {
    }
    if p.oneOf.OneOf? {
      OneOfDecides(lib, doc, s, v, at);
    }
    if p.forbidden.Some? {
      ErrorsDecide(lib, doc, p.forbidden.value, v, at, {});
    }
    if p.condition.Some? && p.consequence.Some? {
      ErrorsDecide(lib, doc, p.condition.value, v, at, {});
      ErrorsDecide(lib, doc, p.consequence.value, v, at, Named(p.condition.value));
    }
  }

  lemma {:induction false} AllOfDecides(lib: Library, doc: string, s: Schema, v: Instance, at: Pointer, n: nat)
    requires Sound(lib) && s.Rules? && Linked(lib, doc, s) && WellFormed(v) && n <= |s.parts.allOf|
    ensures AllOfErrors(lib, doc, s, v, at, n) == [] <==> forall i :: 0 <= i < n ==> PartPasses(lib, doc, s, v, i)
    decreases Height(v), Level(lib, doc, s), s, 0, n
  {
    EmptySums();
    hide Satisfies, Errors;
    if n > 0 {
      AllOfLevel(lib, doc, s, n - 1);
      AllOfDecides(lib, doc, s, v, at, n - 1);
      ErrorsDecide(lib, doc, s.parts.allOf[n - 1], v, at, {});
      assert PartPasses(lib, doc, s, v, n - 1) <==> Satisfies(lib, doc, s.parts.allOf[n - 1], v);
    }
  }

  lemma {:induction false} ResultsDecide(lib: Library, doc: string, s: Schema, v: Instance, at: Pointer, n: nat)
    requires Sound(lib) && s.Rules? && Linked(lib, doc, s) && WellFormed(v) && s.parts.oneOf.OneOf?
    requires n <= |s.parts.oneOf.options|
    ensures forall i :: 0 <= i < n ==> (Results(lib, doc, s, v, at, n)[i] == [] <==> Verdicts(lib, doc, s, v, n)[i])
    decreases Height(v), Level(lib, doc, s), s, 0, n
  {
    hide Satisfies, Errors;
    if n > 0 {
      OneOfLevel(lib, doc, s, n - 1);
      ResultsDecide(lib, doc, s, v, at, n - 1);
      ErrorsDecide(lib, doc, s.parts.oneOf.options[n - 1], v, at, {});
    }
  }

  lemma {:induction false} OneOfDecides(lib: Library, doc: string, s: Schema, v: Instance, at: Pointer)
    requires Sound(lib) && s.Rules? && Linked(lib, doc, s) && WellFormed(v) && s.parts.oneOf.OneOf?
    ensures var n := |s.parts.oneOf.options|;
            Chosen(Results(lib, doc, s, v, at, n), at) == [] <==> ExactlyOne(Verdicts(lib, doc, s, v, n))
    decreases Height(v), Level(lib, doc, s), s, 0, |s.parts.oneOf.options| + 1
  {
    hide Chosen;
    var n := |s.parts.oneOf.options|;
    ResultsDecide(lib, doc, s, v, at, n);
    hide Results, Verdicts;
    var results, verdicts := Results(lib, doc, s, v, at, n), Verdicts(lib, doc, s, v, n);
    ChosenDecides(results, at);
    if i :| OnlyAt(results, i) {
      assert verdicts[i];
    }
    if i :| 0 <= i < n && verdicts[i] && forall j :: 0 <= j < n && j != i ==> !verdicts[j] {
      assert OnlyAt(results, i);
    }
  }
}
