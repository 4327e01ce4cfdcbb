/** JSON values as the schema validator sees them, and their equality. */
module Instances {
  /** A loaded JSON value; a dictionary is the list of its fields in reading order. */
  datatype Instance =
    | Null
    | Bool(b: bool)
    | Number(x: real)
    | Text(s: string)
    | Array(items: seq<Instance>)
    | Object(fields: seq<Member>)

  datatype Member = Member(key: string, value: Instance)

  predicate HasKey(fields: seq<Member>, key: string) {
    exists i :: 0 <= i < |fields| && fields[i].key == key
  }

  predicate UniqueKeys(fields: seq<Member>) {
    forall i, j :: 0 <= i < j < |fields| ==> fields[i].key != fields[j].key
  }

  /** Keys are unique at every level, as the loader ensures. */
  predicate WellFormed(v: Instance) {
    match v
    case Array(items) => forall i :: 0 <= i < |items| ==> WellFormed(items[i])
    case Object(fields) => UniqueKeys(fields) && forall i :: 0 <= i < |fields| ==> WellFormed(fields[i].value)
    case _ => true
  }

  // ---------------------------------------------------------------- equality

  function IndexOf(fields: seq<Member>, key: string): (i: nat)
    requires HasKey(fields, key)
    ensures i < |fields| && fields[i].key == key
  {
    if fields[0].key == key then 0
    else
      assert HasKey(fields[1..], key) by {
        var j :| 0 <= j < |fields| && fields[j].key == key;
        assert fields[1..][j - 1].key == key;
      }
      1 + IndexOf(fields[1..], key)
  }

  /** JSON equality: booleans differ from numbers, the order of fields does not matter. */
  predicate JsonEqual(a: Instance, b: Instance) {
    if a.Bool? || b.Bool? then a == b
    else if a.Number? && b.Number? then a.x == b.x
    else if a.Array? && b.Array? then
      |a.items| == |b.items| && forall i :: 0 <= i < |a.items| ==> JsonEqual(a.items[i], b.items[i])
    else if a.Object? && b.Object? then
      && (forall i :: 0 <= i < |b.fields| ==> HasKey(a.fields, b.fields[i].key))
      && (forall i :: 0 <= i < |a.fields| ==>
            HasKey(b.fields, a.fields[i].key)
            && JsonEqual(a.fields[i].value, b.fields[IndexOf(b.fields, a.fields[i].key)].value))
    else a == b
  }

  /** A value without the order of its fields. */
  datatype Canon =
    | CNull
    | CBool(b: bool)
    | CNumber(x: real)
    | CText(s: string)
    | CArray(items: seq<Canon>)
    | CObject(fields: map<string, Canon>)

  ghost function Canonical(v: Instance): Canon {
    match v
    case Null => CNull
    case Bool(b) => CBool(b)
    case Number(x) => CNumber(x)
    case Text(s) => CText(s)
    case Array(items) => CArray(seq(|items|, i requires 0 <= i < |items| => Canonical(items[i])))
    case Object(fields) => CObject(CanonFields(fields))
  }

  ghost function CanonFields(fields: seq<Member>): map<string, Canon> {
    map k | k in KeySet(fields) :: Canonical(fields[FirstIndex(fields, k)].value)
  }

  ghost function KeySet(fields: seq<Member>): set<string> {
    set i | 0 <= i < |fields| :: fields[i].key
  }

  ghost function FirstIndex(fields: seq<Member>, key: string): (i: nat)
    requires key in KeySet(fields)
    ensures i < |fields| && fields[i].key == key
  {
    var i :| 0 <= i < |fields| && fields[i].key == key;
    i
  }

  /** The equality the validator computes is sameness without the order of fields. */
  lemma {:induction false} JsonEqualIsCanonical(a: Instance, b: Instance)
    requires WellFormed(a) && WellFormed(b)
    ensures JsonEqual(a, b) <==> Canonical(a) == Canonical(b)
    decreases a
  {
    if a.Array? && b.Array? {
      if |a.items| == |b.items| {
        forall i | 0 <= i < |a.items| ensures JsonEqual(a.items[i], b.items[i]) <==>
          Canonical(a.items[i]) == Canonical(b.items[i]) {
          JsonEqualIsCanonical(a.items[i], b.items[i]);
        }
        if Canonical(a) == Canonical(b) {
          forall i | 0 <= i < |a.items| ensures Canonical(a.items[i]) == Canonical(b.items[i]) {
            assert Canonical(a).items[i] == Canonical(b).items[i];
          }
        }
      } else {
        assert |Canonical(a).items| != |Canonical(b).items|;
      }
    } else if a.Object? && b.Object? {
      forall i | 0 <= i < |a.fields| && HasKey(b.fields, a.fields[i].key)
        ensures var j := IndexOf(b.fields, a.fields[i].key);
                JsonEqual(a.fields[i].value, b.fields[j].value) <==>
                Canonical(a.fields[i].value) == Canonical(b.fields[j].value)
      {
        JsonEqualIsCanonical(a.fields[i].value, b.fields[IndexOf(b.fields, a.fields[i].key)].value);
      }
      ObjectsEqual(a.fields, b.fields);
    }
  }

  lemma KeysOf(fields: seq<Member>)
    ensures forall k :: k in KeySet(fields) <==> HasKey(fields, k)
    ensures CanonFields(fields).Keys == KeySet(fields)
    ensures UniqueKeys(fields) ==> forall i :: 0 <= i < |fields| ==>
              CanonFields(fields)[fields[i].key] == Canonical(fields[i].value)
  {
    hide Canonical;
  }

  lemma KeysCovered(a: seq<Member>, b: seq<Member>)
    ensures KeySet(a) <= KeySet(b) <==> forall i :: 0 <= i < |a| ==> HasKey(b, a[i].key)
  {
    if KeySet(a) <= KeySet(b) {
      forall i | 0 <= i < |a| ensures HasKey(b, a[i].key) {
        assert a[i].key in KeySet(a);
      }
    }
  }

  lemma ObjectsEqual(a: seq<Member>, b: seq<Member>)
    requires UniqueKeys(a) && UniqueKeys(b)
    ensures CanonFields(a) == CanonFields(b) <==>
              && (forall i :: 0 <= i < |b| ==> HasKey(a, b[i].key))
              && (forall i :: 0 <= i < |a| ==>
                    HasKey(b, a[i].key) && Canonical(a[i].value) == Canonical(b[IndexOf(b, a[i].key)].value))
  {
    KeysOf(a);
    KeysOf(b);
    KeysCovered(a, b);
    KeysCovered(b, a);
    hide Canonical, CanonFields, UniqueKeys, HasKey, KeySet;
    var ca, cb := CanonFields(a), CanonFields(b);
    if ca == cb {
      forall i | 0 <= i < |a| ensures HasKey(b, a[i].key)
                 && Canonical(a[i].value) == Canonical(b[IndexOf(b, a[i].key)].value) {
        assert HasKey(b, a[i].key);
        var j := IndexOf(b, a[i].key);
        assert ca[a[i].key] == cb[b[j].key];
      }
    } else if KeySet(a) == KeySet(b) {
      var k :| k in ca && ca[k] != cb[k];
      var i := IndexOf(a, k);
      assert HasKey(b, a[i].key) ==> cb[k] == Canonical(b[IndexOf(b, a[i].key)].value);
    }
  }
}
