/**
 Where exactly the scanner's offsets lie: at the place the writer put each part, inside the text of
 every value around it and apart from all others.
 */
module MemberOffsets {
  import opened Outcomes
  import opened Numerals
  import opened JsonText
  import opened MemberScanner
  import opened MemberProperties

  /** A part of a container: what marks it, its key or itself, and where its value starts. */
  datatype Spot = Spot(anchor: nat, value: nat)

  function ItemSpot(items: seq<Json>, inner: string, start: nat, token: string, n: nat): Option<Spot> {
    if items == [] then None
    else if Digits(n) == token then Some(Spot(start, start))
    else ItemSpot(items[1..], inner, start + |Write(items[0], inner)| + 2 + |inner|, token, n + 1)
  }

  function FieldSpot(fields: seq<Field>, inner: string, start: nat, token: string): Option<Spot> {
    if fields == [] then None
    else if fields[0].key == token then Some(Spot(start, start + |Quoted(token)| + 2))
    else FieldSpot(fields[1..], inner, start + |FieldText(fields[0], inner)| + 2 + |inner|, token)
  }

  /** Where the writer puts the part of a value that a token names, the value written at `at`. */
  function ChildSpot(v: Json, indent: string, at: nat, token: string): Option<Spot> {
    var inner := indent + "  ";
    match v
    case Array(items) => ItemSpot(items, inner, at + 2 + |inner|, token, 0)
    case Object(fields) => FieldSpot(fields, inner, at + 2 + |inner|, token)
    case _ => None
  }

  lemma {:induction false} ItemSpotFinds(items: seq<Json>, inner: string, start: nat, token: string, n: nat)
    ensures ItemSpot(items, inner, start, token, n).Some? <==> FindItem(items, token, n).Some?
  {
    hide Write, Digits;
    if items != [] && Digits(n) != token {
      ItemSpotFinds(items[1..], inner, start + |Write(items[0], inner)| + 2 + |inner|, token, n + 1);
    }
  }

  lemma {:induction false} FieldSpotFinds(fields: seq<Field>, inner: string, start: nat, token: string)
    ensures FieldSpot(fields, inner, start, token).Some? <==> FindField(fields, token).Some?
  {
    hide FieldText, Quoted;
    if fields != [] && fields[0].key != token {
      FieldSpotFinds(fields[1..], inner, start + |FieldText(fields[0], inner)| + 2 + |inner|, token);
    }
  }

  lemma ChildSpotFinds(v: Json, indent: string, at: nat, token: string)
    ensures ChildSpot(v, indent, at, token).Some? <==> Child(v, token).Some?
  {
    var inner := indent + "  ";
    if v.Array? {
      ItemSpotFinds(v.items, inner, at + 2 + |inner|, token, 0);
    } else if v.Object? {
      FieldSpotFinds(v.fields, inner, at + 2 + |inner|, token);
    }
  }

  /** Where the writer puts what a path names, in a value written at `at`. */
  function Where(v: Json, indent: string, at: nat, path: seq<string>): nat
    requires path != [] && ValidPath(v, path)
    decreases |path|
  {
    ChildSpotFinds(v, indent, at, path[0]);
    var s := ChildSpot(v, indent, at, path[0]).value;
    if |path| == 1 then s.anchor else Where(Child(v, path[0]).value, indent + "  ", s.value, path[1..])
  }

  // ---------------------------------------------------------------- inside

  lemma {:induction false} ItemSpotInside(items: seq<Json>, inner: string, start: nat, token: string, n: nat)
    requires FindItem(items, token, n).Some?
    ensures var s := ItemSpot(items, inner, start, token, n);
            && s.Some? && start <= s.value.anchor <= s.value.value
            && s.value.value + |Write(FindItem(items, token, n).value, inner)| <= start + |ItemsCore(items, inner)|
  {
    hide Write, Digits;
    if Digits(n) != token {
      ItemSpotInside(items[1..], inner, start + |Write(items[0], inner)| + 2 + |inner|, token, n + 1);
    }
  }

  lemma {:induction false} FieldSpotInside(fields: seq<Field>, inner: string, start: nat, token: string)
    requires FindField(fields, token).Some?
    ensures var s := FieldSpot(fields, inner, start, token);
            && s.Some? && start <= s.value.anchor <= s.value.value
            && s.value.value + |Write(FindField(fields, token).value, inner)| <= start + |FieldsCore(fields, inner)|
  {
    hide Write, Quoted;
    assert |FieldText(fields[0], inner)| == |Quoted(fields[0].key)| + 2 + |Write(fields[0].value, inner)|;
    if fields[0].key != token {
      FieldSpotInside(fields[1..], inner, start + |FieldText(fields[0], inner)| + 2 + |inner|, token);
    }
  }

  /** A part of a value is written inside the value's text. */
  lemma ChildInside(v: Json, indent: string, at: nat, token: string)
    requires Child(v, token).Some?
    ensures var s := ChildSpot(v, indent, at, token);
            && s.Some? && at < s.value.anchor <= s.value.value
            && s.value.value + |Write(Child(v, token).value, indent + "  ")| < at + |Write(v, indent)|
  {
    var inner := indent + "  ";
    var start := at + 2 + |inner|;
    if v.Array? {
      ItemSpotInside(v.items, inner, start, token, 0);
      CoreOfItems(v.items, inner);
      ArrayLength(v, indent);
      hide Write, ItemSpot, FindItem;
    } else {
      FieldSpotInside(v.fields, inner, start, token);
      CoreOfFields(v.fields, inner);
      ObjectLength(v, indent);
      hide Write, FieldSpot, FindField;
    }
  }

  lemma ArrayLength(v: Json, indent: string)
    requires v.Array? && v.items != []
    ensures |Write(v, indent)| == |WriteItems(v.items, indent + "  ")| + |indent| + 4
  {
    hide WriteItems;
  }

  lemma ObjectLength(v: Json, indent: string)
    requires v.Object? && v.fields != []
    ensures |Write(v, indent)| == |WriteFields(v.fields, indent + "  ")| + |indent| + 4
  {
    hide WriteFields;
  }

  /** Whatever a path names is marked inside the text of the value the path starts from. */
  lemma {:induction false} WhereInside(v: Json, indent: string, at: nat, path: seq<string>)
    requires path != [] && ValidPath(v, path)
    ensures at < Where(v, indent, at, path) < at + |Write(v, indent)|
    decreases |path|
  {
    hide Write, ChildSpot, Child;
    ChildInside(v, indent, at, path[0]);
    if |path| > 1 {
      WhereInside(Child(v, path[0]).value, indent + "  ", ChildSpot(v, indent, at, path[0]).value.value, path[1..]);
    }
  }

  // ---------------------------------------------------------------- apart

  lemma {:induction false} ItemSpotsApart(items: seq<Json>, inner: string, start: nat, t: string, u: string, n: nat)
    requires FindItem(items, t, n).Some? && FindItem(items, u, n).Some? && t != u
    ensures var a, b := ItemSpot(items, inner, start, t, n), ItemSpot(items, inner, start, u, n);
            && a.Some? && b.Some?
            && (a.value.value + |Write(FindItem(items, t, n).value, inner)| < b.value.anchor
                || b.value.value + |Write(FindItem(items, u, n).value, inner)| < a.value.anchor)
  {
    hide Write, Digits;
    var next := start + |Write(items[0], inner)| + 2 + |inner|;
    if Digits(n) == t {
      ItemSpotInside(items[1..], inner, next, u, n + 1);
    } else if Digits(n) == u {
      ItemSpotInside(items[1..], inner, next, t, n + 1);
    } else {
      ItemSpotsApart(items[1..], inner, next, t, u, n + 1);
    }
  }

  lemma {:induction false} FieldSpotsApart(fields: seq<Field>, inner: string, start: nat, t: string, u: string)
    requires FindField(fields, t).Some? && FindField(fields, u).Some? && t != u
    ensures var a, b := FieldSpot(fields, inner, start, t), FieldSpot(fields, inner, start, u);
            && a.Some? && b.Some?
            && (a.value.value + |Write(FindField(fields, t).value, inner)| < b.value.anchor
                || b.value.value + |Write(FindField(fields, u).value, inner)| < a.value.anchor)
  {
    hide Write, Quoted;
    assert |FieldText(fields[0], inner)| == |Quoted(fields[0].key)| + 2 + |Write(fields[0].value, inner)|;
    var next := start + |FieldText(fields[0], inner)| + 2 + |inner|;
    if fields[0].key == t {
      FieldSpotInside(fields[1..], inner, next, u);
    } else if fields[0].key == u {
      FieldSpotInside(fields[1..], inner, next, t);
    } else {
      FieldSpotsApart(fields[1..], inner, next, t, u);
    }
  }

  /** Two parts of a value are written apart. */
  lemma ChildrenApart(v: Json, indent: string, at: nat, t: string, u: string)
    requires Child(v, t).Some? && Child(v, u).Some? && t != u
    ensures var a, b, inner := ChildSpot(v, indent, at, t), ChildSpot(v, indent, at, u), indent + "  ";
            && a.Some? && b.Some?
            && (a.value.value + |Write(Child(v, t).value, inner)| < b.value.anchor
                || b.value.value + |Write(Child(v, u).value, inner)| < a.value.anchor)
  {
    var inner := indent + "  ";
    var start := at + 2 + |inner|;
    if v.Array? {
      ItemSpotsApart(v.items, inner, start, t, u, 0);
    } else {
      FieldSpotsApart(v.fields, inner, start, t, u);
    }
  }

  /** A path stays within what its first token names. */
  lemma WhereWithin(v: Json, indent: string, at: nat, path: seq<string>)
    requires path != [] && ValidPath(v, path)
    ensures var s := ChildSpot(v, indent, at, path[0]);
            && s.Some? && s.value.anchor <= Where(v, indent, at, path)
            && Where(v, indent, at, path) <= s.value.value + |Write(Child(v, path[0]).value, indent + "  ")|
            && (|path| > 1 ==> s.value.anchor < Where(v, indent, at, path))
  {
    hide Write, ChildSpot, Child;
    ChildInside(v, indent, at, path[0]);
    if |path| > 1 {
      WhereInside(Child(v, path[0]).value, indent + "  ", ChildSpot(v, indent, at, path[0]).value.value, path[1..]);
    }
  }

  /** Different paths name different places. */
  lemma {:induction false} WhereDiffers(v: Json, indent: string, at: nat, p: seq<string>, q: seq<string>)
    requires p != [] && q != [] && p != q && ValidPath(v, p) && ValidPath(v, q)
    ensures Where(v, indent, at, p) != Where(v, indent, at, q)
    decreases |p|
  {
    WhereWithin(v, indent, at, p);
    WhereWithin(v, indent, at, q);
    hide Write, ChildSpot, Child;
    if p[0] != q[0] {
      ChildrenApart(v, indent, at, p[0], q[0]);
    } else if |p| > 1 && |q| > 1 {
      assert p == [p[0]] + p[1..] && q == [q[0]] + q[1..];
      WhereDiffers(Child(v, p[0]).value, indent + "  ", ChildSpot(v, indent, at, p[0]).value.value, p[1..], q[1..]);
    } else {
      assert p == [p[0]] + p[1..] && q == [q[0]] + q[1..];
    }
  }

  // ---------------------------------------------------------------- what the scanner records

  /** A place below `path` is where the writer put what the rest of its path names. */
  ghost predicate Exact(p: Place, v: Json, indent: string, at: nat, path: seq<string>) {
    && |path| < |p.path| && p.path[..|path|] == path && ValidPath(v, p.path[|path|..])
    && p.offset == Where(v, indent, at, p.path[|path|..])
  }

  /** The same for one part, given what its token names and where. */
  ghost predicate ExactIn(p: Place, c: Option<Json>, s: Option<Spot>, inner: string, path: seq<string>) {
    && |path| < |p.path| && p.path[..|path|] == path && c.Some? && s.Some? && ValidPath(c.value, p.path[|path| + 1..])
    && p.offset == if |p.path| == |path| + 1 then s.value.anchor else Where(c.value, inner, s.value.value,
                                                                            p.path[|path| + 1..])
  }

  lemma ExactChild(p: Place, v: Json, indent: string, at: nat, path: seq<string>)
    requires |path| < |p.path|
    requires ExactIn(p, Child(v, p.path[|path|]), ChildSpot(v, indent, at, p.path[|path|]), indent + "  ", path)
    ensures Exact(p, v, indent, at, path)
  {
    hide Child, ChildSpot;
    var rest := p.path[|path|..];
    assert rest[0] == p.path[|path|] && rest[1..] == p.path[|path| + 1..];
  }

  /** The places of one part: its mark and what lies inside its value. */
  lemma ExactPart(places: seq<Place>, c: Json, s: Spot, inner: string, path: seq<string>, token: string)
    requires places == Places(c, inner, s.value, path + [token], s.anchor)
    requires forall k :: 0 <= k < |places| - 1 ==>
               Exact(InnerPlaces(c, inner, s.value, path + [token])[k], c, inner, s.value, path + [token])
    requires |places| == |InnerPlaces(c, inner, s.value, path + [token])| + 1
    ensures forall k :: 0 <= k < |places| ==>
              |path| < |places[k].path| && places[k].path[|path|] == token
                && ExactIn(places[k], Some(c), Some(s), inner, path)
  {
    hide InnerPlaces, Where, ValidPath, Child;
    var deep := path + [token];
    forall k | 0 <= k < |places|
      ensures |path| < |places[k].path| && places[k].path[|path|] == token
      ensures ExactIn(places[k], Some(c), Some(s), inner, path)
    {
      if k == 0 {
        assert places[0] == Place(deep, s.anchor) && deep[..|path|] == path && deep[|path| + 1..] == [];
        assert ValidPath(c, []) by { EmptyIsValid(c); }
      } else {
        var p := places[k];
        assert p == InnerPlaces(c, inner, s.value, deep)[k - 1];
        assert p.path[..|deep|] == deep;
        assert p.path[..|path|] == p.path[..|deep|][..|path|] == path;
        assert p.path[|path|] == p.path[..|deep|][|path|] == token;
      }
    }
  }

  lemma EmptyIsValid(v: Json)
    ensures ValidPath(v, [])
  {
  }

  lemma {:induction false} InnerExact(v: Json, indent: string, at: nat, path: seq<string>)
    requires Writable(v)
    ensures forall p :: p in InnerPlaces(v, indent, at, path) ==> Exact(p, v, indent, at, path)
    decreases v, 0
  {
    hide Exact, ExactIn, Where, ValidPath;
    var inner := indent + "  ";
    var start := at + 2 + |inner|;
    if v.Array? && v.items != [] {
      ItemsExact(v.items, inner, start, path, 0);
      forall p | p in ItemPlaces(v.items, inner, start, path, 0) ensures Exact(p, v, indent, at, path) {
        ExactChild(p, v, indent, at, path);
      }
    } else if v.Object? && v.fields != [] {
      FieldsExact(v.fields, inner, start, path);
      forall p | p in FieldPlaces(v.fields, inner, start, path) ensures Exact(p, v, indent, at, path) {
        ExactChild(p, v, indent, at, path);
      }
    }
  }

  lemma InDeeper(p: Place, c: Option<Json>, s: Option<Spot>, inner: string, path: seq<string>)
    requires ExactIn(p, c, s, inner, path)
    ensures |path| < |p.path|
  {
  }

  lemma {:induction false} ItemsExact(items: seq<Json>, inner: string, start: nat, path: seq<string>, n: nat)
    requires items != [] && forall i :: 0 <= i < |items| ==> Writable(items[i])
    ensures forall p :: p in ItemPlaces(items, inner, start, path, n) ==>
              |path| < |p.path|
              && ExactIn(p, FindItem(items, p.path[|path|], n), ItemSpot(items, inner, start, p.path[|path|], n),
                         inner, path)
    decreases items, 1
  {
    var token := Digits(n);
    InnerExact(items[0], inner, start, path + [token]);
    var here := Places(items[0], inner, start, path + [token], start);
    ExactPart(here, items[0], Spot(start, start), inner, path, token);
    if |items| > 1 {
      var next := start + |Write(items[0], inner)| + 2 + |inner|;
      ItemsExact(items[1..], inner, next, path, n + 1);
      var rest := ItemPlaces(items[1..], inner, next, path, n + 1);
      hide Digits, Write, Exact, Where, Places, ItemPlaces, ValidPath, Writable;
      forall p | p in rest
        ensures |path| < |p.path|
        ensures ExactIn(p, FindItem(items, p.path[|path|], n), ItemSpot(items, inner, start, p.path[|path|], n),
                        inner, path)
      {
        LaterToken(items[1..], p.path[|path|], n);
      }
    }
  }

  /** The token of a later item is not that of an earlier one. */
  lemma LaterToken(items: seq<Json>, token: string, n: nat)
    requires FindItem(items, token, n + 1).Some?
    ensures token != Digits(n)
  {
    FindItemFinds(items, token, n + 1);
    var m :| n + 1 <= m < n + 1 + |items| && token == Digits(m);
    DigitsReadBack(n);
    DigitsReadBack(m);
  }

  lemma {:induction false} FieldsExact(fields: seq<Field>, inner: string, start: nat, path: seq<string>)
    requires fields != [] && UniqueKeys(fields) && forall i :: 0 <= i < |fields| ==> Writable(fields[i].value)
    ensures forall p :: p in FieldPlaces(fields, inner, start, path) ==>
              |path| < |p.path|
              && ExactIn(p, FindField(fields, p.path[|path|]), FieldSpot(fields, inner, start, p.path[|path|]),
                         inner, path)
    decreases fields, 1
  {
    var token := fields[0].key;
    var value := start + |Quoted(token)| + 2;
    InnerExact(fields[0].value, inner, value, path + [token]);
    var here := Places(fields[0].value, inner, value, path + [token], start);
    ExactPart(here, fields[0].value, Spot(start, value), inner, path, token);
    if |fields| > 1 {
      var next := start + |FieldText(fields[0], inner)| + 2 + |inner|;
      assert |FieldText(fields[0], inner)| == |Quoted(token)| + 2 + |Write(fields[0].value, inner)|;
      FieldsExact(fields[1..], inner, next, path);
      var rest := FieldPlaces(fields[1..], inner, next, path);
      hide Write, Quoted, FieldText, Exact, Where, Places, FieldPlaces, ValidPath, Writable;
      forall p | p in rest
        ensures |path| < |p.path|
        ensures ExactIn(p, FindField(fields, p.path[|path|]), FieldSpot(fields, inner, start, p.path[|path|]),
                        inner, path)
      {
        LaterKey(fields, p.path[|path|]);
      }
    }
  }

  lemma LaterKey(fields: seq<Field>, token: string)
    requires UniqueKeys(fields) && fields != [] && FindField(fields[1..], token).Some?
    ensures token != fields[0].key
  {
    FindFieldFinds(fields[1..], token);
    var m :| 0 <= m < |fields[1..]| && token == fields[1..][m].key;
    assert fields[m + 1].key == token;
  }

  /**
   The offsets recorded for a written value are exactly where the writer put what each pointer names:
   different pointers have different offsets, and each lies inside the text of every value around it.
   */
  lemma OffsetsAreExact(v: Json)
    requires Writable(v)
    ensures var found := ScanValue(Write(v, "") + "\n", 0, map[], "", None).found;
            && (forall path :: path != [] && ValidPath(v, path) ==>
                  Join(path) in found && found[Join(path)] == Where(v, "", 0, path)
                    && 0 < found[Join(path)] < |Write(v, "")|)
            && (forall p, q :: p != [] && q != [] && p != q && ValidPath(v, p) && ValidPath(v, q) ==>
                  Join(p) in found && Join(q) in found && found[Join(p)] != found[Join(q)])
  {
    var text := Write(v, "") + "\n";
    var places := Places(v, "", 0, [], 0);
    DocumentScanned(v, text);
    DocumentCharted(v, text, places);
    InnerExact(v, "", 0, []);
    var inner := InnerPlaces(v, "", 0, []);
    assert places == [Place([], 0)] + inner;
    hide Write, ScanValue, Places, InnerPlaces, ValidPath, Where, Writable, Marks, Join;
    DefaultsExact(map[], places);
    hide Defaults;
    var found := Defaults(map[], places);
    forall path | path != [] && ValidPath(v, path)
      ensures Join(path) in found && found[Join(path)] == Where(v, "", 0, path)
      ensures 0 < found[Join(path)] < |Write(v, "")|
    {
      assert Has(places, path);
      var k :| 0 <= k < |places| && places[k].path == path;
      assert places[k] == inner[k - 1];
      assert Exact(inner[k - 1], v, "", 0, []);
      assert path[0..] == path;
      WhereInside(v, "", 0, path);
    }
    forall p, q | p != [] && q != [] && p != q && ValidPath(v, p) && ValidPath(v, q)
      ensures Join(p) in found && Join(q) in found && found[Join(p)] != found[Join(q)]
    {
      WhereDiffers(v, "", 0, p, q);
    }
  }
}
