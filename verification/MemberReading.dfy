/**
 The scanner on any text that loads, whoever wrote it: it consumes what the reader consumes, and records
 exactly the JSON Pointers of the value read, each where reading gives what it names.
 */
module MemberReading {
  import opened Outcomes
  import opened Numerals
  import opened JsonText
  import opened MemberScanner
  import opened MemberProperties

  // ---------------------------------------------------------------- one offset

  /**
   Reading at the offset gives what a path names: the item itself, or the member with its key. The
   offset is at the first character, past white space.
   */
  ghost predicate ReadsAt(text: string, offset: nat, v: Json, path: seq<string>)
    requires path != [] && ValidPath(v, path)
    decreases |path|
  {
    && offset < |text| && !IsSpace(text[offset])
    && var part := Child(v, path[0]).value;
       if |path| > 1 then ReadsAt(text, offset, part, path[1..])
       else if v.Object? then exists rest :: ReadField(text[offset..]) == Some((Field(path[0], part), rest))
       else exists rest :: ReadValue(text[offset..]) == Some((part, rest))
  }

  /** What a value can be followed by in a text that loads. */
  ghost predicate Ends(rest: string) {
    rest == "" || EndsToken(rest[0])
  }

  // ---------------------------------------------------------------- scanner and reader in step

  lemma {:induction false} SkipIs(text: string, i: nat)
    requires i <= |text|
    ensures Skip(text[i..]) == text[SpaceEnd(text, i)..]
    decreases |text| - i
  {
    if i < |text| && IsSpace(text[i]) {
      assert text[i..][1..] == text[i + 1..];
      SkipIs(text, i + 1);
    }
  }

  lemma {:induction false} SkipTwice(s: string)
    ensures Skip(Skip(s)) == Skip(s)
    ensures Skip(s) == "" || !IsSpace(Skip(s)[0])
  {
    if s != "" && IsSpace(s[0]) {
      SkipTwice(s[1..]);
    }
  }

  lemma ExpectIs(text: string, i: nat, c: char)
    requires i <= |text|
    ensures ScanExpect(text, i, c).Some? <==> Expect(text[i..], c).Some?
    ensures ScanExpect(text, i, c).Some? ==> Expect(text[i..], c) == Some(text[ScanExpect(text, i, c).value..])
  {
    SkipIs(text, i);
    var j := SpaceEnd(text, i);
    if j < |text| {
      assert text[j..][0] == text[j] && text[j..][1..] == text[j + 1..];
    }
  }

  /** A value that is followed by an expected separator ends there. */
  lemma ExpectEnds(rest: string, c: char)
    requires Expect(rest, c).Some? && c in [',', ']', '}']
    ensures Ends(rest)
  {
  }

  lemma EscapeSuffix(s: string)
    requires ScanEscape(s).Some?
    ensures s[|s| - |ScanEscape(s).value.1|..] == ScanEscape(s).value.1
  {
  }

  lemma {:induction false} StringSuffix(s: string)
    requires ScanString(s).Some?
    ensures s[|s| - |ScanString(s).value.1|..] == ScanString(s).value.1
    decreases |s|
  {
    var rest := ScanString(s).value.1;
    hide ScanEscape;
    if s[0] == '\\' {
      EscapeSuffix(s[1..]);
      var t := ScanEscape(s[1..]).value.1;
      StringSuffix(t);
      assert t == s[|s| - |t|..];
      assert s[|s| - |rest|..] == t[|t| - |rest|..];
    } else if s[0] != '"' {
      StringSuffix(s[1..]);
      assert s[|s| - |rest|..] == s[1..][|s| - 1 - |rest|..];
    }
  }

  lemma QuotedIs(text: string, i: nat)
    requires i <= |text|
    ensures var e := Expect(text[i..], '"');
            if e.None? || ScanString(e.value).None? then ScanQuoted(text, i).None?
            else
              && ScanQuoted(text, i).Some? && ScanQuoted(text, i).value.0 == ScanString(e.value).value.0
              && text[ScanQuoted(text, i).value.1..] == ScanString(e.value).value.1
  {
    hide ScanString, SpaceEnd, Expect, ScanExpect;
    ExpectIs(text, i, '"');
    var j := ScanExpect(text, i, '"');
    if j.Some? && ScanString(text[j.value..]).Some? {
      StringSuffix(text[j.value..]);
      var rest := ScanString(text[j.value..]).value.1;
      assert text[|text| - |rest|..] == text[j.value..][|text| - j.value - |rest|..];
    }
  }

  // ---------------------------------------------------------------- numbers and words

  ghost predicate Plain(s: string) {
    forall k :: 0 <= k < |s| ==> !EndsToken(s[k])
  }

  lemma ExponentToken(s: string) returns (token: string)
    requires ReadExponent(s).Some?
    ensures s == token + ReadExponent(s).value.1 && Plain(token)
  {
    if s[1] in ['+', '-'] {
      var r := TakeDigits(s[2..]);
      token := s[..2] + r.0;
      assert s == s[..2] + s[2..];
    } else {
      var r := TakeDigits(s[1..]);
      token := s[..1] + r.0;
      assert s == s[..1] + s[1..];
    }
  }

  lemma FractionToken(s: string) returns (token: string)
    ensures s == token + ReadFraction(s).1 && Plain(token)
  {
    token := "";
    if s != "" && s[0] == '.' && TakeDigits(s[1..]).0 != "" {
      token := "." + TakeDigits(s[1..]).0;
      assert s == "." + s[1..];
    }
  }

  lemma UnsignedToken(s: string, negative: bool) returns (token: string)
    requires ReadUnsigned(s, negative).Some?
    ensures s == token + ReadUnsigned(s, negative).value.1 && Plain(token)
    ensures token != "" && IsDigit(token[0])
  {
    hide ReadFraction, ReadExponent, TakeDigits, DigitsValue;
    var w := ReadWhole(s);
    var f := FractionToken(w.1);
    token := w.0;
    if ReadExponent(ReadFraction(w.1).1).Some? {
      var e := ExponentToken(ReadFraction(w.1).1);
      token := w.0 + f + e;
    } else if ReadFraction(w.1).0 != "" {
      token := w.0 + f;
    }
  }

  lemma NumberToken(s: string) returns (token: string)
    requires ReadNumber(s).Some?
    ensures s == token + ReadNumber(s).value.1 && Plain(token)
    ensures token != "" && (IsDigit(token[0]) || token[0] == '-')
  {
    hide ReadUnsigned;
    if s != "" && s[0] == '-' {
      var t := UnsignedToken(s[1..], true);
      token := "-" + t;
      assert s == "-" + s[1..];
    } else {
      token := UnsignedToken(s, false);
    }
  }

  lemma {:induction false} TokenPassed(text: string, i: nat, token: string, rest: string)
    requires i <= |text| && text[i..] == token + rest && Plain(token) && Ends(rest)
    ensures i + |token| <= |text| && TokenEnd(text, i) == i + |token| && text[i + |token|..] == rest
    decreases |token|
  {
    assert |text| - i == |token| + |rest|;
    if token == "" {
      assert rest != "" ==> text[i] == text[i..][0] == rest[0];
    } else {
      assert text[i] == text[i..][0] == token[0];
      assert text[i + 1..] == text[i..][1..] == token[1..] + rest;
      TokenPassed(text, i + 1, token[1..], rest);
    }
  }

  /** The token of a number or a word, from its first character on. */
  lemma WordToken(t: string) returns (token: string)
    requires t != "" && !IsSpace(t[0]) && t[0] !in ['{', '[', '"'] && ReadValue(t).Some?
    ensures t == token + ReadValue(t).value.1 && Plain(token)
    ensures !ReadValue(t).value.0.Array? && !ReadValue(t).value.0.Object?
  {
    hide ReadNumber, ReadItems, ReadFields, ScanString;
    assert Skip(t) == t;
    if "null" <= t {
      token := "null";
      assert t == t[..4] + t[4..];
    } else if "true" <= t {
      token := "true";
      assert t == t[..4] + t[4..];
    } else if "false" <= t {
      token := "false";
      assert t == t[..5] + t[5..];
    } else {
      token := NumberToken(t);
      NumberIsScalar(t);
    }
  }

  lemma NumberIsScalar(s: string)
    requires ReadNumber(s).Some?
    ensures ReadNumber(s).value.0.Int? || ReadNumber(s).value.0.Number?
  {
  }

  // ---------------------------------------------------------------- what a scan records

  /** No pointer below the path through these tokens is recorded yet. */
  ghost predicate Fresh(found: Offsets, path: seq<string>, tokens: iset<string>) {
    forall q: seq<string> :: q != [] && q[0] in tokens ==> Unrecorded(found, path, q)
  }

  ghost predicate Unrecorded(found: Offsets, path: seq<string>, q: seq<string>) {
    Join(path + q) !in found
  }

  /** The pointer is recorded where reading gives its part. */
  ghost predicate RecordedAt(text: string, v: Json, path: seq<string>, q: seq<string>, found: Offsets) {
    Join(path + q) in found && q != [] && ValidPath(v, q) && ReadsAt(text, found[Join(path + q)], v, q)
  }

  /** The scan added exactly the pointers of v through these tokens, each where reading gives its part. */
  ghost predicate Records(text: string, v: Json, path: seq<string>, tokens: iset<string>, before: Offsets,
                          after: Offsets) {
    && (forall key :: key in before ==> key in after && after[key] == before[key])
    && (forall q: seq<string> :: q != [] && q[0] in tokens && ValidPath(v, q) ==>
          RecordedAt(text, v, path, q, after))
    && (forall key :: key in after ==> key in before || Named(v, path, tokens, key))
  }

  ghost predicate Named(v: Json, path: seq<string>, tokens: iset<string>, key: string) {
    exists q: seq<string> :: q != [] && q[0] in tokens && ValidPath(v, q) && key == Join(path + q)
  }

  lemma RecordsNothing(text: string, v: Json, path: seq<string>, found: Offsets)
    ensures Records(text, v, path, iset{}, found, found)
  {
  }

  lemma RecordsBoth(text: string, v: Json, path: seq<string>, s: iset<string>, t: iset<string>, before: Offsets,
                    mid: Offsets, after: Offsets)
    requires Records(text, v, path, s, before, mid) && Records(text, v, path, t, mid, after)
    ensures Records(text, v, path, s + t, before, after)
  {
    hide ReadsAt, ValidPath, Join;
    forall q: seq<string> | q != [] && q[0] in s && ValidPath(v, q) ensures RecordedAt(text, v, path, q, after) {
      assert RecordedAt(text, v, path, q, mid);
    }
    hide RecordedAt;
    forall key | key in after ensures key in before || Named(v, path, s + t, key) {
      if key !in before && key in mid {
        assert Named(v, path, s, key);
      } else if key !in before {
        assert Named(v, path, t, key);
      }
    }
  }

  lemma FreshAfter(text: string, v: Json, path: seq<string>, s: iset<string>, t: iset<string>, before: Offsets,
                   mid: Offsets)
    requires Records(text, v, path, s, before, mid) && Fresh(before, path, s + t) && s !! t
    ensures Fresh(mid, path, t)
  {
    hide ReadsAt, ValidPath, Join;
    forall q: seq<string> | q != [] && q[0] in t ensures Unrecorded(mid, path, q) {
      assert Unrecorded(before, path, q);
      if Join(path + q) in mid {
        var o: seq<string> :| o != [] && o[0] in s && ValidPath(v, o) && Join(path + q) == Join(path + o);
        assert (path + q)[|path|] == q[0] && (path + o)[|path|] == o[0];
        JoinInjective(path + q, path + o);
      }
    }
  }

  lemma FreshSubset(found: Offsets, path: seq<string>, s: iset<string>, t: iset<string>)
    requires Fresh(found, path, t) && s <= t
    ensures Fresh(found, path, s)
  {
    hide Join;
  }

  ghost const ANY: iset<string> := iset t: string | true

  /** Below a part whose pointer has just been recorded nothing is. */
  lemma FreshBelow(found: Offsets, path: seq<string>, token: string, offset: nat)
    requires Fresh(found, path, iset{token})
    ensures Join(path + [token]) !in found
    ensures Fresh(found[Join(path + [token]) := offset], path + [token], ANY)
  {
    hide Join;
    var deep := path + [token];
    assert [token][0] in iset{token} && Unrecorded(found, path, [token]);
    forall q: seq<string> | q != [] && q[0] in ANY ensures Unrecorded(found[Join(deep) := offset], deep, q) {
      var long := [token] + q;
      assert deep + q == path + long && long[0] == token;
      assert Unrecorded(found, path, long);
      if Join(deep + q) == Join(deep) {
        JoinInjective(deep + q, deep);
      }
    }
  }

  /** What is recorded below a part, and the part itself. */
  lemma RecordsPart(text: string, v: Json, c: Json, path: seq<string>, token: string, offset: nat, before: Offsets,
                    after: Offsets)
    requires Child(v, token) == Some(c) && Join(path + [token]) !in before
    requires ValidPath(v, [token]) && ReadsAt(text, offset, v, [token])
    requires Records(text, c, path + [token], Tokens(c), before[Join(path + [token]) := offset], after)
    ensures Records(text, v, path, iset{token}, before, after)
  {
    hide Child, Join, ReadsAt, ValidPath, Fresh, RecordedAt;
    var deep := path + [token];
    forall q: seq<string> | q != [] && q[0] in iset{token} && ValidPath(v, q)
      ensures RecordedAt(text, v, path, q, after)
    {
      PartRecorded(text, v, c, path, token, offset, before, after, q);
    }
    forall key | key in after && key !in before ensures Named(v, path, iset{token}, key) {
      if key == Join(deep) {
        assert [token] != [] && [token][0] in iset{token} && path + [token] == deep;
      } else {
        assert Named(c, deep, Tokens(c), key);
        NamedPart(v, c, path, token, key);
      }
    }
    assert forall key :: key in before ==> key in after && after[key] == before[key];
  }

  lemma PartRecorded(text: string, v: Json, c: Json, path: seq<string>, token: string, offset: nat, before: Offsets,
                     after: Offsets, q: seq<string>)
    requires Child(v, token) == Some(c) && ValidPath(v, [token]) && ReadsAt(text, offset, v, [token])
    requires Records(text, c, path + [token], Tokens(c), before[Join(path + [token]) := offset], after)
    requires q != [] && q[0] == token && ValidPath(v, q)
    ensures RecordedAt(text, v, path, q, after)
  {
    hide Child, Join, ReadsAt;
    var deep := path + [token];
    if |q| == 1 {
      assert q == [token];
    } else {
      var u := q[1..];
      assert q == [token] + u;
      assert RecordedAt(text, c, deep, u, after) by { Below(v, c, q); }
      assert path + q == deep + u && u[0] in Tokens(c) && ValidPath(c, u);
      DeeperReads(text, after[Join(path + q)], v, c, q);
    }
  }

  lemma Below(v: Json, c: Json, q: seq<string>)
    requires |q| > 1 && Child(v, q[0]) == Some(c) && ValidPath(v, q)
    ensures ValidPath(c, q[1..]) && q[1..][0] in Tokens(c)
  {
  }

  lemma NamedPart(v: Json, c: Json, path: seq<string>, token: string, key: string)
    requires Child(v, token) == Some(c) && Named(c, path + [token], Tokens(c), key)
    ensures Named(v, path, iset{token}, key)
  {
    hide Child, Join;
    var u: seq<string> :| u != [] && u[0] in Tokens(c) && ValidPath(c, u) && key == Join(path + [token] + u);
    var q := [token] + u;
    assert path + q == path + [token] + u && q[1..] == u && ValidPath(v, q);
  }

  lemma DeeperReads(text: string, offset: nat, v: Json, c: Json, q: seq<string>)
    requires |q| > 1 && Child(v, q[0]) == Some(c) && ValidPath(c, q[1..]) && ReadsAt(text, offset, c, q[1..])
    ensures ValidPath(v, q) && ReadsAt(text, offset, v, q)
  {
    hide Child, ReadField, ReadValue;
    ReadsInside(text, offset, c, q[1..]);
  }

  lemma ReadsInside(text: string, offset: nat, v: Json, q: seq<string>)
    requires q != [] && ValidPath(v, q) && ReadsAt(text, offset, v, q)
    ensures offset < |text| && !IsSpace(text[offset])
  {
    hide ReadField, ReadValue;
  }

  // ---------------------------------------------------------------- values

  /** What a scan must do with a value of which reading leaves the rest. */
  ghost predicate Follows(text: string, s: State, rest: string) {
    s.ok && s.index <= |text| && text[s.index..] == rest
  }

  /** The value is recorded first, then its parts. */
  lemma {:induction false} ValueFollowed(text: string, i: nat, v: Json, rest: string, path: seq<string>, found: Offsets,
                                         anchor: Option<nat>)
    requires i <= |text| && ReadValue(text[i..]) == Some((v, rest)) && Ends(rest)
    requires Join(path) !in found
    requires Fresh(found[Join(path) := if anchor.Some? then anchor.value else SpaceEnd(text, i)], path, ANY)
    ensures var s := ScanValue(text, i, found, Join(path), anchor);
            && Follows(text, s, rest)
            && Records(text, v, path, Tokens(v), found[Join(path) := if anchor.Some? then anchor.value
                                                                     else SpaceEnd(text, i)], s.found)
    decreases |text| - i, 1
  {
    var j := SpaceEnd(text, i);
    var found' := found[Join(path) := if anchor.Some? then anchor.value else j];
    SkipIs(text, i);
    ReadFromSkip(text[i..]);
    hide Records, Fresh, Follows, Join;
    if j < |text| {
      assert text[j..][0] == text[j];
      if text[j] == '[' || text[j] == '{' {
        ContainerFollowed(text, i, j, v, rest, path, found, anchor);
      } else if text[j] == '"' {
        StringFollowed(text, i, j, v, rest, path, found, anchor);
      } else {
        WordFollowed(text, i, j, v, rest, path, found, anchor);
      }
    }
  }

  lemma ReadFromSkip(s: string)
    ensures ReadValue(s) == ReadValue(Skip(s))
    ensures ReadValue(s).Some? ==> Skip(s) != ""
  {
    SkipTwice(s);
    hide ReadNumber, ReadItems, ReadFields, ScanString;
  }

  lemma WordFollowed(text: string, i: nat, j: nat, v: Json, rest: string, path: seq<string>, found: Offsets,
                     anchor: Option<nat>)
    requires i <= |text| && j == SpaceEnd(text, i) && j < |text| && text[j] !in ['{', '[', '"']
    requires ReadValue(text[j..]) == Some((v, rest)) && Ends(rest) && Join(path) !in found
    ensures var s := ScanValue(text, i, found, Join(path), anchor);
            && Follows(text, s, rest)
            && Records(text, v, path, Tokens(v), found[Join(path) := if anchor.Some? then anchor.value else j], s.found)
  {
    hide Join;
    assert text[j..][0] == text[j];
    var token := WordToken(text[j..]);
    TokenPassed(text, j, token, rest);
    RecordsNothing(text, v, path, found[Join(path) := if anchor.Some? then anchor.value else j]);
    assert Tokens(v) == iset{};
    hide Records, ReadValue;
  }

  lemma StringFollowed(text: string, i: nat, j: nat, v: Json, rest: string, path: seq<string>, found: Offsets,
                       anchor: Option<nat>)
    requires i <= |text| && j == SpaceEnd(text, i) && j < |text| && text[j] == '"'
    requires ReadValue(text[j..]) == Some((v, rest)) && Ends(rest) && Join(path) !in found
    ensures var s := ScanValue(text, i, found, Join(path), anchor);
            && Follows(text, s, rest)
            && Records(text, v, path, Tokens(v), found[Join(path) := if anchor.Some? then anchor.value else j], s.found)
  {
    hide Join, ScanString, ReadItems, ReadFields, ReadNumber;
    assert text[j..][0] == text[j] && text[j..][1..] == text[j + 1..];
    assert Skip(text[j..]) == text[j..] && Expect(text[j..], '"') == Some(text[j + 1..]);
    QuotedIs(text, j);
    RecordsNothing(text, v, path, found[Join(path) := if anchor.Some? then anchor.value else j]);
    assert Tokens(v) == iset{};
    hide Records, ReadValue;
  }

  lemma {:induction false} ContainerFollowed(text: string, i: nat, j: nat, v: Json, rest: string, path: seq<string>,
                                             found: Offsets, anchor: Option<nat>)
    requires i <= |text| && j == SpaceEnd(text, i) && j < |text| && (text[j] == '[' || text[j] == '{')
    requires ReadValue(text[j..]) == Some((v, rest)) && Ends(rest) && Join(path) !in found
    requires Fresh(found[Join(path) := if anchor.Some? then anchor.value else j], path, ANY)
    ensures var s := ScanValue(text, i, found, Join(path), anchor);
            && Follows(text, s, rest)
            && Records(text, v, path, Tokens(v), found[Join(path) := if anchor.Some? then anchor.value else j], s.found)
    decreases |text| - j, 0
  {
    var found' := found[Join(path) := if anchor.Some? then anchor.value else j];
    var k := SpaceEnd(text, j + 1);
    hide Records, Fresh, Join, ReadValue, ReadItems, ReadFields, ScanValue, ScanMembers, Tokens, ItemTokens,
         FieldTokens, Follows;
    Dispatch(text, i, j, found, Join(path), anchor);
    Opens(text, j, v, rest);
    ExpectIs(text, j + 1, if text[j] == '{' then '}' else ']');
    FreshSubset(found', path, Tokens(v), ANY);
    ReadFromHere(text, j + 1, k);
    BodyIs(text, j, found', Join(path), rest);
    if Expect(text[j + 1..], if text[j] == '{' then '}' else ']').Some? {
      NoTokens(v);
      RecordsNothing(text, v, path, found');
    } else if text[j] == '[' {
      AllItemTokens(v);
      assert v.items[0..] == v.items;
      ItemsFollowed(text, k, v, 0, rest, path, found');
    } else {
      AllFieldTokens(v);
      assert v.fields[0..] == v.fields;
      FieldsFollowed(text, k, v, 0, rest, path, found');
    }
  }

  lemma NoTokens(v: Json)
    requires v == Array([]) || v == Object([])
    ensures Tokens(v) == iset{}
  {
  }

  /** The scan of a container: nothing in it, or its parts from the first one on. */
  lemma BodyIs(text: string, j: nat, found: Offsets, pointer: string, rest: string)
    requires j < |text| && (text[j] == '{' || text[j] == '[')
    ensures var closing, k := if text[j] == '{' then '}' else ']', SpaceEnd(text, j + 1);
            var s := ScanBody(text, j, found, pointer);
            && (Expect(text[j + 1..], closing).Some? ==>
                  Follows(text, s, Expect(text[j + 1..], closing).value) && s.found == found)
            && (Expect(text[j + 1..], closing).None? && k < |text| ==>
                  s == ScanMembers(text, k, found, pointer, text[j] == '{', 0))
  {
    hide ScanMembers;
    SkipIs(text, j + 1);
    var k := SpaceEnd(text, j + 1);
    assert k < |text| ==> text[k..][0] == text[k] && text[k..][1..] == text[k + 1..];
  }

  /** What reading a container comes to: empty, or the list of its parts. */
  lemma Opens(text: string, j: nat, v: Json, rest: string)
    requires j < |text| && (text[j] == '[' || text[j] == '{') && ReadValue(text[j..]) == Some((v, rest))
    ensures text[j] == '[' ==>
              && v.Array?
              && if Expect(text[j + 1..], ']').Some? then v.items == [] && Expect(text[j + 1..], ']') == Some(rest)
                 else ReadItems(text[j + 1..]) == Some((v.items, rest))
    ensures text[j] == '{' ==>
              && v.Object? && UniqueKeys(v.fields)
              && if Expect(text[j + 1..], '}').Some? then v.fields == [] && Expect(text[j + 1..], '}') == Some(rest)
                 else ReadFields(text[j + 1..]) == Some((v.fields, rest))
  {
    hide ReadItems, ReadFields, ReadNumber, ScanString, Expect;
    assert text[j..][0] == text[j] && text[j..][1..] == text[j + 1..];
    assert Skip(text[j..]) == text[j..];
  }

  lemma ReadFromHere(text: string, i: nat, k: nat)
    requires i <= |text| && k == SpaceEnd(text, i)
    ensures ReadItems(text[i..]) == ReadItems(text[k..]) && ReadFields(text[i..]) == ReadFields(text[k..])
    ensures ReadValue(text[i..]) == ReadValue(text[k..]) && ReadField(text[i..]) == ReadField(text[k..])
  {
    var blank := text[i..k];
    assert text[i..] == blank + text[k..];
    assert Blank(blank);
    hide ReadItems, ReadFields, ReadValue, Expect;
    ReadPastBlank(blank, text[k..]);
  }

  /** After a value, the reader finds a closing character or a comma, and so does the scanner. */
  lemma Separated(text: string, i: nat, rest: string, c: char)
    requires i <= |text| && text[i..] == rest && Expect(rest, c).Some?
    ensures var j := SpaceEnd(text, i);
            && j < |text| && text[j] == c && text[j + 1..] == Expect(rest, c).value
            && ScanExpect(text, j, c) == Some(j + 1)
  {
    SkipIs(text, i);
    var j := SpaceEnd(text, i);
    assert text[j..][0] == text[j] && text[j..][1..] == text[j + 1..];
  }

  /** The scan of a container ends at its closing character ... */
  lemma ClosesMembers(text: string, i: nat, found: Offsets, pointer: string, keyed: bool, n: nat, r: string)
    requires i <= |text|
    requires Follows(text, ScanElement(text, i, found, pointer, keyed, n), r)
    requires Expect(r, if keyed then '}' else ']').Some?
    ensures var s, t := ScanElement(text, i, found, pointer, keyed, n), ScanMembers(text, i, found, pointer, keyed, n);
            Follows(text, t, Expect(r, if keyed then '}' else ']').value) && t.found == s.found
  {
    hide ScanElement, Expect, ScanExpect, SpaceEnd;
    var s := ScanElement(text, i, found, pointer, keyed, n);
    Separated(text, s.index, r, if keyed then '}' else ']');
  }

  /** ... and goes on after a comma. */
  lemma ContinuesMembers(text: string, i: nat, found: Offsets, pointer: string, keyed: bool, n: nat, r: string)
    returns (k: nat)
    requires i <= |text|
    requires Follows(text, ScanElement(text, i, found, pointer, keyed, n), r)
    requires Expect(r, ',').Some?
    ensures i < k <= |text| && text[k..] == Expect(r, ',').value
    ensures ScanMembers(text, i, found, pointer, keyed, n)
            == ScanMembers(text, k, ScanElement(text, i, found, pointer, keyed, n).found, pointer, keyed, n + 1)
  {
    hide ScanElement, Expect, ScanExpect, SpaceEnd;
    var s := ScanElement(text, i, found, pointer, keyed, n);
    Separated(text, s.index, r, ',');
    k := SpaceEnd(text, s.index) + 1;
  }

  // ---------------------------------------------------------------- items

  lemma ItemsUnfold(t: string, v: Json, n: nat, rest: string) returns (r: string)
    requires v.Array? && n <= |v.items| && ReadItems(t) == Some((v.items[n..], rest))
    ensures n < |v.items| && ReadValue(t) == Some((v.items[n], r)) && Ends(r)
    ensures if Expect(r, ']').Some? then n + 1 == |v.items| && Expect(r, ']') == Some(rest)
            else Expect(r, ',').Some? && ReadItems(Expect(r, ',').value) == Some((v.items[n + 1..], rest))
  {
    hide ReadValue, Expect;
    var all := v.items[n..];
    r := ReadValue(t).value.1;
    assert all[0] == v.items[n] && all[1..] == v.items[n + 1..];
    ExpectEnds(r, if Expect(r, ']').Some? then ']' else ',');
  }

  lemma {:induction false} ItemFollowed(text: string, i: nat, v: Json, n: nat, rest: string, path: seq<string>,
                                        found: Offsets)
    requires i <= |text| && v.Array? && n < |v.items| && ReadValue(text[i..]) == Some((v.items[n], rest)) && Ends(rest)
    requires Fresh(found, path, iset{Digits(n)})
    ensures var s := ScanElement(text, i, found, Join(path), false, n);
            Follows(text, s, rest) && Records(text, v, path, iset{Digits(n)}, found, s.found)
    decreases |text| - i, 2
  {
    var token, j, item := Digits(n), SpaceEnd(text, i), v.items[n];
    var s := ScanElement(text, i, found, Join(path), false, n);
    assert s == ScanValue(text, i, found, Join(path + [token]), None) by {
      JoinStep(path, token);
      DigitsUnescaped(token);
      hide Digits, ScanValue, Join, EscapeToken;
    }
    hide Digits, Fresh, Records, Join, ReadValue, ScanValue, ScanElement, FindItem;
    FreshBelow(found, path, token, j);
    ValueFollowed(text, i, item, rest, path + [token], found, None);
    ReadFromHere(text, i, j);
    assert j < |text| by {
      ReadFromSkip(text[i..]);
      SkipIs(text, i);
    }
    assert Child(v, token) == Some(item) by { FindItemAt(v.items, 0, n); }
    ItemReadsAt(text, j, v, item, token, rest);
    RecordsPart(text, v, item, path, token, j, found, s.found);
  }

  lemma ItemReadsAt(text: string, j: nat, v: Json, item: Json, token: string, rest: string)
    requires j < |text| && !IsSpace(text[j]) && v.Array? && Child(v, token) == Some(item)
    requires ReadValue(text[j..]) == Some((item, rest))
    ensures ValidPath(v, [token]) && ReadsAt(text, j, v, [token])
  {
    hide ReadValue, Child;
    assert [token][1..] == [];
    assert ValidPath(item, []);
  }

  lemma {:induction false} ItemsFollowed(text: string, i: nat, v: Json, n: nat, rest: string, path: seq<string>,
                                         found: Offsets)
    requires i <= |text| && v.Array? && n <= |v.items| && ReadItems(text[i..]) == Some((v.items[n..], rest))
    requires Fresh(found, path, ItemTokens(n, |v.items|))
    ensures var s := ScanMembers(text, i, found, Join(path), false, n);
            Follows(text, s, rest) && Records(text, v, path, ItemTokens(n, |v.items|), found, s.found)
    decreases |text| - i, 3
  {
    var count, token := |v.items|, Digits(n);
    var r := ItemsUnfold(text[i..], v, n, rest);
    hide Digits, Fresh, Records, Join, ReadValue, ReadItems, ScanElement, ScanMembers, Expect, ItemTokens, Follows;
    ItemTokensSplit(n, count);
    FreshSubset(found, path, iset{token}, ItemTokens(n, count));
    ItemFollowed(text, i, v, n, r, path, found);
    var mid := ScanElement(text, i, found, Join(path), false, n).found;
    if Expect(r, ']').Some? {
      ClosesMembers(text, i, found, Join(path), false, n, r);
    } else {
      var k := ContinuesMembers(text, i, found, Join(path), false, n, r);
      FreshAfter(text, v, path, iset{token}, ItemTokens(n + 1, count), found, mid);
      ItemsFollowed(text, k, v, n + 1, rest, path, mid);
      var t := ScanMembers(text, k, mid, Join(path), false, n + 1);
      RecordsBoth(text, v, path, iset{token}, ItemTokens(n + 1, count), found, mid, t.found);
    }
  }

  // ---------------------------------------------------------------- members

  lemma {:induction false} FieldFollowed(text: string, i: nat, v: Json, n: nat, rest: string, path: seq<string>,
                                         found: Offsets, position: nat)
    requires i <= |text| && v.Object? && UniqueKeys(v.fields) && n < |v.fields|
    requires ReadField(text[i..]) == Some((v.fields[n], rest)) && Ends(rest)
    requires Fresh(found, path, iset{v.fields[n].key})
    ensures var s := ScanElement(text, i, found, Join(path), true, position);
            Follows(text, s, rest) && Records(text, v, path, iset{v.fields[n].key}, found, s.found)
    decreases |text| - i, 2
  {
    var j, f := SpaceEnd(text, i), v.fields[n];
    var s := ScanElement(text, i, found, Join(path), true, position);
    var at := MemberStarts(text, i, f, rest, path, found, position);
    hide Fresh, Records, Join, ReadValue, ReadField, ScanValue, ScanElement, FindField;
    FreshBelow(found, path, f.key, j);
    ValueFollowed(text, at, f.value, rest, path + [f.key], found, Some(j));
    assert Child(v, f.key) == Some(f.value) by { FindFieldAt(v.fields, n); }
    ReadFromHere(text, i, j);
    MemberReadsAt(text, j, v, f, rest);
    RecordsPart(text, v, f.value, path, f.key, j, found, s.found);
  }

  lemma MemberReadsAt(text: string, j: nat, v: Json, f: Field, rest: string)
    requires j < |text| && !IsSpace(text[j]) && v.Object? && Child(v, f.key) == Some(f.value)
    requires ReadField(text[j..]) == Some((f, rest))
    ensures ValidPath(v, [f.key]) && ReadsAt(text, j, v, [f.key])
  {
    hide ReadField, Child;
    assert [f.key][1..] == [];
    assert ValidPath(f.value, []);
    assert f == Field(f.key, f.value);
  }

  /** The key and the colon of a member: the value starts after them. */
  lemma MemberStarts(text: string, i: nat, f: Field, rest: string, path: seq<string>, found: Offsets, position: nat)
    returns (at: nat)
    requires i <= |text| && ReadField(text[i..]) == Some((f, rest))
    ensures i < at <= |text| && ReadValue(text[at..]) == Some((f.value, rest))
    ensures SpaceEnd(text, i) < |text|
    ensures ScanElement(text, i, found, Join(path), true, position)
            == ScanValue(text, at, found, Join(path + [f.key]), Some(SpaceEnd(text, i)))
  {
    var j := SpaceEnd(text, i);
    ReadFromHere(text, i, j);
    hide ReadValue, ScanString, Expect, ScanExpect, ScanValue, ScanQuoted, Join;
    QuotedIs(text, j);
    var key := ScanQuoted(text, j).value;
    ExpectIs(text, key.1, ':');
    at := ScanExpect(text, key.1, ':').value;
    JoinStep(path, f.key);
    assert SpaceEnd(text, j) == j;
    assert j < |text| by { NotAtEnd(text, j); }
  }

  lemma NotAtEnd(text: string, j: nat)
    requires j <= |text| && Expect(text[j..], '"').Some?
    ensures j < |text|
  {
  }

  lemma {:induction false} FieldsFollowed(text: string, i: nat, v: Json, n: nat, rest: string, path: seq<string>,
                                          found: Offsets)
    requires i <= |text| && v.Object? && UniqueKeys(v.fields) && n <= |v.fields|
    requires ReadFields(text[i..]) == Some((v.fields[n..], rest))
    requires Fresh(found, path, FieldTokens(v.fields, n))
    ensures var s := ScanMembers(text, i, found, Join(path), true, n);
            Follows(text, s, rest) && Records(text, v, path, FieldTokens(v.fields, n), found, s.found)
    decreases |text| - i, 3
  {
    var r := FieldsUnfold(text[i..], v, n, rest);
    var token := v.fields[n].key;
    hide Fresh, Records, Join, ReadField, ReadFields, ScanElement, ScanMembers, Expect, FieldTokens, Follows;
    FieldTokensSplit(v.fields, n);
    FreshSubset(found, path, iset{token}, FieldTokens(v.fields, n));
    FieldFollowed(text, i, v, n, r, path, found, n);
    var mid := ScanElement(text, i, found, Join(path), true, n).found;
    if Expect(r, '}').Some? {
      ClosesMembers(text, i, found, Join(path), true, n, r);
    } else {
      var k := ContinuesMembers(text, i, found, Join(path), true, n, r);
      FreshAfter(text, v, path, iset{token}, FieldTokens(v.fields, n + 1), found, mid);
      FieldsFollowed(text, k, v, n + 1, rest, path, mid);
      var t := ScanMembers(text, k, mid, Join(path), true, n + 1);
      RecordsBoth(text, v, path, iset{token}, FieldTokens(v.fields, n + 1), found, mid, t.found);
    }
  }

  lemma FieldsUnfold(t: string, v: Json, n: nat, rest: string) returns (r: string)
    requires v.Object? && n <= |v.fields| && ReadFields(t) == Some((v.fields[n..], rest))
    ensures n < |v.fields| && ReadField(t) == Some((v.fields[n], r)) && Ends(r)
    ensures if Expect(r, '}').Some? then n + 1 == |v.fields| && Expect(r, '}') == Some(rest)
            else Expect(r, ',').Some? && ReadFields(Expect(r, ',').value) == Some((v.fields[n + 1..], rest))
  {
    hide ReadField, Expect;
    var all := v.fields[n..];
    r := ReadField(t).value.1;
    assert all[0] == v.fields[n] && all[1..] == v.fields[n + 1..];
    ExpectEnds(r, if Expect(r, '}').Some? then '}' else ',');
  }

  // ---------------------------------------------------------------- whole texts

  ghost predicate IsPointer(v: Json, key: string) {
    exists path :: ValidPath(v, path) && key == Join(path)
  }

  /** The pointers recorded are those of the value, each where reading gives what it names. */
  ghost predicate RecordsExactly(text: string, v: Json, found: Offsets) {
    && (forall path :: ValidPath(v, path) <==> Join(path) in found)
    && (forall key :: key in found ==> IsPointer(v, key))
    && (forall path :: path != [] && ValidPath(v, path) ==> ReadsAt(text, found[Join(path)], v, path))
  }

  /**
   On every text that loads, whatever its layout, the scanner records exactly the JSON Pointers of the
   value, the root first, and reading at each offset gives the member or item.
   */
  lemma ScannerFollowsReader(text: string, v: Json)
    requires Load(text) == Some(v)
    ensures var s := ScanValue(text, 0, map[], "", None);
            && s.ok && SpaceEnd(text, s.index) == |text|
            && "" in s.found && s.found[""] == SpaceEnd(text, 0)
            && RecordsExactly(text, v, s.found)
  {
    var rest := ReadsWhole(text, v);
    assert text[0..] == text;
    hide ReadValue, ReadsAt, Records, Fresh, Join, ScanValue, Tokens, Load, ValidPath, RecordsExactly;
    EmptyJoin();
    RootFresh(SpaceEnd(text, 0));
    ValueFollowed(text, 0, v, rest, [], map[], None);
    var s := ScanValue(text, 0, map[], "", None);
    SkipIs(text, s.index);
    var root: Offsets := map[];
    assert root["" := SpaceEnd(text, 0)] == map["" := SpaceEnd(text, 0)];
    RootRecords(text, v, SpaceEnd(text, 0), s.found);
  }

  lemma ReadsWhole(text: string, v: Json) returns (rest: string)
    requires Load(text) == Some(v)
    ensures ReadValue(text) == Some((v, rest)) && Skip(rest) == "" && Ends(rest)
  {
    hide ReadValue;
    rest := ReadValue(text).value.1;
  }

  lemma RootFresh(offset: nat)
    ensures Fresh(map["" := offset], [], ANY) && Join([]) == ""
  {
    hide Join;
    assert Join([]) == "" by { EmptyJoin(); }
    forall q: seq<string> | q != [] ensures Unrecorded(map["" := offset], [], q) {
      assert [] + q == q;
      if Join(q) == "" {
        JoinInjective(q, []);
      }
    }
  }

  lemma EmptyJoin()
    ensures Join([]) == ""
  {
  }

  lemma RootRecords(text: string, v: Json, offset: nat, found: Offsets)
    requires Records(text, v, [], Tokens(v), map["" := offset], found)
    ensures "" in found && found[""] == offset && RecordsExactly(text, v, found)
  {
    hide Records, Tokens, Join, ReadsAt, ValidPath, IsPointer;
    RecordsKeep(text, v, offset, found);
    RootPaths(text, v, offset, found);
    RootReads(text, v, offset, found);
    RootKeys(text, v, offset, found);
  }

  lemma RootPaths(text: string, v: Json, offset: nat, found: Offsets)
    requires Records(text, v, [], Tokens(v), map["" := offset], found)
    ensures forall path :: ValidPath(v, path) <==> Join(path) in found
  {
    hide Records, Tokens, Join, ReadsAt, ValidPath;
    forall path ensures ValidPath(v, path) <==> Join(path) in found {
      RootPath(text, v, offset, found, path);
    }
  }

  lemma RootReads(text: string, v: Json, offset: nat, found: Offsets)
    requires Records(text, v, [], Tokens(v), map["" := offset], found)
    requires forall path :: ValidPath(v, path) <==> Join(path) in found
    ensures forall path :: path != [] && ValidPath(v, path) ==> ReadsAt(text, found[Join(path)], v, path)
  {
    hide Records, Tokens, Join, ReadsAt, ValidPath;
    forall path | path != [] && ValidPath(v, path) ensures ReadsAt(text, found[Join(path)], v, path) {
      RootPath(text, v, offset, found, path);
    }
  }

  lemma RootKeys(text: string, v: Json, offset: nat, found: Offsets)
    requires Records(text, v, [], Tokens(v), map["" := offset], found)
    ensures forall key :: key in found ==> IsPointer(v, key)
  {
    hide Records, Tokens, Join, ValidPath, IsPointer;
    forall key | key in found ensures IsPointer(v, key) {
      AnyKey(text, v, offset, found, key);
    }
  }

  lemma RecordsKeep(text: string, v: Json, offset: nat, found: Offsets)
    requires Records(text, v, [], Tokens(v), map["" := offset], found)
    ensures "" in found && found[""] == offset
  {
    hide RecordedAt, Named, ValidPath;
    var root: Offsets := map["" := offset];
    assert "" in root && root[""] == offset;
  }

  lemma AnyKey(text: string, v: Json, offset: nat, found: Offsets, key: string)
    requires Records(text, v, [], Tokens(v), map["" := offset], found) && key in found
    ensures IsPointer(v, key)
  {
    hide RecordedAt, Join, Named;
    EmptyJoin();
    var root: Offsets := map["" := offset];
    if key in root {
      assert ValidPath(v, []) && key == Join([]);
    } else {
      var path := RootKey(v, key);
    }
  }

  lemma RootKey(v: Json, key: string) returns (path: seq<string>)
    requires Named(v, [], Tokens(v), key)
    ensures path != [] && ValidPath(v, path) && key == Join(path)
  {
    hide Join, ValidPath;
    path :| path != [] && path[0] in Tokens(v) && ValidPath(v, path) && key == Join([] + path);
    assert [] + path == path;
  }

  lemma RootPath(text: string, v: Json, offset: nat, found: Offsets, path: seq<string>)
    requires Records(text, v, [], Tokens(v), map["" := offset], found)
    ensures ValidPath(v, path) <==> Join(path) in found
    ensures path != [] && ValidPath(v, path) ==> ReadsAt(text, found[Join(path)], v, path)
  {
    var root: Offsets := map["" := offset];
    assert "" in root;
    EmptyJoin();
    hide Join, ReadsAt, Named;
    if ValidPath(v, path) && path != [] {
      assert [] + path == path && path[0] in Tokens(v);
      assert RecordedAt(text, v, [], path, found);
    }
    hide ValidPath, RecordedAt;
    if Join(path) in found && path != [] {
      if Join(path) in root {
        JoinInjective(path, []);
      } else {
        var q := RootKey(v, Join(path));
        JoinInjective(path, q);
      }
    }
  }
}
