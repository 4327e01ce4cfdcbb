/**
 The scanner that places a JSON Pointer in the text of a file.

 `Scan...` are the specification functions: what the scanner consumes and records, on any text.
 `Members` is the scanner itself, which moves an index over the text and fills a dictionary.
 */
module MemberScanner {
  import opened Outcomes
  import opened Numerals
  import opened JsonText

  type Offsets = map<string, nat>

  /** A reference token inside a JSON Pointer (section 3 of RFC 6901). */
  function EscapeToken(s: string): string {
    if s == "" then ""
    else (if s[0] == '~' then "~0" else if s[0] == '/' then "~1" else [s[0]]) + EscapeToken(s[1..])
  }

  function Default(found: Offsets, pointer: string, offset: nat): Offsets {
    if pointer in found then found else found[pointer := offset]
  }

  function SpaceEnd(text: string, i: nat): (j: nat)
    requires i <= |text|
    ensures i <= j <= |text|
    ensures forall k :: i <= k < j ==> IsSpace(text[k])
    ensures j < |text| ==> !IsSpace(text[j])
    decreases |text| - i
  {
    if i < |text| && IsSpace(text[i]) then SpaceEnd(text, i + 1) else i
  }

  predicate EndsToken(c: char) {
    c in [',', ']', '}', ' ', '\t', '\r', '\n']
  }

  function TokenEnd(text: string, i: nat): (j: nat)
    requires i <= |text|
    ensures i <= j <= |text|
    decreases |text| - i
  {
    if i < |text| && !EndsToken(text[i]) then TokenEnd(text, i + 1) else i
  }

  /** Where the scanner stands; `ok` is false once a syntax error stopped it. */
  datatype State = State(ok: bool, index: nat, found: Offsets)

  /** The index after an expected character, past white space. */
  function ScanExpect(text: string, i: nat, c: char): (r: Option<nat>)
    requires i <= |text|
    ensures r.Some? ==> i < r.value <= |text|
  {
    var j := SpaceEnd(text, i);
    if j < |text| && text[j] == c then Some(j + 1) else None
  }

  /** A quoted string: its value and the index after it. */
  function ScanQuoted(text: string, i: nat): (r: Option<(string, nat)>)
    requires i <= |text|
    ensures r.Some? ==> i < r.value.1 <= |text|
  {
    var j := ScanExpect(text, i, '"');
    if j.None? then None
    else
      var s := ScanString(text[j.value..]);
      if s.None? then None else Some((s.value.0, |text| - |s.value.1|))
  }

  function ScanValue(text: string, i: nat, found: Offsets, pointer: string, anchor: Option<nat>): (s: State)
    requires i <= |text|
    ensures s.ok ==> i <= s.index <= |text|
    decreases |text| - i, 0
  {
    var j := SpaceEnd(text, i);
    var found' := Default(found, pointer, if anchor.Some? then anchor.value else j);
    if j == |text| then State(false, j, found')
    else if text[j] == '{' || text[j] == '[' then
      var closing := if text[j] == '{' then '}' else ']';
      var k := SpaceEnd(text, j + 1);
      if k == |text| then State(false, k, found')
      else if text[k] == closing then State(true, k + 1, found')
      else ScanMembers(text, k, found', pointer, text[j] == '{', 0)
    else if text[j] == '"' then
      var r := ScanQuoted(text, j);
      if r.None? then State(false, j, found') else State(true, r.value.1, found')
    else State(true, TokenEnd(text, j), found')
  }

  /** The members or items of one container, up to its closing character. */
  function ScanMembers(text: string, i: nat, found: Offsets, pointer: string, keyed: bool, position: nat): (s: State)
    requires i <= |text|
    ensures s.ok ==> i <= s.index <= |text|
    decreases |text| - i, 2
  {
    var s := ScanElement(text, i, found, pointer, keyed, position);
    if !s.ok then s
    else
      var j := SpaceEnd(text, s.index);
      if j < |text| && text[j] == ',' then
        ScanMembers(text, j + 1, s.found, pointer, keyed, position + 1)
      else
        var e := ScanExpect(text, j, if keyed then '}' else ']');
        if e.None? then State(false, j, s.found) else State(true, e.value, s.found)
  }

  /** One member of an object or one item of an array. */
  function ScanElement(text: string, i: nat, found: Offsets, pointer: string, keyed: bool, position: nat): (s: State)
    requires i <= |text|
    ensures s.ok ==> i <= s.index <= |text|
    decreases |text| - i, 1
  {
    if keyed then ScanMember(text, i, found, pointer)
    else ScanValue(text, i, found, pointer + "/" + Digits(position), None)
  }

  /** One member of an object: a key, a colon and a value. */
  function ScanMember(text: string, i: nat, found: Offsets, pointer: string): (s: State)
    requires i <= |text|
    ensures s.ok ==> i <= s.index <= |text|
    decreases |text| - i, 0
  {
    var keyOffset := SpaceEnd(text, i);
    var key := ScanQuoted(text, keyOffset);
    if key.None? then State(false, keyOffset, found)
    else
      var colon := ScanExpect(text, key.value.1, ':');
      if colon.None? then State(false, key.value.1, found)
      else ScanValue(text, colon.value, found, pointer + "/" + EscapeToken(key.value.0), Some(keyOffset))
  }

  // ---------------------------------------------------------------- the scanner

  class Members {
    const text: string
    var index: nat
    var found: Offsets

    /** Scans the whole text; a syntax error only ends the scan. */
    constructor (text: string)
      ensures this.text == text
      ensures found == ScanValue(text, 0, map[], "", None).found
    {
      this.text := text;
      index := 0;
      found := map[];
      new;
      var ok := Value("", None);
    }

    method Space()
      requires index <= |text|
      modifies this`index
      ensures index == SpaceEnd(text, old(index))
    {
      while index < |text| && IsSpace(text[index])
        invariant index <= |text|
        invariant SpaceEnd(text, index) == SpaceEnd(text, old(index))
      {
        index := index + 1;
      }
    }

    method Expect(character: char) returns (ok: bool)
      requires index <= |text|
      modifies this`index
      ensures index <= |text|
      ensures ok == ScanExpect(text, old(index), character).Some?
      ensures ok ==> index == ScanExpect(text, old(index), character).value
    {
      Space();
      if index == |text| || text[index] != character {
        return false;
      }
      index := index + 1;
      return true;
    }

    method String() returns (value: Option<string>)
      requires index <= |text|
      modifies this`index
      ensures index <= |text|
      ensures value.Some? == ScanQuoted(text, old(index)).Some?
      ensures value.Some? ==> ScanQuoted(text, old(index)) == Some((value.value, index))
    {
      var ok := Expect('"');
      if !ok {
        return None;
      }
      var s := ScanString(text[index..]);
      if s.None? {
        return None;
      }
      index := |text| - |s.value.1|;
      return Some(s.value.0);
    }

    /** One member of an object or one item of an array. */
    method Element(pointer: string, keyed: bool, position: nat) returns (ok: bool)
      requires index <= |text|
      modifies this
      ensures index <= |text|
      ensures var s := ScanElement(text, old(index), old(found), pointer, keyed, position);
              ok == s.ok && found == s.found && (ok ==> index == s.index)
      decreases |text| - index, 1
    {
      if keyed {
        Space();
        var keyOffset := index;
        var key := String();
        if key.None? {
          return false;
        }
        ok := Expect(':');
        if !ok {
          return false;
        }
        ok := Value(pointer + "/" + EscapeToken(key.value), Some(keyOffset));
      } else {
        ok := Value(pointer + "/" + Digits(position), None);
      }
    }

    /** The elements of a container, up to its closing character. */
    method Container(pointer: string, closing: char) returns (ok: bool)
      requires index <= |text| && (closing == '}' || closing == ']')
      modifies this
      ensures index <= |text|
      ensures var s := ScanMembers(text, old(index), old(found), pointer, closing == '}', 0);
              ok == s.ok && found == s.found && (ok ==> index == s.index)
      decreases |text| - index, 2
    {
      var position := 0;
      while true
        invariant old(index) <= index <= |text|
        invariant ScanMembers(text, old(index), old(found), pointer, closing == '}', 0)
                  == ScanMembers(text, index, found, pointer, closing == '}', position)
        decreases |text| - index
      {
        hide ScanElement, ScanExpect;
        ok := Element(pointer, closing == '}', position);
        if !ok {
          return false;
        }
        position := position + 1;
        Space();
        if index == |text| {
          return false;
        }
        if text[index] == ',' {
          index := index + 1;
          continue;
        }
        ok := Expect(closing);
        return ok;
      }
    }

    method Value(pointer: string, anchor: Option<nat>) returns (ok: bool)
      requires index <= |text|
      modifies this
      ensures index <= |text|
      ensures var s := ScanValue(text, old(index), old(found), pointer, anchor);
              ok == s.ok && found == s.found && (ok ==> index == s.index)
      decreases |text| - index, 0
    {
      ghost var start := index;
      Space();
      found := Default(found, pointer, if anchor.Some? then anchor.value else index);
      if index == |text| {
        return false;
      }
      var opening := text[index];
      if opening == '{' || opening == '[' {
        var closing := if opening == '{' then '}' else ']';
        index := index + 1;
        Space();
        if index == |text| {
          return false;
        }
        if text[index] == closing {
          index := index + 1;
          return true;
        }
        ok := Container(pointer, closing);
        return ok;
      }
      if opening == '"' {
        var s := String();
        return s.Some?;
      }
      while index < |text| && !EndsToken(text[index])
        invariant index <= |text|
        invariant TokenEnd(text, index) == ScanValue(text, start, old(found), pointer, anchor).index
        invariant found == ScanValue(text, start, old(found), pointer, anchor).found
      {
        index := index + 1;
      }
      return true;
    }
  }

  // ---------------------------------------------------------------- locating a pointer

  /** A pointer without its last token; text without a slash stays as it is. */
  function Parent(pointer: string): (p: string)
    ensures |p| <= |pointer|
    ensures '/' in pointer ==> p < pointer
    ensures pointer != "" && pointer[0] == '/' ==> p == "" || p[0] == '/'
  {
    if '/' !in pointer then pointer
    else if pointer[|pointer| - 1] == '/' then pointer[..|pointer| - 1]
    else
      assert pointer == pointer[..|pointer| - 1] + [pointer[|pointer| - 1]];
      Parent(pointer[..|pointer| - 1])
  }

  /** The nearest recorded ancestor of a pointer, or the root. */
  function Nearest(found: Offsets, pointer: string): string
    requires pointer == "" || pointer[0] == '/'
    decreases |pointer|
  {
    if pointer == "" || pointer in found then pointer else Nearest(found, Parent(pointer))
  }

  function OffsetOf(found: Offsets, pointer: string): nat {
    if pointer in found then found[pointer] else 0
  }

  /** The line breaks before an offset. */
  function Breaks(text: string, offset: nat): nat
    requires offset <= |text|
  {
    if offset == 0 then 0 else Breaks(text, offset - 1) + if text[offset - 1] == '\n' then 1 else 0
  }

  /** The index after the last line break before an offset. */
  function LineBegin(text: string, offset: nat): (i: nat)
    requires offset <= |text|
    ensures i <= offset
  {
    if offset == 0 then 0 else if text[offset - 1] == '\n' then offset else LineBegin(text, offset - 1)
  }

  /** One-based line and column of an offset. */
  function Position(text: string, offset: nat): (nat, nat)
    requires offset <= |text|
  {
    (Breaks(text, offset) + 1, offset - LineBegin(text, offset) + 1)
  }

  function NextBreak(text: string, i: nat): (r: Option<nat>)
    ensures r.Some? ==> i <= r.value < |text|
    decreases |text| - i
  {
    if i >= |text| then None else if text[i] == '\n' then Some(i) else NextBreak(text, i + 1)
  }

  /** Where a line of a text starts. */
  function LineStart(text: string, line: nat): Option<nat>
    requires line >= 1
  {
    if line == 1 then Some(0)
    else
      var s := LineStart(text, line - 1);
      if s.None? || NextBreak(text, s.value).None? then None
      else Some(NextBreak(text, s.value).value + 1)
  }

  ghost predicate Within(found: Offsets, n: nat) {
    forall key :: key in found ==> found[key] <= n
  }

  lemma {:induction false} RecordedInText(text: string, i: nat, found: Offsets, pointer: string, anchor: Option<nat>)
    requires i <= |text| && (anchor.Some? ==> anchor.value <= |text|) && Within(found, |text|)
    ensures Within(ScanValue(text, i, found, pointer, anchor).found, |text|)
    decreases |text| - i, 0
  {
    var j := SpaceEnd(text, i);
    var found' := Default(found, pointer, if anchor.Some? then anchor.value else j);
    if j < |text| && (text[j] == '{' || text[j] == '[') {
      var k := SpaceEnd(text, j + 1);
      if k < |text| {
        MembersInText(text, k, found', pointer, text[j] == '{', 0);
      }
    }
  }

  lemma {:induction false} ElementInText(text: string, i: nat, found: Offsets, pointer: string, keyed: bool,
                                         position: nat)
    requires i <= |text| && Within(found, |text|)
    ensures Within(ScanElement(text, i, found, pointer, keyed, position).found, |text|)
    decreases |text| - i, 1
  {
    hide ScanValue, ScanQuoted, ScanExpect, SpaceEnd;
    if keyed {
      var keyOffset := SpaceEnd(text, i);
      var key := ScanQuoted(text, keyOffset);
      if key.Some? && ScanExpect(text, key.value.1, ':').Some? {
        RecordedInText(text, ScanExpect(text, key.value.1, ':').value, found, pointer + "/" + EscapeToken(key.value.0),
                       Some(keyOffset));
      }
    } else {
      RecordedInText(text, i, found, pointer + "/" + Digits(position), None);
    }
  }

  lemma {:induction false} MembersInText(text: string, i: nat, found: Offsets, pointer: string, keyed: bool,
                                         position: nat)
    requires i <= |text| && Within(found, |text|)
    ensures Within(ScanMembers(text, i, found, pointer, keyed, position).found, |text|)
    decreases |text| - i, 2
  {
    hide ScanElement, Within;
    ElementInText(text, i, found, pointer, keyed, position);
    var s := ScanElement(text, i, found, pointer, keyed, position);
    if s.ok {
      var j := SpaceEnd(text, s.index);
      if j < |text| && text[j] == ',' {
        MembersInText(text, j + 1, s.found, pointer, keyed, position + 1);
      }
    }
  }

  /** Line and column of the member a pointer names, or of its nearest existing ancestor. */
  method Locate(text: string, pointer: string) returns (line: nat, column: nat)
    requires pointer == "" || pointer[0] == '/'
    ensures var found := ScanValue(text, 0, map[], "", None).found;
            var offset := OffsetOf(found, Nearest(found, pointer));
            offset <= |text| && (line, column) == Position(text, offset)
  {
    RecordedInText(text, 0, map[], "", None);
    var members := new Members(text);
    var found := members.found;
    var p := pointer;
    while p != "" && p !in found
      invariant p == "" || p[0] == '/'
      invariant Nearest(found, p) == Nearest(found, pointer)
      decreases |p|
    {
      p := Parent(p);
    }
    var offset := OffsetOf(found, p);
    var position := Position(text, offset);
    return position.0, position.1;
  }
}
