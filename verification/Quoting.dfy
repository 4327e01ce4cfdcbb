/** Text quoted for C and for CMake, and the reading of what was quoted. */
module Quoting {
  import opened Outcomes
  import Collections

  // ---------------------------------------------------------------- C string literals

  type Byte = x: int | 0 <= x < 256

  function Octal(b: Byte): string {
    ['\\', '0' + ((b / 64) as char), '0' + ((b / 8 % 8) as char), '0' + ((b % 8) as char)]
  }

  /** The spelling of one byte: '?' is escaped, so that no trigraph forms. */
  function EscapeByte(b: Byte): string {
    if b as char in "\"\\?" then ['\\', b as char]
    else if 0x20 <= b < 0x7F then [b as char]
    else Octal(b)
  }

  function Escaped(bytes: seq<Byte>): string {
    if bytes == [] then "" else Escaped(bytes[..|bytes| - 1]) + EscapeByte(bytes[|bytes| - 1])
  }

  /** The C literal of a text given by its bytes. */
  method CString(bytes: seq<Byte>) returns (literal: string)
    ensures literal == "\"" + Escaped(bytes) + "\""
  {
    var escaped := "";
    var i := 0;
    assert bytes[..0] == [];
    while i < |bytes|
      invariant i <= |bytes| && escaped == Escaped(bytes[..i])
    {
      var b := bytes[i];
      assert bytes[..i + 1][..i] == bytes[..i];
      if b as char in "\"\\?" {
        escaped := escaped + ['\\', b as char];
      } else if 0x20 <= b < 0x7F {
        escaped := escaped + [b as char];
      } else {
        escaped := escaped + Octal(b);
      }
      i := i + 1;
    }
    assert bytes[..i] == bytes;
    literal := "\"" + escaped + "\"";
  }

  function OctalDigit(c: char): Option<int>
  {
    if '0' <= c <= '7' then Some((c - '0') as int) else None
  }

  /** The value of up to n octal digits at the start of a text, and how many there are. */
  function OctalPrefix(s: string, n: nat, value: int): (int, nat) {
    if n == 0 || s == "" || OctalDigit(s[0]).None? then (value, 0)
    else
      var (v, k) := OctalPrefix(s[1..], n - 1, value * 8 + OctalDigit(s[0]).value);
      (v, k + 1)
  }

  /**
   The characters of a string literal after its opening quote (section 6.4.4.4 of ISO C11): an
   octal escape takes up to three digits. Only escapes of punctuation and octal ones are read.
   */
  function Characters(s: string): Option<seq<Byte>>
    decreases |s|
  {
    if s == "" then None
    else if s[0] == '"' then if s[1..] == "" then Some([]) else None
    else if s[0] == '\\' then
      if |s| < 2 then None
      else if s[1] in "\"\\?'" then Prepended(s[1] as int, Characters(s[2..]))
      else
        var (v, k) := OctalPrefix(s[1..], 3, 0);
        if k == 0 || k >= |s| then None else Prepended(v, Characters(s[k + 1..]))
    else Prepended(s[0] as int, Characters(s[1..]))
  }

  function Prepended(b: int, rest: Option<seq<Byte>>): Option<seq<Byte>> {
    if 0 <= b < 256 && rest.Some? then Some([b] + rest.value) else None
  }

  function ReadLiteral(s: string): Option<seq<Byte>> {
    if s != "" && s[0] == '"' then Characters(s[1..]) else None
  }

  lemma OctalReads(b: Byte, s: string)
    ensures OctalPrefix(Octal(b)[1..] + s, 3, 0) == (b, 3)
  {
    var t := Octal(b)[1..] + s;
    assert t[0] == '0' + ((b / 64) as char) && t[1] == '0' + ((b / 8 % 8) as char) && t[2] == '0' + ((b % 8) as char);
    assert t[1..][0] == t[1] && t[1..][1..][0] == t[2];
    assert OctalPrefix(t[1..][1..][1..], 0, b) == (b, 0);
    assert (b / 64 * 8 + b / 8 % 8) * 8 + b % 8 == b;
    assert OctalPrefix(t[1..][1..], 1, b / 64 * 8 + b / 8 % 8) == (b, 1);
    assert OctalPrefix(t[1..], 2, b / 64) == (b, 2);
  }

  /** Whatever follows, the spelling of a byte is read as that byte. */
  lemma ByteReads(b: Byte, s: string)
    ensures Characters(EscapeByte(b) + s) == Prepended(b, Characters(s))
  {
    var text := EscapeByte(b) + s;
    if b as char in "\"\\?" {
      assert text[0] == '\\' && text[1] == b as char && text[2..] == s;
    } else if 0x20 <= b < 0x7F {
      assert text[0] == b as char && text[1..] == s;
    } else {
      OctalReads(b, s);
      assert text[0] == '\\' && text[1..] == Octal(b)[1..] + s && text[4..] == s;
      assert text[1] !in "\"\\?'";
    }
  }

  lemma EscapedStep(bytes: seq<Byte>)
    requires bytes != []
    ensures var n := |bytes| - 1; Escaped(bytes) == Escaped(bytes[..n]) + EscapeByte(bytes[n])
  {
  }

  lemma ByteReadsBefore(b: Byte, s: string, rest: seq<Byte>)
    requires Characters(s) == Some(rest)
    ensures Characters(EscapeByte(b) + s) == Some([b] + rest)
  {
    ByteReads(b, s);
    hide Characters, EscapeByte;
  }

  lemma {:induction false} EscapedReads(bytes: seq<Byte>, s: string, rest: seq<Byte>)
    requires Characters(s) == Some(rest)
    ensures Characters(Escaped(bytes) + s) == Some(bytes + rest)
    decreases |bytes|
  {
    hide Characters, EscapeByte, Prepended;
    if bytes == [] {
      assert "" + s == s && [] + rest == rest;
    } else {
      var n := |bytes| - 1;
      EscapedStep(bytes);
      ByteReadsBefore(bytes[n], s, rest);
      hide Escaped;
      EscapedReads(bytes[..n], EscapeByte(bytes[n]) + s, [bytes[n]] + rest);
      Collections.Regroup(Escaped(bytes[..n]), EscapeByte(bytes[n]), s);
      BytesRegroup(bytes, rest);
    }
  }

  lemma BytesRegroup(bytes: seq<Byte>, rest: seq<Byte>)
    requires bytes != []
    ensures var n := |bytes| - 1; bytes[..n] + ([bytes[n]] + rest) == bytes + rest
  {
  }

  /** A quoted text reads back as its bytes. */
  lemma LiteralReadsBack(bytes: seq<Byte>)
    ensures ReadLiteral("\"" + Escaped(bytes) + "\"") == Some(bytes)
  {
    assert Characters("\"") == Some([]) by {
      assert "\""[1..] == "";
    }
    EscapedReads(bytes, "\"", []);
    assert ("\"" + Escaped(bytes) + "\"")[1..] == Escaped(bytes) + "\"";
    assert bytes + [] == bytes;
  }

  /** Every question mark stands behind a backslash, and every character is printable ASCII. */
  lemma {:induction false} EscapedShape(bytes: seq<Byte>)
    ensures forall i :: 0 <= i < |Escaped(bytes)| ==> 0x20 <= Escaped(bytes)[i] as int < 0x7F
    ensures forall i :: 0 <= i < |Escaped(bytes)| && Escaped(bytes)[i] == '?' ==> i > 0 && Escaped(bytes)[i - 1] == '\\'
  {
    if bytes != [] {
      var n := |bytes| - 1;
      EscapedShape(bytes[..n]);
      var before, last := Escaped(bytes[..n]), EscapeByte(bytes[n]);
      forall i | 0 <= i < |before + last| && (before + last)[i] == '?' ensures i > 0 && (before + last)[i - 1] == '\\' {
        if i < |before| {
          assert before[i] == '?';
        } else {
          assert last[i - |before|] == '?';
        }
      }
    }
  }

  /** No literal holds two question marks in a row, the start of a trigraph (section 5.2.1.1 of ISO C11). */
  lemma NoTrigraph(bytes: seq<Byte>, i: nat)
    requires i + 1 < |"\"" + Escaped(bytes) + "\""|
    ensures !(("\"" + Escaped(bytes) + "\"")[i] == '?' && ("\"" + Escaped(bytes) + "\"")[i + 1] == '?')
  {
    EscapedShape(bytes);
    var text := "\"" + Escaped(bytes) + "\"";
    assert forall k :: 0 <= k < |Escaped(bytes)| ==> text[k + 1] == Escaped(bytes)[k];
    assert 0 < i <= |Escaped(bytes)| ==> text[i] == Escaped(bytes)[i - 1];
  }

  // ---------------------------------------------------------------- CMake bracket arguments

  function Bars(n: nat): (s: string)
    ensures |s| == n && forall i :: 0 <= i < n ==> s[i] == '='
  {
    seq(n, _ => '=')
  }

  /** The closing bracket with n bars. */
  function Close(n: nat): string {
    "]" + Bars(n) + "]"
  }

  predicate OccursAt(s: string, pattern: string, i: nat) {
    i + |pattern| <= |s| && s[i..i + |pattern|] == pattern
  }

  predicate Contains(s: string, pattern: string) {
    exists i :: 0 <= i <= |s| && OccursAt(s, pattern, i)
  }

  /** The fence of a value: the fewest bars whose closing bracket is not in it. */
  ghost predicate IsFence(value: string, n: nat) {
    n >= 1 && !Contains(value, Close(n)) && forall k :: 1 <= k < n ==> Contains(value, Close(k))
  }

  /** The one fence of a value. */
  ghost function Fence(value: string): (n: nat)
    ensures IsFence(value, n)
  {
    FenceFrom(value, 1)
  }

  ghost function FenceFrom(value: string, n: nat): (r: nat)
    requires n >= 1 && forall k :: 1 <= k < n ==> Contains(value, Close(k))
    ensures IsFence(value, r)
    decreases |value| + 1 - n
  {
    if Contains(value, Close(n)) then
      FenceFrom(value, n + 1)
    else n
  }

  function Bracketed(value: string, n: nat): string {
    "[" + Bars(n) + "[" + value + Close(n)
  }

  /** The value in brackets with the fewest bars that its text allows. */
  method CmakeValue(value: string) returns (text: string)
    ensures text == Bracketed(value, Fence(value))
  {
    var fence := "=";
    assert Bars(1) == "=";
    while Contains(value, "]" + fence + "]")
      invariant |fence| >= 1 && fence == Bars(|fence|) && forall k :: 1 <= k < |fence| ==> Contains(value, Close(k))
      decreases |value| - |fence|
    {
      ghost var n := |fence|;
      fence := fence + "=";
      assert fence == Bars(n + 1);
    }
    text := "[" + fence + "[" + value + "]" + fence + "]";
    assert text == "[" + fence + "[" + value + ("]" + fence + "]");
    assert text == Bracketed(value, |fence|);
    FenceIsUnique(value, |fence|, Fence(value));
  }

  method CmakeSet(name: string, value: string) returns (text: string)
    ensures text == "set(" + name + " " + Bracketed(value, Fence(value)) + ")"
  {
    var argument := CmakeValue(value);
    text := "set(" + name + " " + argument + ")";
  }

  /** A value has one fence. */
  lemma FenceIsUnique(value: string, m: nat, n: nat)
    requires IsFence(value, m) && IsFence(value, n)
    ensures m == n
  {
  }

  /** Where a pattern first occurs. */
  function First(s: string, pattern: string): (r: Option<nat>)
    ensures r.Some? ==> OccursAt(s, pattern, r.value) && forall i :: 0 <= i < r.value ==> !OccursAt(s, pattern, i)
    ensures r.None? ==> forall i :: 0 <= i <= |s| ==> !OccursAt(s, pattern, i)
  {
    FirstFrom(s, pattern, 0)
  }

  function FirstFrom(s: string, pattern: string, from: nat): (r: Option<nat>)
    requires from <= |s| && forall i :: 0 <= i < from ==> !OccursAt(s, pattern, i)
    ensures r.Some? ==> OccursAt(s, pattern, r.value) && forall i :: 0 <= i < r.value ==> !OccursAt(s, pattern, i)
    ensures r.None? ==> forall i :: 0 <= i <= |s| ==> !OccursAt(s, pattern, i)
    decreases |s| - from
  {
    if OccursAt(s, pattern, from) then Some(from)
    else if from == |s| then None
    else FirstFrom(s, pattern, from + 1)
  }

  function CountBars(s: string): (n: nat)
    ensures n <= |s| && forall i :: 0 <= i < n ==> s[i] == '='
    ensures n < |s| ==> s[n] != '='
  {
    if s == "" || s[0] != '=' then 0 else 1 + CountBars(s[1..])
  }

  /** A bracket argument and what follows it: a newline right after its opening is not part of it. */
  function ReadBracket(s: string): Option<(string, string)> {
    if s == "" || s[0] != '[' then None
    else
      var n := CountBars(s[1..]);
      if n + 1 >= |s| || s[n + 1] != '[' then None
      else
        var body := if n + 2 < |s| && s[n + 2] == '\n' then s[n + 3..] else s[n + 2..];
        var end := First(body, Close(n));
        if end.None? then None
        else Some((body[..end.value], body[end.value + |Close(n)|..]))
  }

  predicate EndsWith(s: string, suffix: string) {
    |suffix| <= |s| && s[|s| - |suffix|..] == suffix
  }

  lemma CountsBars(n: nat, rest: string)
    requires rest != "" && rest[0] != '='
    ensures CountBars(Bars(n) + rest) == n
  {
    var s := Bars(n) + rest;
    assert forall i :: 0 <= i < n ==> s[i] == '=';
    assert s[n] == rest[0];
  }

  /** A bracketed value and what follows it: the bars, an opening bracket and the body. */
  lemma BracketParts(value: string, n: nat, rest: string)
    ensures var body, s := value + Close(n) + rest, Bracketed(value, n) + rest;
            && body != "" && CountBars(s[1..]) == n && |s| == n + 2 + |body| && s[0] == '[' && s[n + 1] == '['
              && s[n + 2..] == body
  {
    var body, s := value + Close(n) + rest, Bracketed(value, n) + rest;
    var tail := "[" + body;
    CountsBars(n, tail);
    hide CountBars, Bars;
    assert |Close(n)| == n + 2;
    assert s[1..] == Bars(n) + tail;
    assert s[n + 1..] == tail;
  }

  /** The reading of a text that opens with n bars. */
  lemma ReadsFrom(s: string, n: nat)
    requires s != "" && s[0] == '[' && CountBars(s[1..]) == n && n + 1 < |s| && s[n + 1] == '['
    ensures var body := if n + 2 < |s| && s[n + 2] == '\n' then s[n + 3..] else s[n + 2..];
            var end := First(body, Close(n));
            ReadBracket(s) == if end.None? then None else Some((body[..end.value], body[end.value + |Close(n)|..]))
  {
    hide First, Bars;
  }

  /** The closing bracket of a value is one occurrence. */
  lemma OwnClose(value: string, n: nat, rest: string)
    ensures var body := value + Close(n) + rest;
            OccursAt(body, Close(n), |value|) && First(body, Close(n)).Some? && First(body, Close(n)).value <= |value|
  {
    var body := value + Close(n) + rest;
    assert body[|value|..|value| + |Close(n)|] == Close(n);
    assert OccursAt(body, Close(n), |value|);
    hide First, Close;
    var end := First(body, Close(n));
  }

  lemma OccursWithin(s: string, more: string, pattern: string, i: nat)
    requires OccursAt(s + more, pattern, i) && i + |pattern| <= |s|
    ensures OccursAt(s, pattern, i)
  {
    assert (s + more)[i..i + |pattern|] == s[i..i + |pattern|];
  }

  /** An occurrence that reaches into the closing bracket begins with the bracket's beginning. */
  lemma Overlap(value: string, n: nat, rest: string, i: nat)
    requires !Contains(value, Close(n)) && i < |value| && OccursAt(value + Close(n) + rest, Close(n), i)
    ensures EndsWith(value, "]" + Bars(n))
  {
    var close := Close(n);
    var body := value + close + rest;
    forall k | 0 <= k < |close| ensures body[i + k] == close[k] {
      assert body[i..i + |close|][k] == body[i + k];
    }
    Collections.Regroup(value, close, rest);
    if i + |close| <= |value| {
      OccursWithin(value, close + rest, close, i);
      assert false;
    }
    assert body[|value|] == ']' && body[i + (|value| - i)] == close[|value| - i];
    assert |value| - i == n + 1;
    assert forall k :: 0 <= k < n + 1 ==> value[i..][k] == body[i + k] == ("]" + Bars(n))[k];
    assert value[i..] == "]" + Bars(n);
  }

  /**
   In a value followed by its closing bracket, the bracket first occurs at the end of the value
   exactly when the value does not end with the bracket's beginning.
   */
  lemma FirstIsEnd(value: string, n: nat, rest: string)
    requires !Contains(value, Close(n))
    ensures First(value + Close(n) + rest, Close(n)) == Some(|value|) <==> !EndsWith(value, "]" + Bars(n))
  {
    var close := Close(n);
    var body := value + close + rest;
    OwnClose(value, n, rest);
    var i := First(body, close).value;
    if EndsWith(value, "]" + Bars(n)) {
      EarlyClose(value, n, rest);
      assert i < |value|;
    } else {
      if i < |value| {
        Overlap(value, n, rest, i);
        assert false;
      }
    }
  }

  lemma EarlyClose(value: string, n: nat, rest: string)
    requires EndsWith(value, "]" + Bars(n))
    ensures |value| >= n + 1 && OccursAt(value + Close(n) + rest, Close(n), |value| - n - 1)
  {
    var at := |value| - n - 1;
    var body := value + Close(n) + rest;
    assert value[at..] == "]" + Bars(n);
    assert body[at..] == value[at..] + (Close(n) + rest);
    assert Close(n) == "]" + Bars(n) + "]";
    assert body[at..at + n + 2] == value[at..] + "]";
  }

  /**
   A bracketed value reads back exactly when it neither starts with a newline nor ends in a bracket
   and the fence, which the search for a free fence does not see.
   */
  lemma BracketReadsBack(value: string, rest: string)
    ensures ReadBracket(Bracketed(value, Fence(value)) + rest) == Some((value, rest)) <==>
              !(value != "" && value[0] == '\n') && !EndsWith(value, "]" + Bars(Fence(value)))
  {
    var n := Fence(value);
    BracketParts(value, n, rest);
    ReadsFrom(Bracketed(value, n) + rest, n);
    hide Bracketed, First, Bars, CountBars, ReadBracket, EndsWith, Close;
    if value == "" || value[0] != '\n' {
      WholeReads(value, n, rest);
    } else {
      ShortReads(value, n, rest);
    }
  }

  lemma WholeReads(value: string, n: nat, rest: string)
    requires IsFence(value, n) && (value == "" || value[0] != '\n')
    ensures var body := value + Close(n) + rest;
            var end := First(body, Close(n));
            && body != "" && body[0] != '\n' && end.Some?
            && ((body[..end.value], body[end.value + |Close(n)|..]) == (value, rest) <==>
                  !EndsWith(value, "]" + Bars(n)))
  {
    FirstIsEnd(value, n, rest);
    OwnClose(value, n, rest);
    assert Close(n)[0] == ']';
    hide First, EndsWith, Close, IsFence;
    var body := value + Close(n) + rest;
    var end := First(body, Close(n)).value;
    assert |body[..end]| == end;
    assert body[..|value|] == value && body[|value| + |Close(n)|..] == rest;
  }

  /** After a newline at the start, what is read is too short. */
  lemma ShortReads(value: string, n: nat, rest: string)
    requires value != "" && value[0] == '\n'
    ensures var body := value + Close(n) + rest;
            var end := First(body[1..], Close(n));
            body[0] == '\n' && end.Some? && body[1..][..end.value] != value
  {
    hide First, Close;
    var body := value + Close(n) + rest;
    assert body[1..] == value[1..] + Close(n) + rest;
    OwnClose(value[1..], n, rest);
    assert |body[1..][..First(body[1..], Close(n)).value]| < |value|;
  }

  /** A value the loop fences with one bar and CMake reads as nothing but its start. */
  lemma FenceOverlaps()
    ensures Fence("a]=") == 1 && ReadBracket(Bracketed("a]=", Fence("a]="))) == Some(("a", "=]"))
  {
    var value := "a]=";
    assert Close(1) == "]=]";
    assert value[0..3][0] == 'a' && "]=]"[0] == ']';
    FenceIsUnique(value, 1, Fence(value));
    FenceOverlapsAt();
    var s := Bracketed(value, 1);
    BracketParts(value, 1, "");
    assert s + "" == s && value + Close(1) + "" == "a]=]=]";
    ReadsFrom(s, 1);
    assert s[3..] == "a]=]=]" && s[3] == 'a';
    hide First, Bracketed, ReadBracket, Close, Contains, OccursAt, Bars;
    assert "a]=]=]"[..1] == "a" && "a]=]=]"[4..] == "=]";
  }

  lemma FenceOverlapsAt()
    ensures First("a]=]=]", "]=]") == Some(1)
  {
    var body := "a]=]=]";
    assert body[1..4] == "]=]" && body[0..3][0] == 'a';
    assert OccursAt(body, "]=]", 1) && !OccursAt(body, "]=]", 0);
    hide First;
    var end := First(body, "]=]");
    assert end.Some?;
  }
}
