/**
 The record an archive installation keeps of itself: pin, version stamp, exclusions and a manifest
 of every file and link, and the check that an installation still is what it records.
 */
module Archive {
  import opened StringOrder
  import Collections

  /** A file with its content or a symbolic link with its target. */
  datatype Entry = File(content: string) | Link(target: string)

  /** A directory tree by path relative to its root. */
  type Tree = map<string, Entry>

  const PIN: string := ".jh-archive-pin"
  const MANIFEST: string := ".jh-content.sha256"
  const STAMP: string := ".jaszczurhal-component-version"
  const EXCLUSIONS: string := ".jh-archive-exclusions"

  // ---------------------------------------------------------------- text

  /** Text as it is read back: every line end becomes a newline. */
  function Universal(s: string): (r: string)
    ensures '\r' !in r
    ensures '\r' !in s ==> r == s
  {
    if s == "" then ""
    else if s[0] == '\r' then
      if |s| > 1 && s[1] == '\n' then "\n" + Universal(s[2..]) else "\n" + Universal(s[1..])
    else
      assert s == [s[0]] + s[1..];
      [s[0]] + Universal(s[1..])
  }

  lemma UniversalKeeps(s: string)
    ensures Universal(s) == s <==> '\r' !in s
  {
  }

  predicate IsSpace(c: char) {
    c in "\t\n\r\U{0B}\U{0C}\U{1C}\U{1D}\U{1E}\U{1F} \U{85}\U{A0}\U{1680}\U{2028}\U{2029}\U{202F}\U{205F}\U{3000}"
    || '\U{2000}' <= c <= '\U{200A}'
  }

  function TrimLeft(s: string): string {
    if s != "" && IsSpace(s[0]) then TrimLeft(s[1..]) else s
  }

  function TrimRight(s: string): string {
    if s != "" && IsSpace(s[|s| - 1]) then TrimRight(s[..|s| - 1]) else s
  }

  /** Text without white space at its ends. */
  function Trim(s: string): string {
    TrimRight(TrimLeft(s))
  }

  function JoinLines(lines: seq<string>): string {
    if lines == [] then "" else if |lines| == 1 then lines[0] else lines[0] + "\n" + JoinLines(lines[1..])
  }

  // ---------------------------------------------------------------- manifest

  /** The last part of a path. */
  function BaseName(path: string): string {
    if '/' in path then BaseName(path[1..]) else path
  }

  /** Pins and manifests at any depth are not recorded. */
  predicate Recorded(path: string) {
    BaseName(path) != PIN && BaseName(path) != MANIFEST
  }

  ghost function Record(tree: Tree): Tree {
    map path | path in tree && Recorded(path) :: tree[path]
  }

  /** The part of a manifest line before its path. */
  function Mark(digest: string -> string, e: Entry): string {
    match e case File(content) => digest(content) case Link(target) => "link:" + digest(target)
  }

  function Line(digest: string -> string, path: string, e: Entry): string {
    Mark(digest, e) + "  ./" + path
  }

  /** A line for every recorded entry, in path order. */
  ghost function Lines(digest: string -> string, record: Tree): seq<string>
    decreases |record|
  {
    if record == map[] then []
    else
      assert record.Keys != {} by {
        var path :| path in record;
      }
      var path := Least(record.Keys);
      Collections.WithoutKey(record, path);
      [Line(digest, path, record[path])] + Lines(digest, record - {path})
  }

  ghost function ManifestText(digest: string -> string, tree: Tree): string {
    JoinLines(Lines(digest, Record(tree))) + "\n"
  }

  // ---------------------------------------------------------------- installation and check

  datatype Pinned = Pinned(url: string, sha256: string, stamp: string, excluded: seq<string>)

  function PinText(p: Pinned): string {
    "url=" + p.url + "\nsha256=" + p.sha256 + "\n"
  }

  /** The metadata written into an extracted archive. */
  ghost function Stamped(p: Pinned, tree: Tree): Tree {
    var pinned := tree[PIN := File(PinText(p))];
    var stamped := if p.stamp != "" then pinned[STAMP := File(p.stamp + "\n")] else pinned;
    if p.excluded != [] then stamped[EXCLUSIONS := File(JoinLines(p.excluded) + "\n")] else stamped
  }

  ghost function WithMetadata(digest: string -> string, p: Pinned, tree: Tree): Tree {
    Stamped(p, tree)[MANIFEST := File(ManifestText(digest, Stamped(p, tree)))]
  }

  ghost predicate Reads(tree: Tree, path: string, text: string) {
    path in tree && tree[path].File? && Universal(tree[path].content) == text
  }

  /** The installation is the pinned one and nothing recorded has changed. */
  ghost predicate Matches(digest: string -> string, p: Pinned, tree: Tree) {
    && PIN in tree && tree[PIN].File? && MANIFEST in tree && tree[MANIFEST].File?
    && Universal(tree[PIN].content) == PinText(p)
    && (p.stamp != "" ==> STAMP in tree && tree[STAMP].File? && Trim(Universal(tree[STAMP].content)) == p.stamp)
    && (if p.excluded != [] then Reads(tree, EXCLUSIONS, JoinLines(p.excluded) + "\n") else EXCLUSIONS !in tree)
    && Universal(tree[MANIFEST].content) == ManifestText(digest, tree)
  }

  // ---------------------------------------------------------------- a completed installation matches

  /** What a caller can check beforehand: line ends, white space and a leftover exclusions file. */
  ghost predicate Plain(p: Pinned, tree: Tree) {
    && '\r' !in p.url && '\r' !in p.sha256
    && (p.stamp != "" ==> '\r' !in p.stamp && Trim(p.stamp) == p.stamp)
    && (if p.excluded != [] then forall i :: 0 <= i < |p.excluded| ==> '\r' !in p.excluded[i] else EXCLUSIONS !in tree)
    && forall path :: path in tree && Recorded(path) ==> '\r' !in path
  }

  /** Digests are hexadecimal text of one length. */
  ghost predicate IsDigest(digest: string -> string) {
    && (forall s :: |digest(s)| == 64)
    && (forall s, i :: 0 <= i < 64 ==> digest(s)[i] in "0123456789abcdef")
  }

  /** The text a digest is taken of: the content of a file, the target of a link. */
  function Body(e: Entry): string {
    match e case File(content) => content case Link(target) => target
  }

  /** No two different texts that two trees have at one path share a digest. */
  ghost predicate NoCollision(digest: string -> string, a: Tree, b: Tree) {
    forall p :: p in a && p in b && digest(Body(a[p])) == digest(Body(b[p])) ==> Body(a[p]) == Body(b[p])
  }

  /** The same paths, and at each the same mark. */
  ghost predicate SameMarks(digest: string -> string, a: Tree, b: Tree) {
    a.Keys == b.Keys && forall p :: p in a ==> Mark(digest, a[p]) == Mark(digest, b[p])
  }

  lemma NamesDiffer()
    ensures PIN != MANIFEST && PIN != STAMP && PIN != EXCLUSIONS && MANIFEST != STAMP && MANIFEST != EXCLUSIONS
    ensures STAMP != EXCLUSIONS
    ensures Recorded(STAMP) && Recorded(EXCLUSIONS) && !Recorded(PIN) && !Recorded(MANIFEST)
    ensures '\r' !in STAMP && '\r' !in EXCLUSIONS
  {
    assert |PIN| == 15 && |MANIFEST| == 18 && |STAMP| == 30 && |EXCLUSIONS| == 22;
    PinHasNoSlash();
    ManifestHasNoSlash();
    StampHasNoSlash();
    ExclusionsHasNoSlash();
    hide PIN, MANIFEST, STAMP, EXCLUSIONS;
  }

  lemma PinHasNoSlash()
    ensures '/' !in PIN
  {
  }

  lemma ManifestHasNoSlash()
    ensures '/' !in MANIFEST
  {
  }

  lemma StampHasNoSlash()
    ensures '/' !in STAMP && '\r' !in STAMP
  {
  }

  lemma ExclusionsHasNoSlash()
    ensures '/' !in EXCLUSIONS && '\r' !in EXCLUSIONS
  {
  }

  // trimming

  lemma {:induction false} TrimRightNewline(s: string)
    ensures TrimRight(s + "\n") == TrimRight(s)
  {
    assert (s + "\n")[..|s|] == s;
  }

  lemma {:induction false} TrimLeftNewline(s: string)
    ensures TrimLeft(s + "\n") == (if TrimLeft(s) == "" then "" else TrimLeft(s) + "\n")
  {
    if s != "" && IsSpace(s[0]) {
      assert (s + "\n")[1..] == s[1..] + "\n";
      TrimLeftNewline(s[1..]);
    } else if s == "" {
      assert s + "\n" == "\n" && "\n"[1..] == "";
    }
  }

  lemma TrimNewline(s: string)
    ensures Trim(s + "\n") == Trim(s)
  {
    TrimLeftNewline(s);
    TrimRightNewline(TrimLeft(s));
  }

  lemma {:induction false} TrimWithin(s: string, c: char)
    requires c !in s
    ensures c !in TrimLeft(s) && c !in TrimRight(s)
    decreases |s|
  {
    if s != "" {
      TrimWithin(s[1..], c);
      TrimWithin(s[..|s| - 1], c);
    }
  }

  lemma StampReads(stamp: string)
    ensures Trim(Universal(stamp + "\n")) == stamp <==> '\r' !in stamp && Trim(stamp) == stamp
  {
    var text := Universal(stamp + "\n");
    TrimWithin(text, '\r');
    TrimWithin(TrimLeft(text), '\r');
    TrimNewline(stamp);
    assert '\r' !in stamp ==> '\r' !in stamp + "\n";
  }

  // lines

  lemma {:induction false} JoinHas(lines: seq<string>, c: char)
    requires c != '\n'
    ensures c in JoinLines(lines) <==> exists i :: 0 <= i < |lines| && c in lines[i]
  {
    if |lines| > 1 {
      JoinHas(lines[1..], c);
      if c in lines[0] {
      } else if c in JoinLines(lines) {
        var i :| 0 <= i < |lines[1..]| && c in lines[1..][i];
        assert c in lines[i + 1];
      } else {
        forall i | 0 <= i < |lines| ensures c !in lines[i] {
          assert i > 0 ==> lines[i] == lines[1..][i - 1];
        }
      }
    }
  }

  lemma {:induction false} LinesHave(digest: string -> string, record: Tree, c: char)
    requires IsDigest(digest) && c == '\r'
    ensures (exists i :: 0 <= i < |Lines(digest, record)| && c in Lines(digest, record)[i]) <==>
              exists path :: path in record && c in path
    decreases |record|
  {
    if record != map[] {
      assert record.Keys != {} by {
        var path :| path in record;
      }
      var path := Least(record.Keys);
      var rest := record - {path};
      Collections.WithoutKey(record, path);
      LinesHave(digest, rest, c);
      LineHas(digest, path, record[path], c);
      var lines, more := Lines(digest, record), Lines(digest, rest);
      assert lines == [Line(digest, path, record[path])] + more;
      assert forall i :: 0 <= i < |more| ==> lines[i + 1] == more[i];
      if i :| 0 <= i < |more| && c in more[i] {
        assert c in lines[i + 1];
      }
      if c in lines[0] {
        assert path in record;
      }
    }
  }

  lemma LineHas(digest: string -> string, path: string, e: Entry, c: char)
    requires IsDigest(digest) && c == '\r'
    ensures c in Line(digest, path, e) <==> c in path
  {
    assert forall s, i :: 0 <= i < 64 ==> digest(s)[i] != c;
    assert forall s :: c !in digest(s);
  }

  lemma ManifestReads(digest: string -> string, tree: Tree)
    requires IsDigest(digest)
    ensures Universal(ManifestText(digest, tree)) == ManifestText(digest, tree) <==>
              forall path :: path in tree && Recorded(path) ==> '\r' !in path
  {
    var record := Record(tree);
    var lines := Lines(digest, record);
    UniversalKeeps(ManifestText(digest, tree));
    LinesHave(digest, record, '\r');
    JoinHas(lines, '\r');
    assert forall path :: path in record <==> path in tree && Recorded(path);
  }

  /** What an installation holds under the names of its metadata. */
  lemma InstalledEntries(digest: string -> string, p: Pinned, tree: Tree)
    ensures var t := WithMetadata(digest, p, tree);
            && PIN in t && t[PIN] == File(PinText(p)) && MANIFEST in t
              && t[MANIFEST] == File(ManifestText(digest, Stamped(p, tree)))
            && (p.stamp != "" ==> STAMP in t && t[STAMP] == File(p.stamp + "\n"))
            && (if p.excluded != [] then EXCLUSIONS in t && t[EXCLUSIONS] == File(JoinLines(p.excluded) + "\n")
                else EXCLUSIONS in t <==> EXCLUSIONS in tree)
    ensures Record(WithMetadata(digest, p, tree)) == Record(Stamped(p, tree))
  {
    NamesDiffer();
    hide PinText, ManifestText, JoinLines, Recorded;
  }

  lemma StampedNames(p: Pinned, tree: Tree)
    ensures (forall path :: path in Stamped(p, tree) && Recorded(path) ==> '\r' !in path) <==>
            (forall path :: path in tree && Recorded(path) ==> '\r' !in path)
  {
    NamesDiffer();
    hide PinText, JoinLines, Recorded;
    assert forall path :: path in tree ==> path in Stamped(p, tree);
  }

  lemma ExcludedReads(excluded: seq<string>)
    ensures Universal(JoinLines(excluded) + "\n") == JoinLines(excluded) + "\n" <==>
              forall i :: 0 <= i < |excluded| ==> '\r' !in excluded[i]
  {
    JoinHas(excluded, '\r');
    UniversalKeeps(JoinLines(excluded) + "\n");
    hide Universal;
    assert '\r' in JoinLines(excluded) + "\n" <==> '\r' in JoinLines(excluded);
  }

  lemma PinReads(p: Pinned)
    ensures Universal(PinText(p)) == PinText(p) <==> '\r' !in p.url && '\r' !in p.sha256
  {
    UniversalKeeps(PinText(p));
    hide Universal;
    assert '\r' in PinText(p) <==> '\r' in p.url || '\r' in p.sha256;
  }

  /** A completed installation matches its pin exactly for plain inputs. */
  lemma InstalledMatches(digest: string -> string, p: Pinned, tree: Tree)
    requires IsDigest(digest)
    ensures Matches(digest, p, WithMetadata(digest, p, tree)) <==> Plain(p, tree)
  {
    InstalledEntries(digest, p, tree);
    ManifestReads(digest, Stamped(p, tree));
    StampedNames(p, tree);
    StampReads(p.stamp);
    PinReads(p);
    ExcludedReads(p.excluded);
    assert ManifestText(digest, WithMetadata(digest, p, tree)) == ManifestText(digest, Stamped(p, tree));
    hide Universal, Trim, JoinLines, PinText, ManifestText, Recorded, Record, WithMetadata, Stamped, IsDigest;
  }

  // ---------------------------------------------------------------- another pin is noticed

  /** Texts up to the first line end. */
  lemma {:induction false} FirstLine(a: string, b: string, u: string, v: string)
    requires '\n' !in a && '\n' !in b && a + "\n" + u == b + "\n" + v
    ensures a == b && u == v
  {
    var x, y := a + "\n" + u, b + "\n" + v;
    assert x[0] == if a == "" then '\n' else a[0];
    assert y[0] == if b == "" then '\n' else b[0];
    assert x[1..] == if a == "" then u else a[1..] + "\n" + u;
    assert y[1..] == if b == "" then v else b[1..] + "\n" + v;
    if a != "" && b != "" {
      FirstLine(a[1..], b[1..], u, v);
      assert a == [a[0]] + a[1..] && b == [b[0]] + b[1..];
    }
  }

  lemma PinsDiffer(p: Pinned, q: Pinned)
    requires '\n' !in p.url && '\n' !in q.url
    ensures PinText(p) == PinText(q) <==> p.url == q.url && p.sha256 == q.sha256
  {
    if PinText(p) == PinText(q) {
      var u, v := "sha256=" + p.sha256 + "\n", "sha256=" + q.sha256 + "\n";
      assert PinText(p)[4..] == p.url + "\n" + u && PinText(q)[4..] == q.url + "\n" + v;
      FirstLine(p.url, q.url, u, v);
      assert u[7..|u| - 1] == p.sha256 && v[7..|v| - 1] == q.sha256;
    }
  }

  /** Lines without line ends in them are determined by their text. */
  lemma {:induction false} LinesDiffer(a: seq<string>, b: seq<string>)
    requires a != [] && b != [] && (forall i :: 0 <= i < |a| ==> '\n' !in a[i])
    requires forall i :: 0 <= i < |b| ==> '\n' !in b[i]
    ensures JoinLines(a) == JoinLines(b) ==> a == b
  {
    if JoinLines(a) == JoinLines(b) {
      assert a == [a[0]] + a[1..] && b == [b[0]] + b[1..];
      assert |a| > 1 ==> JoinLines(a)[|a[0]|] == '\n';
      assert |b| > 1 ==> JoinLines(b)[|b[0]|] == '\n';
      if |a| > 1 && |b| > 1 {
        FirstLine(a[0], b[0], JoinLines(a[1..]), JoinLines(b[1..]));
        LinesDiffer(a[1..], b[1..]);
      } else {
        assert |a| == 1 ==> '\n' !in JoinLines(a);
        assert |b| == 1 ==> '\n' !in JoinLines(b);
        assert |a| == |b| == 1;
      }
    }
  }

  /**
   A completed installation matches another pin exactly if that has the same address, digest and
   exclusions, and asks for no version stamp or for the same.
   */
  lemma MatchesOwnPin(digest: string -> string, p: Pinned, q: Pinned, tree: Tree)
    requires IsDigest(digest) && Plain(p, tree) && STAMP !in tree
    requires '\n' !in p.url && '\n' !in q.url
    requires forall i :: 0 <= i < |p.excluded| ==> '\n' !in p.excluded[i]
    requires forall i :: 0 <= i < |q.excluded| ==> '\n' !in q.excluded[i]
    ensures Matches(digest, q, WithMetadata(digest, p, tree)) <==>
              && p.url == q.url && p.sha256 == q.sha256 && p.excluded == q.excluded
              && (q.stamp == "" || q.stamp == p.stamp)
  {
    InstalledMatches(digest, p, tree);
    InstalledEntries(digest, p, tree);
    PinReads(p);
    PinsDiffer(p, q);
    StampReads(p.stamp);
    ExcludedReads(p.excluded);
    var a, b := JoinLines(p.excluded), JoinLines(q.excluded);
    if p.excluded != [] && q.excluded != [] {
      LinesDiffer(p.excluded, q.excluded);
      assert a + "\n" == b + "\n" ==> (a + "\n")[..|a|] == (b + "\n")[..|b|];
    }
    OnlyWritten(digest, p, tree);
    hide Universal, Trim, JoinLines, PinText, ManifestText, Recorded, Record, WithMetadata, Stamped, IsDigest;
  }

  /** Without a stamp of its own, an archive has one exactly if it is written. */
  lemma OnlyWritten(digest: string -> string, p: Pinned, tree: Tree)
    requires STAMP !in tree
    ensures STAMP in WithMetadata(digest, p, tree) <==> p.stamp != ""
  {
    NamesDiffer();
    hide PinText, ManifestText, JoinLines, Recorded;
  }

  // ---------------------------------------------------------------- changes are noticed

  /** Marks that begin two equal texts are equal. */
  lemma MarksAgree(digest: string -> string, e: Entry, f: Entry, u: string, v: string)
    requires IsDigest(digest) && Mark(digest, e) + u == Mark(digest, f) + v
    ensures Mark(digest, e) == Mark(digest, f) && u == v
  {
    var text := Mark(digest, e) + u;
    MarkStarts(digest, e);
    MarkStarts(digest, f);
    assert text[0] == Mark(digest, e)[0] == Mark(digest, f)[0];
    assert text[..|Mark(digest, e)|] == Mark(digest, e) == Mark(digest, f);
    assert text[|Mark(digest, e)|..] == u == v;
  }

  /** Equal marks are of one kind and of texts with one digest. */
  lemma MarkIs(digest: string -> string, e: Entry, f: Entry)
    requires IsDigest(digest)
    ensures Mark(digest, e) == Mark(digest, f) <==> (e.File? <==> f.File?) && digest(Body(e)) == digest(Body(f))
  {
    MarkStarts(digest, e);
    MarkStarts(digest, f);
    assert e.Link? ==> Mark(digest, e)[5..] == digest(Body(e));
    assert f.Link? ==> Mark(digest, f)[5..] == digest(Body(f));
  }

  lemma MarkStarts(digest: string -> string, e: Entry)
    requires IsDigest(digest)
    ensures |Mark(digest, e)| == (if e.Link? then 69 else 64)
    ensures Mark(digest, e)[0] == 'l' <==> e.Link?
  {
    assert forall s :: digest(s)[0] in "0123456789abcdef";
  }

  lemma {:induction false} LinesCount(digest: string -> string, record: Tree)
    ensures |Lines(digest, record)| == |record|
    decreases |record|
  {
    if record != map[] {
      assert record.Keys != {} by {
        var path :| path in record;
      }
      var path := Least(record.Keys);
      Collections.WithoutKey(record, path);
      LinesCount(digest, record - {path});
    }
  }

  /** One step of the list of lines and of their joining. */
  lemma LinesStep(digest: string -> string, record: Tree)
    requires record != map[]
    ensures record.Keys != {}
    ensures var path := Least(record.Keys);
            var rest := record - {path};
            && path in record && |rest| == |record| - 1
            && JoinLines(Lines(digest, record)) ==
               Line(digest, path, record[path]) + if rest == map[] then "" else "\n" + JoinLines(Lines(digest, rest))
  {
    assert record.Keys != {} by {
      var path :| path in record;
    }
    var path := Least(record.Keys);
    var rest := record - {path};
    Collections.WithoutKey(record, path);
    LinesCount(digest, rest);
    assert rest != map[] ==> |rest| > 0;
    JoinStep(Line(digest, path, record[path]), Lines(digest, rest));
    hide Line, JoinLines;
  }

  lemma JoinStep(first: string, more: seq<string>)
    ensures JoinLines([first] + more) == first + if more == [] then "" else "\n" + JoinLines(more)
  {
    var lines := [first] + more;
    assert lines[1..] == more;
    if more == [] {
      assert first + "" == first;
    } else {
      assert first + "\n" + JoinLines(more) == first + ("\n" + JoinLines(more));
    }
  }

  /** Trees of the same marks have the same lines. */
  lemma {:induction false} MarksGiveLines(digest: string -> string, a: Tree, b: Tree)
    requires SameMarks(digest, a, b)
    ensures JoinLines(Lines(digest, a)) == JoinLines(Lines(digest, b))
    decreases |a|
  {
    hide Mark;
    if a == map[] {
      assert b.Keys == {};
      assert b == map[];
    } else {
      LinesStep(digest, a);
      var path := Least(a.Keys);
      assert path in b;
      assert b != map[];
      LinesStep(digest, b);
      var ra, rb := a - {path}, b - {path};
      assert ra.Keys == rb.Keys == a.Keys - {path};
      assert ra == map[] <==> rb == map[] by {
        assert ra == map[] <==> ra.Keys == {};
        assert rb == map[] <==> rb.Keys == {};
      }
      hide Lines, JoinLines;
      MarksGiveLines(digest, ra, rb);
    }
  }

  /** Among trees with the same paths, whatever they are, one manifest stands for the same marks. */
  lemma {:induction false} LinesGiveMarks(digest: string -> string, a: Tree, b: Tree)
    requires IsDigest(digest) && a.Keys == b.Keys
    requires JoinLines(Lines(digest, a)) == JoinLines(Lines(digest, b))
    ensures SameMarks(digest, a, b)
    decreases |a|
  {
    if a != map[] {
      assert b != map[] by {
        var path :| path in a;
        assert path in b;
      }
      LinesStep(digest, a);
      LinesStep(digest, b);
      var path := Least(a.Keys);
      var ra, rb := a - {path}, b - {path};
      var ta, tb := After(digest, ra), After(digest, rb);
      assert ra.Keys == rb.Keys == a.Keys - {path};
      hide Lines, JoinLines, IsDigest, Mark;
      assert Line(digest, path, a[path]) + ta == Line(digest, path, b[path]) + tb;
      LineSplits(digest, path, a[path], path, b[path], ta, tb);
      SuffixSame("  ./" + path, ta, tb);
      AfterSame(digest, ra, rb);
      LinesGiveMarks(digest, ra, rb);
      MarksRejoin(digest, a, b, path);
    }
  }

  /**
   Among trees with the same recorded paths one manifest stands for the same kinds and digests; where
   no texts collide, for the same contents.
   */
  lemma ContentsDecided(digest: string -> string, a: Tree, b: Tree)
    requires IsDigest(digest) && a.Keys == b.Keys
    ensures JoinLines(Lines(digest, a)) == JoinLines(Lines(digest, b)) <==> SameMarks(digest, a, b)
    ensures NoCollision(digest, a, b) ==> (JoinLines(Lines(digest, a)) == JoinLines(Lines(digest, b)) <==> a == b)
  {
    if JoinLines(Lines(digest, a)) == JoinLines(Lines(digest, b)) {
      LinesGiveMarks(digest, a, b);
    }
    if SameMarks(digest, a, b) {
      MarksGiveLines(digest, a, b);
    }
    if NoCollision(digest, a, b) {
      MarksGiveContents(digest, a, b);
    }
  }

  /** Without collisions the marks are as good as the contents. */
  lemma MarksGiveContents(digest: string -> string, a: Tree, b: Tree)
    requires IsDigest(digest) && NoCollision(digest, a, b)
    ensures SameMarks(digest, a, b) <==> a == b
  {
    if SameMarks(digest, a, b) {
      forall p | p in a ensures p in b && a[p] == b[p] {
        MarkIs(digest, a[p], b[p]);
      }
      assert a == b;
    }
  }

  lemma SuffixSame(p: string, a: string, b: string)
    requires p + a == p + b
    ensures a == b
  {
    assert (p + a)[|p|..] == a && (p + b)[|p|..] == b;
  }

  lemma MarksRejoin(digest: string -> string, a: Tree, b: Tree, path: string)
    requires path in a && path in b && Mark(digest, a[path]) == Mark(digest, b[path])
    requires SameMarks(digest, a - {path}, b - {path})
    ensures SameMarks(digest, a, b)
  {
    hide Mark;
    forall p ensures p in a <==> p in b {
      if p != path {
        assert p in a <==> p in (a - {path}).Keys;
        assert p in b <==> p in (b - {path}).Keys;
      }
    }
    forall p | p in a ensures Mark(digest, a[p]) == Mark(digest, b[p]) {
      if p != path {
        assert p in a - {path};
      }
    }
  }

  lemma LineSplits(digest: string -> string, p: string, e: Entry, q: string, f: Entry, u: string, v: string)
    requires IsDigest(digest)
    requires Line(digest, p, e) + u == Line(digest, q, f) + v
    ensures Mark(digest, e) == Mark(digest, f) && "  ./" + p + u == "  ./" + q + v
  {
    Regroup(Mark(digest, e), "  ./", p, u);
    Regroup(Mark(digest, f), "  ./", q, v);
    hide Mark;
    MarksAgree(digest, e, f, "  ./" + p + u, "  ./" + q + v);
  }

  lemma Regroup(a: string, b: string, c: string, d: string)
    ensures a + b + c + d == a + (b + c + d)
  {
  }

  /**
   An installation that matched, its manifest and its recorded paths unchanged: it can only match
   again when every recorded entry keeps its mark, and then it does as long as its other metadata stays.
   */
  lemma ChangesAreNoticed(digest: string -> string, p: Pinned, before: Tree, after: Tree)
    requires IsDigest(digest) && Matches(digest, p, before)
    requires MANIFEST in after && after[MANIFEST] == before[MANIFEST] && Record(before).Keys == Record(after).Keys
    ensures Matches(digest, p, after) ==> SameMarks(digest, Record(before), Record(after))
    ensures Same(before, after, PIN) && Same(before, after, STAMP) && Same(before, after, EXCLUSIONS) ==>
              (Matches(digest, p, after) <==> SameMarks(digest, Record(before), Record(after)))
  {
    var a, b := JoinLines(Lines(digest, Record(before))), JoinLines(Lines(digest, Record(after)));
    ContentsDecided(digest, Record(before), Record(after));
    NewlineSame(a, b);
    assert ManifestText(digest, before) == a + "\n" && ManifestText(digest, after) == b + "\n";
    hide Record, Lines, JoinLines, Mark, PinText, Universal, Trim, ManifestText, SameMarks, IsDigest;
  }

  ghost predicate Same(before: Tree, after: Tree, path: string) {
    (path in before <==> path in after) && (path in before ==> before[path] == after[path])
  }

  /** A recorded file or link that has changed, in content or in kind, is noticed unless the two texts collide. */
  lemma ChangeIsNoticed(digest: string -> string, p: Pinned, before: Tree, after: Tree, path: string)
    requires IsDigest(digest) && Matches(digest, p, before)
    requires MANIFEST in after && after[MANIFEST] == before[MANIFEST] && Record(before).Keys == Record(after).Keys
    requires path in before && Recorded(path) && path in after && after[path] != before[path]
    requires digest(Body(before[path])) == digest(Body(after[path])) ==> Body(before[path]) == Body(after[path])
    ensures !Matches(digest, p, after)
  {
    ChangesAreNoticed(digest, p, before, after);
    MarkIs(digest, before[path], after[path]);
    assert path in Record(before) && Record(before)[path] == before[path] && Record(after)[path] == after[path];
  }

  lemma NewlineSame(a: string, b: string)
    ensures a + "\n" == b + "\n" ==> a == b
  {
    assert a == (a + "\n")[..|a|] && b == (b + "\n")[..|b|];
    assert |a + "\n"| == |a| + 1 && |b + "\n"| == |b| + 1;
  }

  /** Names without a line end at the start of two equal texts, up to a line end, are equal. */
  lemma NamesEnd(p: string, q: string, u: string, v: string)
    requires '\n' !in p && '\n' !in q && p + u == q + v
    requires (u == "" || u[0] == '\n') && (v == "" || v[0] == '\n')
    ensures p == q && u == v
  {
    var text := p + u;
    assert forall i :: 0 <= i < |q| ==> text[i] == q[i];
    assert forall i :: 0 <= i < |p| ==> text[i] == p[i];
    assert |u| > 0 ==> text[|p|] == '\n';
    assert |v| > 0 ==> text[|q|] == '\n';
    assert |text| == |p| + |u| == |q| + |v|;
    assert |p| == |q|;
    assert text[..|p|] == p && text[|p|..] == u;
  }

  /** What follows the first line of a manifest. */
  ghost function After(digest: string -> string, rest: Tree): string {
    if rest == map[] then "" else "\n" + JoinLines(Lines(digest, rest))
  }

  lemma AfterSame(digest: string -> string, a: Tree, b: Tree)
    requires After(digest, a) == After(digest, b)
    ensures JoinLines(Lines(digest, a)) == JoinLines(Lines(digest, b))
  {
    if a != map[] && b != map[] {
      assert After(digest, a)[1..] == JoinLines(Lines(digest, a));
      assert After(digest, b)[1..] == JoinLines(Lines(digest, b));
    }
  }

  lemma FirstsAgree(digest: string -> string, a: Tree, b: Tree)
    requires IsDigest(digest) && a != map[] && b != map[]
    requires forall path :: path in a || path in b ==> '\n' !in path
    requires JoinLines(Lines(digest, a)) == JoinLines(Lines(digest, b))
    ensures a.Keys != {} && b.Keys != {}
    ensures var p, q := Least(a.Keys), Least(b.Keys);
            && p == q && p in a && q in b && Mark(digest, a[p]) == Mark(digest, b[q])
            && JoinLines(Lines(digest, a - {p})) == JoinLines(Lines(digest, b - {q}))
  {
    LinesStep(digest, a);
    LinesStep(digest, b);
    var p, q := Least(a.Keys), Least(b.Keys);
    var ta, tb := After(digest, a - {p}), After(digest, b - {q});
    hide Lines, JoinLines, IsDigest, Mark;
    assert Line(digest, p, a[p]) + ta == Line(digest, q, b[q]) + tb;
    LineSplits(digest, p, a[p], q, b[q], ta, tb);
    Collections.Regroup("  ./", p, ta);
    Collections.Regroup("  ./", q, tb);
    SuffixSame("  ./", p + ta, q + tb);
    NamesEnd(p, q, ta, tb);
    AfterSame(digest, a - {p}, b - {q});
  }

  lemma {:induction false} TextGivesMarks(digest: string -> string, a: Tree, b: Tree)
    requires IsDigest(digest)
    requires forall path :: path in a || path in b ==> '\n' !in path
    requires JoinLines(Lines(digest, a)) == JoinLines(Lines(digest, b))
    ensures SameMarks(digest, a, b)
    decreases |a|
  {
    hide Mark;
    if a != map[] && b != map[] {
      var p, q := Least(a.Keys), Least(b.Keys);
      var ra, rb := a - {p}, b - {q};
      FirstsAgree(digest, a, b);
      LinesStep(digest, a);
      hide Lines, JoinLines, IsDigest;
      TextGivesMarks(digest, ra, rb);
      MarksRejoin(digest, a, b, p);
    } else {
      NoLines(digest, a);
      NoLines(digest, b);
    }
  }

  /**
   Where no recorded path has a line end, files cannot come or go unnoticed either: one manifest
   stands for one set of paths with the same marks, and without collisions for one tree.
   */
  lemma ManifestDecides(digest: string -> string, a: Tree, b: Tree)
    requires IsDigest(digest) && forall path :: path in a || path in b ==> '\n' !in path
    ensures JoinLines(Lines(digest, a)) == JoinLines(Lines(digest, b)) <==> SameMarks(digest, a, b)
    ensures NoCollision(digest, a, b) ==> (JoinLines(Lines(digest, a)) == JoinLines(Lines(digest, b)) <==> a == b)
  {
    if JoinLines(Lines(digest, a)) == JoinLines(Lines(digest, b)) {
      TextGivesMarks(digest, a, b);
    }
    if SameMarks(digest, a, b) {
      MarksGiveLines(digest, a, b);
    }
    if NoCollision(digest, a, b) {
      MarksGiveContents(digest, a, b);
    }
  }

  /** Only the empty tree has the empty text. */
  lemma NoLines(digest: string -> string, a: Tree)
    requires IsDigest(digest)
    ensures JoinLines(Lines(digest, a)) == "" <==> a == map[]
  {
    if a != map[] {
      LinesStep(digest, a);
      var path := Least(a.Keys);
      MarkStarts(digest, a[path]);
      assert |Line(digest, path, a[path])| > 0;
    }
  }

  /** The last part of a path does not depend on what stands before a slash. */
  lemma {:induction false} BaseAfter(p: string, q: string)
    ensures BaseName(p + "/" + q) == BaseName(q)
  {
    var path := p + "/" + q;
    assert path[|p|] == '/';
    if p == "" {
      assert path[1..] == q;
    } else {
      assert path[1..] == p[1..] + "/" + q;
      BaseAfter(p[1..], q);
    }
  }

  /** A text that ends in the manifest of a record ends in the name of its last entry. */
  lemma {:induction false} EndsRecorded(digest: string -> string, record: Tree, before: string)
    requires record != map[] && forall path :: path in record ==> Recorded(path)
    ensures Recorded(before + JoinLines(Lines(digest, record)))
    decreases |record|
  {
    LinesStep(digest, record);
    var path := Least(record.Keys);
    var line, rest := Line(digest, path, record[path]), record - {path};
    if rest == map[] {
      var mark := Mark(digest, record[path]);
      LastLine(before, mark, path);
      BaseAfter(before + mark + "  .", path);
    } else {
      EndsRecorded(digest, rest, before + line + "\n");
      hide Line, Lines, JoinLines, Recorded;
      OneMoreLine(before, line, JoinLines(Lines(digest, rest)));
    }
  }

  lemma LastLine(before: string, mark: string, path: string)
    ensures before + (mark + "  ./" + path + "") == before + mark + "  ." + "/" + path
  {
  }

  lemma OneMoreLine(before: string, line: string, rest: string)
    ensures before + (line + ("\n" + rest)) == before + line + "\n" + rest
  {
  }

  /** The manifest of one entry is its line. */
  lemma Single(digest: string -> string, name: string, e: Entry)
    ensures JoinLines(Lines(digest, map[name := e])) == Line(digest, name, e)
  {
    var tree: Tree := map[name := e];
    LinesStep(digest, tree);
    hide Lines, JoinLines, Line;
    assert tree.Keys == {name} && Least(tree.Keys) == name && tree - {name} == map[];
    assert Line(digest, name, e) + "" == Line(digest, name, e);
  }

  /**
   Line ends in paths forge manifests: whatever a tree records, if it has two entries or more, one
   file or link alone has the same manifest.
   */
  lemma LineEndForges(digest: string -> string, record: Tree) returns (forged: Tree)
    requires |record| >= 2 && Record(record) == record
    ensures |forged| == 1 && Record(forged) == forged && forged != record
    ensures ManifestText(digest, forged) == ManifestText(digest, record)
  {
    assert record != map[];
    LinesStep(digest, record);
    var path := Least(record.Keys);
    var rest := record - {path};
    var e, tail := record[path], JoinLines(Lines(digest, rest));
    var name := path + "\n" + tail;
    forged := map[name := e];
    EndsRecorded(digest, rest, path + "\n") by { RestRecorded(record, path); }
    Single(digest, name, e);
    hide Lines, JoinLines;
    OneMoreLine(Mark(digest, e) + "  ./", path, tail);
    Collections.Regroup(Mark(digest, e) + "  ./", path, "\n" + tail);
    Collections.Regroup(Mark(digest, e) + "  ./", path + "\n", tail);
    Collections.Regroup(Mark(digest, e) + "  ./", path, "\n");
    assert Record(forged) == forged;
  }

  lemma RestRecorded(record: Tree, path: string)
    requires Record(record) == record && path in record
    ensures forall p :: p in record - {path} ==> Recorded(p)
  {
    hide Recorded;
    forall p | p in record - {path} ensures Recorded(p) {
      assert p in Record(record);
    }
  }

  // ---------------------------------------------------------------- installations that do not match

  /** An archive that ships its own exclusions file, installed with nothing excluded, counts as modified. */
  lemma OwnExclusionsMismatch(digest: string -> string, url: string, sha256: string, text: string)
    ensures var p, tree: Tree := Pinned(url, sha256, "", []), map["lib.h" := File(""), EXCLUSIONS := File(text)];
            !Plain(p, tree) && !Matches(digest, p, WithMetadata(digest, p, tree))
  {
    var p, tree: Tree := Pinned(url, sha256, "", []), map["lib.h" := File(""), EXCLUSIONS := File(text)];
    InstalledEntries(digest, p, tree);
    hide PinText, ManifestText, WithMetadata, Universal;
  }

  /** A stamp with white space at its end is read back without it. */
  lemma SpacedStampMismatch(digest: string -> string, url: string, sha256: string, tree: Tree)
    ensures var p := Pinned(url, sha256, "1.0 ", []);
            !Plain(p, tree) && !Matches(digest, p, WithMetadata(digest, p, tree))
  {
    var p := Pinned(url, sha256, "1.0 ", []);
    assert TrimLeft("1.0 ") == "1.0 " && TrimRight("1.0 ") != "1.0 " by {
      assert "1.0 "[..3] == "1.0";
      TrimShorter("1.0");
    }
    StampReads(p.stamp);
    InstalledEntries(digest, p, tree);
    hide PinText, ManifestText, WithMetadata, Universal, Trim;
  }

  lemma {:induction false} TrimShorter(s: string)
    ensures |TrimRight(s)| <= |s|
  {
    if s != "" {
      TrimShorter(s[..|s| - 1]);
    }
  }
}
