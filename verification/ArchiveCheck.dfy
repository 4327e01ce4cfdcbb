/** Writing and checking the record of an archive installation, and the installation as a whole. */
module ArchiveCheck {
  import opened Outcomes
  import opened StringOrder
  import opened Archive
  import opened Installer
  import Collections

  /** The paths still to list, each once and in order. */
  ghost predicate Sorted(paths: seq<string>) {
    forall i, j :: 0 <= i < j < |paths| ==> Before(paths[i], paths[j])
  }

  method SmallestOf(keys: set<string>) returns (least: string)
    requires keys != {}
    ensures least == Least(keys)
  {
    least :| least in keys;
    var rest := keys - {least};
    while rest != {}
      invariant rest <= keys && least in keys && least !in rest
      invariant forall k :: k in keys && k !in rest ==> k == least || Before(least, k)
      decreases rest
    {
      var k :| k in rest;
      BeforeTotal(k, least);
      if Before(k, least) {
        forall other | other in keys && other !in rest ensures other == least || Before(k, other) {
          if other != least {
            BeforeTransitive(k, least, other);
          }
        }
        least := k;
      }
      rest := rest - {k};
    }
    BeforeTotal(least, Least(keys));
  }

  /** The manifest lines of a tree: recorded files and links in path order. */
  method ManifestLines(digest: string -> string, tree: Tree) returns (lines: seq<string>)
    ensures lines == Lines(digest, Record(tree))
  {
    var left := map path | path in tree && Recorded(path) :: tree[path];
    assert left == Record(tree);
    lines := [];
    while left != map[]
      invariant lines + Lines(digest, left) == Lines(digest, Record(tree))
      decreases |left|
    {
      assert left.Keys != {} by {
        var path :| path in left;
      }
      var path := SmallestOf(left.Keys);
      Collections.WithoutKey(left, path);
      lines := lines + [Line(digest, path, left[path])];
      left := left - {path};
    }
  }

  /** Writes pin, stamp, exclusions and manifest into an extracted tree. */
  method WriteMetadata(digest: string -> string, p: Pinned, extracted: Tree) returns (tree: Tree)
    ensures tree == WithMetadata(digest, p, extracted)
  {
    hide Lines, JoinLines, PinText, Record;
    tree := extracted[PIN := File(PinText(p))];
    if p.stamp != "" {
      tree := tree[STAMP := File(p.stamp + "\n")];
    }
    if p.excluded != [] {
      tree := tree[EXCLUSIONS := File(JoinLines(p.excluded) + "\n")];
    }
    var lines := ManifestLines(digest, tree);
    tree := tree[MANIFEST := File(JoinLines(lines) + "\n")];
  }

  /** Whether what a path holds is the pinned installation. */
  method ArchiveMatches(digest: string -> string, p: Pinned, n: Node) returns (ok: bool)
    ensures ok <==> Installed(digest, p, n)
  {
    hide Lines, JoinLines, PinText, Record, Universal, Trim;
    var directory := n.Directory();
    if directory.None? {
      return false;
    }
    var tree := directory.value;
    if PIN !in tree || !tree[PIN].File? || MANIFEST !in tree || !tree[MANIFEST].File? {
      return false;
    }
    if Universal(tree[PIN].content) != PinText(p) {
      return false;
    }
    if p.stamp != "" && (STAMP !in tree || !tree[STAMP].File? || Trim(Universal(tree[STAMP].content)) != p.stamp) {
      return false;
    }
    var expected := JoinLines(p.excluded) + if p.excluded != [] then "\n" else "";
    if p.excluded != [] {
      if EXCLUSIONS !in tree || !tree[EXCLUSIONS].File? || Universal(tree[EXCLUSIONS].content) != expected {
        return false;
      }
    } else if EXCLUSIONS in tree {
      return false;
    }
    var actual := ManifestLines(digest, tree);
    return Universal(tree[MANIFEST].content) == JoinLines(actual) + "\n";
  }

  function LowerChar(c: char): char {
    if 'A' <= c <= 'Z' then (c - 'A') + 'a' else c
  }

  function Lower(s: string): (r: string)
    ensures |r| == |s|
    ensures forall i :: 0 <= i < |s| ==> r[i] == LowerChar(s[i])
  {
    seq(|s|, i requires 0 <= i < |s| => LowerChar(s[i]))
  }

  /** What a download brings: its checksum, and the tree it extracts to where the archive can be read. */
  datatype Download = Download(checksum: string, extracted: Option<Tree>)

  /** The download has the pinned checksum and can be extracted. */
  predicate Good(p: Pinned, download: Option<Download>) {
    download.Some? && Lower(download.value.checksum) == Lower(p.sha256) && download.value.extracted.Some?
  }

  /** The outcomes of a run that came to the replacement. */
  predicate Replaces(r: Result<bool, SyncError>) {
    r == Ok(true) || r == Err(NoReplacement) || r == Err(NoCleanup)
  }

  /** Installs an archive unless the destination already holds it. */
  method SyncArchive(fs: FileSystem, digest: string -> string, p: Pinned, download: Option<Download>, verifyOnly: bool)
    returns (r: Result<bool, SyncError>)
    requires fs.state.staging == Nothing && fs.state.backup == Nothing && !fs.state.destination.Damaged?
    modifies fs
    ensures r == Ok(false) <==> Installed(digest, p, old(fs.state).destination)
    ensures r == Err(VerifyOnly) <==> verifyOnly && !Installed(digest, p, old(fs.state).destination)
    ensures Replaces(r) <==> !verifyOnly && !Installed(digest, p, old(fs.state).destination) && Good(p, download)
    ensures r == Ok(true) || r == Err(NoCleanup) ==>
              fs.state.destination == Dir(WithMetadata(digest, p, download.value.extracted.value))
    ensures fs.state.staging == Nothing
    ensures r == Ok(true) && IsDigest(digest) && Plain(p, download.value.extracted.value) ==>
              Installed(digest, p, fs.state.destination)
    ensures r == Ok(true) ==>
              fs.state.backup == if old(fs.state).destination.Exists() then Nothing else old(fs.state).destination
    ensures r == Err(NoReplacement) ==>
              fs.state == old(fs.state) || fs.state == State(Nothing, Nothing, old(fs.state).destination)
    ensures if Replaces(r)
            then Good(p, download) && Watched(old(fs.history), fs.history, fs.state, old(fs.state).destination,
                                              WithMetadata(digest, p, download.value.extracted.value))
            else fs.state == old(fs.state) && fs.history == old(fs.history)
  {
    var present := ArchiveMatches(digest, p, fs.state.destination);
    if present {
      return Ok(false);
    }
    if verifyOnly {
      return Err(VerifyOnly);
    }
    if download.None? {
      return Err(NoDownload);
    }
    if Lower(download.value.checksum) != Lower(p.sha256) {
      return Err(BadChecksum);
    }
    if download.value.extracted.None? {
      return Err(NoExtraction);
    }
    var tree := WriteMetadata(digest, p, download.value.extracted.value);
    hide Matches, WithMetadata, Tries, Plain, IsDigest, Replace, Safe, Watched, Lower;
    if IsDigest(digest) {
      InstalledMatches(digest, p, download.value.extracted.value);
    }
    var outcome := Install(fs, tree);
    match outcome
    case Replaced => return Ok(true);
    case NotReplaced => return Err(NoReplacement);
    case NotCleaned => return Err(NoCleanup);
  }

  /** Puts a complete tree in place of the destination; what is left of the staging directory goes. */
  method Install(fs: FileSystem, tree: Tree) returns (outcome: Outcome)
    requires fs.state.staging == Nothing && fs.state.backup == Nothing && !fs.state.destination.Damaged?
    modifies fs
    ensures outcome == Replace(State(Dir(tree), old(fs.state).destination, Nothing), old(fs.script)).0
    ensures fs.state.staging == Nothing
    ensures outcome != NotReplaced ==> fs.state.destination == Dir(tree)
    ensures outcome == Replaced ==>
              fs.state.backup == if old(fs.state).destination.Exists() then Nothing else old(fs.state).destination
    ensures outcome == NotReplaced ==>
              || fs.state == old(fs.state)
              || fs.state == State(Nothing, Nothing, old(fs.state).destination)
    ensures Watched(old(fs.history), fs.history, fs.state, old(fs.state).destination, tree)
  {
    hide Tries;
    ghost var before := fs.state;
    fs.state := fs.state.(staging := Dir(tree));
    fs.history := fs.history + [fs.state];
    assert Safe(fs.state, before.destination, Dir(tree));
    ghost var prepared, script := fs.state, fs.script;
    outcome := fs.AtomicReplace();
    fs.state := fs.state.(staging := Nothing);
    fs.history := fs.history + [fs.state];
    ReplaceCases(prepared, script);
  }

  /** In every state that a run added, the old tree is whole or the new one is in place; the last is the present one. */
  ghost predicate Watched(before: seq<State>, after: seq<State>, now: State, old_: Node, tree: Tree) {
    && before < after && after[|after| - 1] == now
    && forall i :: |before| <= i < |after| ==> Whole(after[i], old_, tree)
  }

  /** The old tree is whole at the destination or aside, or the new one is in place. */
  ghost predicate Whole(s: State, old_: Node, tree: Tree) {
    s.destination == old_ || s.backup == old_ || s.destination == Dir(tree)
  }

  ghost predicate Installed(digest: string -> string, p: Pinned, n: Node) {
    n.Directory().Some? && Matches(digest, p, n.Directory().value)
  }

  lemma ReplaceCases(s: State, script: seq<bool>)
    requires s.staging.Dir? && s.backup == Nothing && !s.destination.Damaged?
    ensures Replace(s, script).0 == Replaced ==>
              Replace(s, script).1 == State(Nothing, s.staging,
                                            if s.destination.Exists() then Nothing else s.destination)
    ensures Replace(s, script).0 == NotCleaned ==> Replace(s, script).1.destination == s.staging
    ensures Replace(s, script).0 == NotReplaced ==>
              Replace(s, script).1 == s || Replace(s, script).1 == State(s.staging, Nothing, s.destination)
  {
    if Replace(s, script).0 == NotReplaced {
      FailureRestores(s, script);
    } else if Replace(s, script).0 == Replaced {
      SuccessReplaces(s, script);
    }
  }
}
