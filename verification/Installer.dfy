/**
 Installation of an archive by renaming: the new tree is prepared beside its destination, the old
 one is moved aside and either removed or put back. Every rename and removal may fail.
 */
module Installer {
  import opened Outcomes
  import opened Archive

  /** What a path holds; an alias is a symbolic link, and damaged is what a failed removal leaves of a directory. */
  datatype Node = Nothing | Dir(tree: Tree) | Regular | Alias(to: Node) | Damaged {
    /** Whether the path leads to something. */
    predicate Exists() { if Alias? then to.Exists() else !Nothing? }

    /** The directory the path leads to. */
    function Directory(): Option<Tree> { if Alias? then to.Directory() else if Dir? then Some(tree) else None }
  }

  /** The prepared tree, the destination and the place the old tree is moved to. */
  datatype State = State(staging: Node, destination: Node, backup: Node)

  datatype Slot = Staging | Destination | Backup

  function At(s: State, slot: Slot): Node {
    match slot case Staging => s.staging case Destination => s.destination case Backup => s.backup
  }

  function With(s: State, slot: Slot, n: Node): State {
    match slot case Staging => s.(staging := n) case Destination => s.(destination := n) case Backup => s.(backup := n)
  }

  function Moved(s: State, from: Slot, to: Slot): State {
    With(With(s, to, At(s, from)), from, Nothing)
  }

  /** Up to n attempts, each with the outcome the script gives: success, and the outcomes left. */
  function Tries(script: seq<bool>, n: nat): (bool, seq<bool>) {
    if n == 0 then (false, script)
    else if script == [] then (true, [])
    else if script[0] then (true, script[1..])
    else Tries(script[1..], n - 1)
  }

  const ATTEMPTS: nat := 8

  datatype Outcome = Replaced | NotReplaced | NotCleaned

  /** What a replacement does, given the outcomes of its renames and removals. */
  function Replace(s: State, script: seq<bool>): (Outcome, State, seq<bool>) {
    var had := s.destination != Nothing;
    var (away, rest) := if had then Tries(script, ATTEMPTS) else (true, script);
    if !away then (NotReplaced, s, rest)
    else
      var aside := if had then Moved(s, Destination, Backup) else s;
      var (placed, rest') := Tries(rest, ATTEMPTS);
      if placed then Cleaned(Moved(aside, Staging, Destination), rest')
      else if had && aside.backup.Exists() then
        var (restored, rest'') := Tries(rest', ATTEMPTS);
        (NotReplaced, if restored then Moved(aside, Backup, Destination) else aside, rest'')
      else (NotReplaced, aside, rest')
  }

  /** The removal of the old tree, which may leave a part of it behind. */
  function Cleaned(s: State, script: seq<bool>): (Outcome, State, seq<bool>) {
    if !s.backup.Exists() then (Replaced, s, script)
    else
      var (removed, rest) := Tries(script, ATTEMPTS);
      if removed then (Replaced, s.(backup := Nothing), rest)
      else (NotCleaned, s.(backup := if s.backup.Dir? then Damaged else s.backup), rest)
  }

  /** Until the new tree is in place, the old one is intact at the destination or aside. */
  predicate Safe(s: State, old_: Node, new_: Node) {
    || s == State(new_, old_, Nothing)
    || s == State(new_, Nothing, old_)
    || (s.staging == Nothing && s.destination == new_
        && (s.backup == old_ || s.backup == Nothing || (s.backup == Damaged && old_.Dir?)))
  }

  // ---------------------------------------------------------------- what a replacement leaves

  /** A failed replacement leaves everything as it was exactly under the condition a caller can read off. */
  lemma FailureRestores(s: State, script: seq<bool>)
    requires s.staging.Dir? && s.backup == Nothing && !s.destination.Damaged?
    requires Replace(s, script).0 == NotReplaced
    ensures var (away, rest) := if s.destination != Nothing then Tries(script, ATTEMPTS) else (true, script);
            Replace(s, script).1 == s <==>
              s.destination == Nothing || !away || (s.destination.Exists()
                                                    && Tries(Tries(rest, ATTEMPTS).1, ATTEMPTS).0)
    ensures Replace(s, script).1 == s || Replace(s, script).1 == State(s.staging, Nothing, s.destination)
  {
  }

  /** A finished replacement leaves the new tree, and nothing aside but a dead link it replaced. */
  lemma SuccessReplaces(s: State, script: seq<bool>)
    requires s.staging.Dir? && s.backup == Nothing && Replace(s, script).0 == Replaced
    ensures Replace(s, script).1 == State(Nothing, s.staging, if s.destination.Exists() then Nothing else s.destination)
  {
  }

  /** A dead link at the destination is not put back even when every further rename would succeed. */
  lemma DeadLinkIsLost(tree: Tree)
    ensures var s, script := State(Dir(tree), Alias(Nothing), Nothing), [true] + seq(ATTEMPTS, _ => false);
            Replace(s, script) == (NotReplaced, State(Dir(tree), Nothing, Alias(Nothing)), [])
  {
    var failing := seq(ATTEMPTS, _ => false);
    var script := [true] + failing;
    assert script[1..] == failing;
    AllFail(failing);
  }

  lemma {:induction false} AllFail(script: seq<bool>)
    requires forall i :: 0 <= i < |script| ==> !script[i]
    ensures Tries(script, |script|) == (false, [])
  {
    if script != [] {
      AllFail(script[1..]);
    }
  }

  // ---------------------------------------------------------------- the file system

  datatype SyncError = VerifyOnly | NoDownload | BadChecksum | NoExtraction | NoReplacement | NoCleanup

  class FileSystem {
    var state: State
    var script: seq<bool>          // outcomes of the renames and removals to come
    ghost var history: seq<State>  // every state so far, the current one last

    constructor (state: State, script: seq<bool>)
      ensures this.state == state && this.script == script && history == [state]
    {
      this.state, this.script, this.history := state, script, [state];
    }

    /** Renames, trying again up to eight times. */
    method RenameWithRetry(from: Slot, to: Slot) returns (ok: bool)
      requires At(state, from) != Nothing && At(state, to) == Nothing && from != to
      modifies this
      ensures (ok, script) == Tries(old(script), ATTEMPTS)
      ensures state == if ok then Moved(old(state), from, to) else old(state)
      ensures old(history) <= history
      ensures forall i :: |old(history)| <= i < |history| ==> history[i] == old(state) || history[i] == state
    {
      var attempt := 0;
      while attempt < ATTEMPTS
        invariant attempt <= ATTEMPTS && state == old(state) && old(history) <= history
        invariant Tries(script, ATTEMPTS - attempt) == Tries(old(script), ATTEMPTS)
        invariant forall i :: |old(history)| <= i < |history| ==> history[i] == old(state)
      {
        ok := script == [] || script[0];
        script := if script == [] then [] else script[1..];
        if ok {
          state := Moved(state, from, to);
          history := history + [state];
          return;
        }
        history := history + [state];
        attempt := attempt + 1;
      }
      return false;
    }

    /** Removes what is aside, trying again up to eight times; a failed attempt may remove a part. */
    method RemoveBackup() returns (ok: bool)
      requires state.backup != Nothing && !state.backup.Damaged?
      modifies this
      ensures (ok, script) == Tries(old(script), ATTEMPTS)
      ensures state == old(state).(backup := if ok then Nothing
                                             else if old(state).backup.Dir? then Damaged else old(state).backup)
      ensures old(history) <= history
      ensures forall i :: |old(history)| <= i < |history| ==>
                || history[i] == old(state).(backup := Nothing) || history[i] == old(state)
                || (old(state).backup.Dir? && history[i] == old(state).(backup := Damaged))
    {
      var attempt := 0;
      while attempt < ATTEMPTS
        invariant attempt <= ATTEMPTS && old(history) <= history
        invariant state == if attempt > 0 && old(state).backup.Dir? then old(state).(backup := Damaged) else old(state)
        invariant Tries(script, ATTEMPTS - attempt) == Tries(old(script), ATTEMPTS)
        invariant forall i :: |old(history)| <= i < |history| ==>
                    history[i] == old(state) || (old(state).backup.Dir? && history[i] == old(state).(backup := Damaged))
      {
        ok := script == [] || script[0];
        script := if script == [] then [] else script[1..];
        if ok {
          state := state.(backup := Nothing);
          history := history + [state];
          return;
        }
        if state.backup.Dir? {
          state := state.(backup := Damaged);
        }
        history := history + [state];
        attempt := attempt + 1;
      }
      return false;
    }

    /** Replaces the destination by the prepared tree, or puts the old one back. */
    method AtomicReplace() returns (r: Outcome)
      requires state.staging.Dir? && state.backup == Nothing && !state.destination.Damaged?
      modifies this
      ensures (r, state, script) == Replace(old(state), old(script))
      ensures old(history) <= history
      ensures forall i :: |old(history)| <= i < |history| ==>
                Safe(history[i], old(state).destination, old(state).staging)
    {
      hide Tries;
      var had := state.destination != Nothing;
      if had {
        var away := RenameWithRetry(Destination, Backup);
        if !away {
          return NotReplaced;
        }
      }
      var placed := RenameWithRetry(Staging, Destination);
      if !placed {
        if had && state.backup.Exists() && !state.destination.Exists() {
          var restored := RenameWithRetry(Backup, Destination);
        }
        return NotReplaced;
      }
      if state.backup.Exists() {
        var removed := RemoveBackup();
        return if removed then Replaced else NotCleaned;
      }
      return Replaced;
    }
  }
}
