/**
 Functions placed in RAM must not reach flash: the search over direct branches of a linked image,
 following linker veneers.
 */
module RamPaths {
  import opened Outcomes

  datatype Extent = Extent(start: nat, size: nat)

  datatype Span = Span(at: Extent, name: string)

  datatype Symbols = Symbols(
    spans: seq<Span>,             // sized symbols
    byName: map<string, Extent>,
    plain: nat -> string)         // name of the function at an address

  /** An image: its symbols, and the targets of the direct branch at each address that has one. */
  datatype Image = Image(symbols: Symbols, code: nat -> seq<nat>)

  function TargetsIn(code: nat -> seq<nat>, start: nat, size: nat): seq<nat> {
    if size == 0 then [] else TargetsIn(code, start, size - 1) + code(start + size - 1)
  }

  /** The branch targets a disassembly of the extent shows. */
  function Branches(image: Image, e: Extent): seq<nat> {
    TargetsIn(image.code, e.start, e.size)
  }

  lemma {:induction false} TargetsAre(code: nat -> seq<nat>, start: nat, size: nat, t: nat)
    ensures t in TargetsIn(code, start, size) <==> exists a :: start <= a < start + size && t in code(a)
  {
    if size > 0 {
      TargetsAre(code, start, size - 1, t);
    }
  }

  lemma BranchesAre(image: Image, e: Extent, t: nat)
    ensures t in Branches(image, e) <==> exists a :: Covers(e, a) && t in image.code(a)
  {
    TargetsAre(image.code, e.start, e.size, t);
    if a: nat :| Covers(e, a) && t in image.code(a) {
      assert e.start <= a < e.start + e.size && t in image.code(a);
    }
    if a :| e.start <= a < e.start + e.size && t in image.code(a) {
      assert Covers(e, a);
    }
  }

  const SRAM_START: nat := 0x20000000
  const SRAM_END: nat := 0x20082000

  predicate InSram(address: nat) {
    SRAM_START <= address < SRAM_END
  }

  predicate Covers(e: Extent, address: nat) {
    e.start <= address < e.start + e.size
  }

  // ---------------------------------------------------------------- symbols

  ghost predicate Sorted(spans: seq<Span>) {
    forall i, j :: 0 <= i < j < |spans| ==> spans[i].at.start <= spans[j].at.start
  }

  /** How many leading spans a bisection by address puts at or below it. */
  function Below(spans: seq<Span>, address: nat): (n: nat)
    ensures n <= |spans|
    ensures Sorted(spans) ==> forall i :: 0 <= i < |spans| ==> (i < n <==> spans[i].at.start <= address)
  {
    if spans == [] then 0
    else if spans[|spans| - 1].at.start <= address then |spans|
    else Below(spans[..|spans| - 1], address)
  }

  /** The symbol an address lies in: only the last one that starts at or below it is looked at. */
  function Containing(spans: seq<Span>, address: nat): Option<Span> {
    var n := Below(spans, address);
    if n > 0 && Covers(spans[n - 1].at, address) then Some(spans[n - 1]) else None
  }

  /** Symbols are in order and do not overlap. */
  ghost predicate Disjoint(spans: seq<Span>) {
    forall i, j :: 0 <= i < j < |spans| ==> spans[i].at.start + spans[i].at.size <= spans[j].at.start
  }

  /** Among symbols that do not overlap the bisection finds the one an address lies in. */
  lemma ContainingIsTheSymbol(spans: seq<Span>, address: nat, s: Span)
    requires Disjoint(spans) && Sorted(spans)
    ensures Containing(spans, address) == Some(s) <==> s in spans && Covers(s.at, address)
  {
    var n := Below(spans, address);
    assert forall i, j :: 0 <= i < j < |spans| && Covers(spans[i].at, address) ==> spans[j].at.start > address;
    assert n > 0 ==> spans[n - 1].at.start <= address;
    if s in spans && Covers(s.at, address) {
      var i :| 0 <= i < |spans| && spans[i] == s;
      assert i < n;
      assert i == n - 1;
    }
  }

  const VENEER: string := "_veneer"

  /** The symbol a linker veneer jumps to. */
  function VeneerTarget(name: string): Option<string> {
    if |name| > 2 + |VENEER| && name[..2] == "__" && name[|name| - |VENEER|..] == VENEER
    then Some(name[2..|name| - |VENEER|])
    else None
  }

  /** Veneer names and their targets determine each other. */
  lemma VeneerNames(name: string, target: string)
    requires target != ""
    ensures VeneerTarget(name) == Some(target) <==> name == "__" + target + VENEER
  {
    if VeneerTarget(name) == Some(target) {
      assert name == name[..2] + name[2..|name| - |VENEER|] + name[|name| - |VENEER|..];
    }
    if name == "__" + target + VENEER {
      assert name[..2] == "__" && name[2..|name| - |VENEER|] == target && name[|name| - |VENEER|..] == VENEER;
    }
  }

  // ---------------------------------------------------------------- what a branch is

  /** Where a branch leads: stays inside, reaches a RAM function, an allowed one, or is a problem. */
  datatype Step = Inside | Ram(e: Extent) | Allowed | NoFunction | NoSymbol | Flash

  predicate Bad(s: Step) {
    s.NoFunction? || s.NoSymbol? || s.Flash?
  }

  function Landing(symbols: Symbols, allowed: string -> bool, e: Extent): Step {
    if InSram(e.start) then Ram(e) else if allowed(symbols.plain(e.start)) then Allowed else Flash
  }

  function Lead(symbols: Symbols, allowed: string -> bool, from: Extent, target: nat): Step {
    if Covers(from, target) then Inside
    else
      var found := Containing(symbols.spans, target);
      if found.None? then NoFunction
      else
        var via := VeneerTarget(found.value.name);
        if via.None? then Landing(symbols, allowed, found.value.at)
        else if via.value !in symbols.byName then NoSymbol
        else Landing(symbols, allowed, symbols.byName[via.value])
  }

  datatype Problem = NotInSram | Branch(from: nat, target: nat, step: Step)

  // ---------------------------------------------------------------- specification

  /** A direct branch from one RAM function to another. */
  ghost predicate Calls(image: Image, allowed: string -> bool, from: Extent, to: Extent) {
    exists t :: t in Branches(image, from) && Lead(image.symbols, allowed, from, t) == Ram(to)
  }

  ghost predicate Chain(image: Image, allowed: string -> bool, path: seq<Extent>) {
    forall i :: 0 <= i < |path| - 1 ==> Calls(image, allowed, path[i], path[i + 1])
  }

  /** Reachable by direct branches through functions in RAM. */
  ghost predicate Reaches(image: Image, allowed: string -> bool, root: Extent, e: Extent) {
    exists path :: |path| > 0 && path[0] == root && path[|path| - 1] == e && Chain(image, allowed, path)
  }

  /** The function branches to nothing it must not. */
  ghost predicate Good(image: Image, allowed: string -> bool, e: Extent) {
    forall t :: t in Branches(image, e) ==> !Bad(Lead(image.symbols, allowed, e, t))
  }

  /** The problem is a branch of this function. */
  ghost predicate ProblemOf(image: Image, allowed: string -> bool, e: Extent, p: Problem) {
    && p.Branch? && p.from == e.start && p.target in Branches(image, e)
    && p.step == Lead(image.symbols, allowed, e, p.target) && Bad(p.step)
  }

  /** Every extent the symbols or the root give. */
  ghost function Table(symbols: Symbols, root: Extent): set<Extent> {
    {root} + (set s | s in symbols.spans :: s.at) + symbols.byName.Values
  }

  /** Some branch of one function could land on another in RAM, whatever its code is. */
  ghost predicate May(symbols: Symbols, allowed: string -> bool, from: Extent, to: Extent) {
    from.size > 0 && exists t :: Lead(symbols, allowed, from, t) == Ram(to)
  }

  ghost predicate Track(symbols: Symbols, allowed: string -> bool, path: seq<Extent>) {
    forall i :: 0 <= i < |path| - 1 ==> May(symbols, allowed, path[i], path[i + 1])
  }

  /** The search could land on the extent: a matter of the symbols and the root alone. */
  ghost predicate Landable(symbols: Symbols, allowed: string -> bool, root: Extent, e: Extent) {
    exists path :: |path| > 0 && path[0] == root && path[|path| - 1] == e && Track(symbols, allowed, path)
  }

  /** The extents the search could land on differ in their start. */
  ghost predicate OneExtent(symbols: Symbols, allowed: string -> bool, root: Extent) {
    forall a, b :: Landable(symbols, allowed, root, a) && Landable(symbols, allowed, root, b) ==>
      a.start == b.start ==> a == b
  }

  /** What can be reached could be landed on. */
  lemma ReachesLands(image: Image, allowed: string -> bool, root: Extent, e: Extent)
    requires Reaches(image, allowed, root, e)
    ensures Landable(image.symbols, allowed, root, e)
  {
    hide Lead;
    var path :| |path| > 0 && path[0] == root && path[|path| - 1] == e && Chain(image, allowed, path);
    forall i | 0 <= i < |path| - 1 ensures May(image.symbols, allowed, path[i], path[i + 1]) {
      assert Calls(image, allowed, path[i], path[i + 1]);
    }
    assert Track(image.symbols, allowed, path);
  }

  lemma LeadsIntoTable(symbols: Symbols, allowed: string -> bool, root: Extent, from: Extent, target: nat)
    ensures Lead(symbols, allowed, from, target).Ram? ==>
              Lead(symbols, allowed, from, target).e in Table(symbols, root)
                && InSram(Lead(symbols, allowed, from, target).e.start)
  {
  }

  lemma ReachesRoot(image: Image, allowed: string -> bool, root: Extent)
    ensures Reaches(image, allowed, root, root)
  {
    var path := [root];
    assert path[0] == root && path[|path| - 1] == root && Chain(image, allowed, path);
  }

  lemma ReachesNext(image: Image, allowed: string -> bool, root: Extent, from: Extent, to: Extent)
    requires Reaches(image, allowed, root, from) && Calls(image, allowed, from, to)
    ensures Reaches(image, allowed, root, to)
  {
    hide Calls;
    var path :| |path| > 0 && path[0] == root && path[|path| - 1] == from && Chain(image, allowed, path);
    var longer := path + [to];
    forall i | 0 <= i < |longer| - 1 ensures Calls(image, allowed, longer[i], longer[i + 1]) {
      if i < |path| - 1 {
        assert longer[i] == path[i] && longer[i + 1] == path[i + 1];
      }
    }
    assert longer[0] == root && longer[|longer| - 1] == to;
  }

  /** A set that holds the root and all its members call holds everything reachable. */
  lemma {:induction false} ClosedHoldsAll(image: Image, allowed: string -> bool, root: Extent, held: set<Extent>,
                                          path: seq<Extent>)
    requires root in held && forall a, b :: a in held && Calls(image, allowed, a, b) ==> b in held
    requires |path| > 0 && path[0] == root && Chain(image, allowed, path)
    ensures path[|path| - 1] in held
    decreases |path|
  {
    hide Calls;
    if |path| > 1 {
      var shorter := path[..|path| - 1];
      assert Chain(image, allowed, shorter);
      ClosedHoldsAll(image, allowed, root, held, shorter);
      assert Calls(image, allowed, path[|path| - 2], path[|path| - 1]);
    }
  }

  // ---------------------------------------------------------------- the search as a function

  /** RAM functions reached by these targets, in their order. */
  ghost function Found(symbols: Symbols, allowed: string -> bool, from: Extent, targets: seq<nat>): seq<Extent> {
    if targets == [] then []
    else
      var n := |targets| - 1;
      var step := Lead(symbols, allowed, from, targets[n]);
      Found(symbols, allowed, from, targets[..n]) + if step.Ram? then [step.e] else []
  }

  /** Problems of these targets, in their order. */
  ghost function Problems(symbols: Symbols, allowed: string -> bool, from: Extent, targets: seq<nat>): seq<Problem> {
    if targets == [] then []
    else
      var n := |targets| - 1;
      var step := Lead(symbols, allowed, from, targets[n]);
      Problems(symbols, allowed, from, targets[..n]) + if Bad(step) then [Branch(from.start, targets[n], step)] else []
  }

  lemma {:induction false} FoundIs(symbols: Symbols, allowed: string -> bool, from: Extent, targets: seq<nat>,
                                   e: Extent)
    ensures e in Found(symbols, allowed, from, targets) <==>
              exists t :: t in targets && Lead(symbols, allowed, from, t) == Ram(e)
  {
    hide Lead;
    if targets != [] {
      var n := |targets| - 1;
      FoundIs(symbols, allowed, from, targets[..n], e);
      assert targets == targets[..n] + [targets[n]];
      assert forall t :: t in targets <==> t in targets[..n] || t == targets[n];
    }
  }

  lemma {:induction false} ProblemsAre(symbols: Symbols, allowed: string -> bool, from: Extent, targets: seq<nat>,
                                       p: Problem)
    ensures p in Problems(symbols, allowed, from, targets) <==>
              p.Branch? && p.from == from.start && p.target in targets
                && p.step == Lead(symbols, allowed, from, p.target) && Bad(p.step)
  {
    hide Lead;
    if targets != [] {
      var n := |targets| - 1;
      ProblemsAre(symbols, allowed, from, targets[..n], p);
      assert targets == targets[..n] + [targets[n]];
      assert forall t :: t in targets <==> t in targets[..n] || t == targets[n];
    }
  }

  ghost predicate InTable(symbols: Symbols, root: Extent, pending: seq<Extent>) {
    forall e :: e in pending ==> e in Table(symbols, root)
  }

  lemma FoundInTable(symbols: Symbols, allowed: string -> bool, root: Extent, from: Extent, targets: seq<nat>)
    ensures InTable(symbols, root, Found(symbols, allowed, from, targets))
  {
    hide Lead, Table;
    forall e | e in Found(symbols, allowed, from, targets) ensures e in Table(symbols, root) {
      FoundIs(symbols, allowed, from, targets, e);
      var t :| t in targets && Lead(symbols, allowed, from, t) == Ram(e);
      LeadsIntoTable(symbols, allowed, root, from, t);
    }
  }

  ghost function Starts(symbols: Symbols, root: Extent): set<nat> {
    set e | e in Table(symbols, root) :: e.start
  }

  /** The problems the search lists from here on: the last pending function is examined first, once per start. */
  ghost function Search(image: Image, allowed: string -> bool, root: Extent, pending: seq<Extent>,
                        seen: set<nat>): seq<Problem>
    requires InTable(image.symbols, root, pending)
    decreases Starts(image.symbols, root) - seen, |pending|
  {
    if pending == [] then []
    else
      var rest, e := pending[..|pending| - 1], pending[|pending| - 1];
      assert e in pending && forall x :: x in rest ==> x in pending;
      if e.start in seen then Search(image, allowed, root, rest, seen)
      else
        var targets := Branches(image, e);
        FoundInTable(image.symbols, allowed, root, e, targets);
        assert e.start in Starts(image.symbols, root);
        Problems(image.symbols, allowed, e, targets) +
        Search(image, allowed, root, rest + Found(image.symbols, allowed, e, targets), seen + {e.start})
  }

  // ---------------------------------------------------------------- the search

  /** Checks everything a RAM function reaches. */
  method CheckPath(image: Image, root: Extent, allowed: string -> bool) returns (problems: seq<Problem>)
    ensures problems == if InSram(root.start) then Search(image, allowed, root, [root], {}) else [NotInSram]
  {
    hide Lead, Table, Starts, Branches;
    if !InSram(root.start) {
      return [NotInSram];
    }
    problems := [];
    var pending, seen := [root], {};
    RootInTable(image.symbols, root);
    while pending != []
      invariant InTable(image.symbols, root, pending)
      invariant problems + Search(image, allowed, root, pending, seen) == Search(image, allowed, root, [root], {})
      decreases Starts(image.symbols, root) - seen, |pending|
    {
      var e := pending[|pending| - 1];
      ghost var rest := pending[..|pending| - 1];
      assert e in pending && forall x :: x in rest ==> x in pending;
      StartOf(image.symbols, root, e);
      pending := pending[..|pending| - 1];
      if e.start !in seen {
        seen := seen + {e.start};
        FoundInTable(image.symbols, allowed, root, e, Branches(image, e));
        pending, problems := Examine(image, allowed, e, pending, problems);
      }
    }
  }

  /** Lists the problems of one function and queues the RAM functions it branches to. */
  method Examine(image: Image, allowed: string -> bool, e: Extent, queued: seq<Extent>, listed: seq<Problem>)
    returns (pending: seq<Extent>, problems: seq<Problem>)
    ensures pending == queued + Found(image.symbols, allowed, e, Branches(image, e))
    ensures problems == listed + Problems(image.symbols, allowed, e, Branches(image, e))
  {
    hide Lead;
    pending, problems := queued, listed;
    var targets := Branches(image, e);
    var i := 0;
    assert targets[..0] == [];
    while i < |targets|
      invariant i <= |targets|
      invariant pending == queued + Found(image.symbols, allowed, e, targets[..i])
      invariant problems == listed + Problems(image.symbols, allowed, e, targets[..i])
    {
      assert targets[..i + 1][..i] == targets[..i];
      var step := Lead(image.symbols, allowed, e, targets[i]);
      if step.Ram? {
        pending := pending + [step.e];
      } else if Bad(step) {
        problems := problems + [Branch(e.start, targets[i], step)];
      }
      i := i + 1;
    }
    assert targets[..i] == targets;
  }

  lemma RootInTable(symbols: Symbols, root: Extent)
    ensures InTable(symbols, root, [root])
  {
  }

  lemma StartOf(symbols: Symbols, root: Extent, e: Extent)
    ensures e in Table(symbols, root) ==> e.start in Starts(symbols, root)
  {
    hide Table;
  }

  // ---------------------------------------------------------------- what the search finds

  /** Every problem listed is a branch of a function that is reachable. */
  lemma {:induction false} SearchIsSound(image: Image, allowed: string -> bool, root: Extent, pending: seq<Extent>,
                                         seen: set<nat>, p: Problem)
    requires InTable(image.symbols, root, pending) && forall e :: e in pending ==> Reaches(image, allowed, root, e)
    requires p in Search(image, allowed, root, pending, seen)
    ensures exists e :: Reaches(image, allowed, root, e) && ProblemOf(image, allowed, e, p)
    decreases Starts(image.symbols, root) - seen, |pending|
  {
    hide Lead, Table, Reaches;
    var rest, e := pending[..|pending| - 1], pending[|pending| - 1];
    assert e in pending && forall x :: x in rest ==> x in pending;
    if e.start in seen {
      SearchIsSound(image, allowed, root, rest, seen, p);
    } else {
      var targets := Branches(image, e);
      FoundInTable(image.symbols, allowed, root, e, targets);
      assert e.start in Starts(image.symbols, root);
      ProblemsAre(image.symbols, allowed, e, targets, p);
      var found := Found(image.symbols, allowed, e, targets);
      if p !in Problems(image.symbols, allowed, e, targets) {
        forall x | x in rest + found ensures Reaches(image, allowed, root, x) {
          FoundIs(image.symbols, allowed, e, targets, x);
          if x !in rest {
            assert Calls(image, allowed, e, x);
            ReachesNext(image, allowed, root, e, x);
          }
        }
        SearchIsSound(image, allowed, root, rest + found, seen + {e.start}, p);
      }
    }
  }

  /** Examined functions are reachable and list their problems, and all they call is examined or pending. */
  ghost predicate Examined(image: Image, allowed: string -> bool, root: Extent, done: set<Extent>,
                           pending: seq<Extent>, seen: set<nat>,
                           listed: seq<Problem>) {
    && seen == (set e | e in done :: e.start)
    && (forall e :: e in done || e in pending ==> Reaches(image, allowed, root, e))
    && (forall e, t :: e in done && t in Branches(image, e) && Bad(Lead(image.symbols, allowed, e, t)) ==>
          Branch(e.start, t, Lead(image.symbols, allowed, e, t)) in listed)
    && (forall a, b :: a in done && Calls(image, allowed, a, b) ==> b in done || b in pending)
  }

  /** With one extent per start, the search examines a closed set of functions. */
  lemma {:induction false} SearchCloses(image: Image, allowed: string -> bool, root: Extent, pending: seq<Extent>,
                                        done: set<Extent>, seen: set<nat>,
                                        listed: seq<Problem>) returns (all: set<Extent>)
    requires OneExtent(image.symbols, allowed, root) && InTable(image.symbols, root, pending)
    requires Examined(image, allowed, root, done, pending, seen, listed)
    ensures done <= all && (forall e :: e in pending ==> e in all)
    ensures exists s :: Examined(image, allowed, root, all, [], s, listed + Search(image, allowed, root, pending, seen))
    decreases Starts(image.symbols, root) - seen, |pending|
  {
    hide Lead, Table, Examined, OneExtent;
    if pending == [] {
      assert listed + Search(image, allowed, root, pending, seen) == listed;
      assert Examined(image, allowed, root, done, [], seen, listed + Search(image, allowed, root, pending, seen));
      return done;
    }
    var rest, e := pending[..|pending| - 1], pending[|pending| - 1];
    assert e in pending && pending == rest + [e];
    assert forall x :: x in pending <==> x in rest || x == e;
    if e.start in seen {
      SeenIsDone(image, allowed, root, rest, done, seen, listed, e);
      all := SearchCloses(image, allowed, root, rest, done, seen, listed);
      assert Search(image, allowed, root, pending, seen) == Search(image, allowed, root, rest, seen);
    } else {
      var targets := Branches(image, e);
      var found, problems := Found(image.symbols, allowed, e, targets), Problems(image.symbols, allowed, e, targets);
      FoundInTable(image.symbols, allowed, root, e, targets);
      assert e.start in Starts(image.symbols, root);
      ExaminedNext(image, allowed, root, done, rest, seen, listed, e);
      all := SearchCloses(image, allowed, root, rest + found, done + {e}, seen + {e.start}, listed + problems);
      assert listed + Search(image, allowed, root, pending, seen)
          == listed + problems + Search(image, allowed, root, rest + found, seen + {e.start});
    }
  }

  lemma SeenIsDone(image: Image, allowed: string -> bool, root: Extent, rest: seq<Extent>, done: set<Extent>,
                   seen: set<nat>,
                   listed: seq<Problem>, e: Extent)
    requires OneExtent(image.symbols, allowed, root) && e.start in seen
    requires Examined(image, allowed, root, done, rest + [e], seen, listed)
    ensures e in done && Examined(image, allowed, root, done, rest, seen, listed)
  {
    hide Lead, Reaches, Landable;
    var d :| d in done && d.start == e.start;
    assert e in rest + [e];
    ReachesLands(image, allowed, root, d);
    ReachesLands(image, allowed, root, e);
  }

  lemma ExaminedNext(image: Image, allowed: string -> bool, root: Extent, done: set<Extent>, rest: seq<Extent>,
                     seen: set<nat>,
                     listed: seq<Problem>, e: Extent)
    requires Examined(image, allowed, root, done, rest + [e], seen, listed)
    ensures Examined(image, allowed, root, done + {e},
                     rest + Found(image.symbols, allowed, e, Branches(image, e)), seen + {e.start},
                     listed + Problems(image.symbols, allowed, e, Branches(image, e)))
  {
    hide Lead, Reaches;
    var targets := Branches(image, e);
    var found, problems := Found(image.symbols, allowed, e, targets), Problems(image.symbols, allowed, e, targets);
    assert e in rest + [e];
    forall t | t in targets && Bad(Lead(image.symbols, allowed, e, t))
      ensures Branch(e.start, t, Lead(image.symbols, allowed, e, t)) in problems
    {
      ProblemsAre(image.symbols, allowed, e, targets, Branch(e.start, t, Lead(image.symbols, allowed, e, t)));
    }
    forall b ensures b in found <==> Calls(image, allowed, e, b) {
      FoundIs(image.symbols, allowed, e, targets, b);
    }
    forall b | b in found ensures Reaches(image, allowed, root, b) {
      ReachesNext(image, allowed, root, e, b);
    }
  }

  /**
   With one extent per start, the problems listed are exactly the bad branches of the functions
   reachable from the root.
   */
  lemma SearchIsExact(image: Image, allowed: string -> bool, root: Extent, p: Problem)
    requires OneExtent(image.symbols, allowed, root)
    ensures InTable(image.symbols, root, [root])
    ensures p in Search(image, allowed, root, [root], {}) <==>
              exists e :: Reaches(image, allowed, root, e) && ProblemOf(image, allowed, e, p)
  {
    hide Lead, Table, Search, OneExtent;
    RootInTable(image.symbols, root);
    ReachesRoot(image, allowed, root);
    if p in Search(image, allowed, root, [root], {}) {
      SearchIsSound(image, allowed, root, [root], {}, p);
    }
    if e :| Reaches(image, allowed, root, e) && ProblemOf(image, allowed, e, p) {
      var all := SearchCloses(image, allowed, root, [root], {}, {}, []);
      assert root in [root];
      var s :| Examined(image, allowed, root, all, [], s, [] + Search(image, allowed, root, [root], {}));
      var path :| |path| > 0 && path[0] == root && path[|path| - 1] == e && Chain(image, allowed, path);
      ClosedHoldsAll(image, allowed, root, all, path);
    }
  }

  /** Nothing is listed exactly when everything reachable is good. */
  ghost predicate Decides(image: Image, allowed: string -> bool, root: Extent) {
    InTable(image.symbols, root, [root]) &&
    (Search(image, allowed, root, [root], {}) == [] <==> forall e :: Reaches(image, allowed, root, e) ==>
       Good(image, allowed, e))
  }

  lemma SearchDecides(image: Image, allowed: string -> bool, root: Extent)
    requires OneExtent(image.symbols, allowed, root)
    ensures Decides(image, allowed, root)
  {
    hide Lead, Table, Search, Reaches, OneExtent;
    RootInTable(image.symbols, root);
    var listed := Search(image, allowed, root, [root], {});
    if listed != [] {
      SearchIsExact(image, allowed, root, listed[0]);
      var e :| Reaches(image, allowed, root, e) && ProblemOf(image, allowed, e, listed[0]);
      assert !Good(image, allowed, e);
    } else {
      forall e, t | Reaches(image, allowed, root, e)
                    && t in Branches(image, e) ensures !Bad(Lead(image.symbols, allowed, e, t)) {
        SearchIsExact(image, allowed, root, Branch(e.start, t, Lead(image.symbols, allowed, e, t)));
      }
    }
  }

  /** One step of the search. */
  lemma SearchStep(image: Image, allowed: string -> bool, root: Extent, rest: seq<Extent>, e: Extent, seen: set<nat>)
    requires InTable(image.symbols, root, rest + [e])
    ensures InTable(image.symbols, root, rest)
    ensures InTable(image.symbols, root, rest + Found(image.symbols, allowed, e, Branches(image, e)))
    ensures Search(image, allowed, root, rest + [e], seen) ==
            if e.start in seen then Search(image, allowed, root, rest, seen)
            else Problems(image.symbols, allowed, e, Branches(image, e))
                 + Search(image, allowed, root, rest + Found(image.symbols, allowed, e, Branches(image, e)),
                          seen + {e.start})
  {
    hide Lead, Table;
    FoundInTable(image.symbols, allowed, root, e, Branches(image, e));
    assert (rest + [e])[..|rest|] == rest;
    assert e in rest + [e] && forall x :: x in rest ==> x in rest + [e];
  }

  /** Only symbols in RAM count: aliases of one start in flash never matter. */
  lemma RamStartsSuffice(symbols: Symbols, allowed: string -> bool, root: Extent)
    requires InSram(root.start)
    requires forall a, b :: a in Table(symbols, root) && b in Table(symbols, root) ==>
               InSram(a.start) && a.start == b.start ==> a == b
    ensures OneExtent(symbols, allowed, root)
  {
    hide Lead, Table;
    forall e | Landable(symbols, allowed, root, e) ensures e in Table(symbols, root) && InSram(e.start) {
      var path :| |path| > 0 && path[0] == root && path[|path| - 1] == e && Track(symbols, allowed, path);
      RootInTable(symbols, root);
      assert root in [root];
      if |path| > 1 {
        var from := path[|path| - 2];
        assert May(symbols, allowed, from, path[|path| - 2 + 1]);
        var t :| Lead(symbols, allowed, from, t) == Ram(e);
        LeadsIntoTable(symbols, allowed, root, from, t);
      }
    }
  }
}
