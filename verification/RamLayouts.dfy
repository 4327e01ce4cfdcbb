/**
 Aliases of one start in RAM: with symbols laid out as a linker does, exactly when the search for
 flash branches misses nothing, whatever the code is.
 */
module RamLayouts {
  import opened Outcomes
  import opened RamPaths
  import opened RamBranches

  // ---------------------------------------------------------------- layouts

  /**
   Symbols as the reader lists them: in order, aliases of one start by size; those of different
   starts apart; every sized extent among them; and linker veneers without aliases of other sizes.
   */
  ghost predicate Laid(symbols: Symbols, root: Extent) {
    && InOrder(symbols.spans) && Distinct(symbols.spans)
    && (forall e :: e in Table(symbols, root) && e.size > 0 ==> Spanned(symbols, e))
    && (forall s :: s in symbols.spans && VeneerTarget(s.name).Some? ==> Alone(symbols, root, s.at))
  }

  /** No sized extent of the same start differs from this one. */
  ghost predicate Alone(symbols: Symbols, root: Extent, at: Extent) {
    forall e :: e in Table(symbols, root) && e.size > 0 && e.start == at.start ==> e == at
  }

  ghost predicate Spanned(symbols: Symbols, e: Extent) {
    exists i :: 0 <= i < |symbols.spans| && symbols.spans[i].at == e
  }

  ghost predicate InOrder(spans: seq<Span>) {
    forall i, j :: 0 <= i < j < |spans| ==>
      spans[i].at.start < spans[j].at.start || (spans[i].at.start == spans[j].at.start
                                                && spans[i].at.size <= spans[j].at.size)
  }

  ghost predicate Distinct(spans: seq<Span>) {
    forall i, j :: 0 <= i < j < |spans| && spans[i].at.start < spans[j].at.start ==>
      spans[i].at.start + spans[i].at.size <= spans[j].at.start
  }

  /** No extent of that start the search could land on is longer. */
  ghost predicate Longest(symbols: Symbols, allowed: string -> bool, root: Extent, e: Extent) {
    forall y :: Landable(symbols, allowed, root, y) && y.start == e.start ==> y.size <= e.size
  }

  /** An earlier extent of a track has the start of its i-th one. */
  predicate Repeats(path: seq<Extent>, i: nat)
    requires i < |path|
  {
    exists j :: 0 <= j < i && path[j].start == path[i].start
  }

  /** Wherever a track first comes to a start, it is at the longest extent of that start. */
  ghost predicate LongestFirst(symbols: Symbols, allowed: string -> bool, root: Extent) {
    forall path, i :: 0 <= i < |path| && path[0] == root && Track(symbols, allowed, path) && !Repeats(path, i) ==>
      Longest(symbols, allowed, root, path[i])
  }

  /** The address lies in a span: the bisection finds the longest of its start. */
  lemma FindsLongest(symbols: Symbols, e: Extent, t: nat)
    requires InOrder(symbols.spans) && Distinct(symbols.spans) && Spanned(symbols, e) && Covers(e, t)
    ensures var found := Containing(symbols.spans, t);
            && found.Some? && found.value in symbols.spans && found.value.at.start == e.start
              && found.value.at.size >= e.size
  {
    var spans := symbols.spans;
    var i :| 0 <= i < |spans| && spans[i].at == e;
    OrderSorts(spans);
    var n := Below(spans, t);
    assert i < n && spans[n - 1].at.start <= t;
    hide Below;
    assert i < n - 1 ==> spans[i].at.start <= spans[n - 1].at.start;
    assert forall j :: i < j < |spans| && e.start < spans[j].at.start ==> e.start + e.size <= spans[j].at.start;
    assert spans[i].at.start == spans[n - 1].at.start;
  }

  lemma OrderSorts(spans: seq<Span>)
    requires InOrder(spans)
    ensures Sorted(spans)
  {
  }

  /** A branch into a symbol in RAM that is no veneer lands on the symbol. */
  lemma LandsOnSymbol(symbols: Symbols, allowed: string -> bool, from: Extent, t: nat, g: Span)
    requires Containing(symbols.spans, t) == Some(g) && VeneerTarget(g.name).None?
    requires InSram(g.at.start) && !Covers(from, t)
    ensures Lead(symbols, allowed, from, t) == Ram(g.at)
  {
  }

  /** What can be landed on is in the table, and in RAM if the root is. */
  lemma LandableInTable(symbols: Symbols, allowed: string -> bool, root: Extent, e: Extent)
    requires Landable(symbols, allowed, root, e)
    ensures e in Table(symbols, root) && (InSram(root.start) ==> InSram(e.start))
  {
    hide Lead, Table;
    var path :| |path| > 0 && path[0] == root && path[|path| - 1] == e && Track(symbols, allowed, path);
    RootInTable(symbols, root);
    assert root in [root];
    if |path| > 1 {
      var from := path[|path| - 2];
      assert May(symbols, allowed, from, path[|path| - 2 + 1]);
      var t :| Lead(symbols, allowed, from, t) == Ram(e);
      LeadsIntoTable(symbols, allowed, root, from, t);
    }
  }

  lemma LandableNext(symbols: Symbols, allowed: string -> bool, root: Extent, from: Extent, to: Extent)
    requires Landable(symbols, allowed, root, from) && May(symbols, allowed, from, to)
    ensures Landable(symbols, allowed, root, to)
  {
    hide May;
    var path :| |path| > 0 && path[0] == root && path[|path| - 1] == from && Track(symbols, allowed, path);
    var longer := path + [to];
    forall i | 0 <= i < |longer| - 1 ensures May(symbols, allowed, longer[i], longer[i + 1]) {
      if i < |path| - 1 {
        assert longer[i] == path[i] && longer[i + 1] == path[i + 1];
      }
    }
    assert Track(symbols, allowed, longer) && longer[0] == root && longer[|longer| - 1] == to;
  }

  /** A branch of a short extent into the rest of the longest one of its start lands on that one. */
  lemma TailLands(symbols: Symbols, allowed: string -> bool, root: Extent, long: Extent, short: Extent, t: nat)
    requires Laid(symbols, root) && InSram(root.start)
    requires Landable(symbols, allowed, root, long) && Landable(symbols, allowed, root, short)
    requires long.start == short.start && short.size > 0 && Longest(symbols, allowed, root, long)
    requires Covers(long, t) && !Covers(short, t)
    ensures Lead(symbols, allowed, short, t) == Ram(long)
  {
    LandableInTable(symbols, allowed, root, long);
    LandableInTable(symbols, allowed, root, short);
    FindsLongest(symbols, long, t);
    hide Containing, Table, InOrder, Distinct, Landable, VeneerTarget;
    var g := Containing(symbols.spans, t).value;
    assert long.size > short.size;
    NoVeneer(symbols, root, g, long, short);
    LandsOnSymbol(symbols, allowed, short, t, g);
    assert May(symbols, allowed, short, g.at);
    LandableNext(symbols, allowed, root, short, g.at);
    assert g.at.size <= long.size;
  }

  lemma NoVeneer(symbols: Symbols, root: Extent, g: Span, a: Extent, b: Extent)
    requires Laid(symbols, root) && g in symbols.spans && a in Table(symbols, root) && b in Table(symbols, root)
    requires a.start == g.at.start == b.start && a.size > b.size > 0
    ensures VeneerTarget(g.name).None?
  {
    hide Table, InOrder, Distinct;
    assert !Alone(symbols, root, g.at);
  }

  /** A target outside two extents leads the same way from both. */
  lemma LeadsAlike(symbols: Symbols, allowed: string -> bool, a: Extent, b: Extent, t: nat)
    requires !Covers(a, t) && !Covers(b, t)
    ensures Lead(symbols, allowed, a, t) == Lead(symbols, allowed, b, t)
  {
  }

  // ---------------------------------------------------------------- what is examined

  /** Reached from the root through functions that were examined. */
  ghost predicate Through(image: Image, allowed: string -> bool, root: Extent, done: set<Extent>, e: Extent) {
    exists path :: |path| > 0 && path[0] == root && path[|path| - 1] == e && Chain(image, allowed, path)
                   && forall i :: 0 <= i < |path| - 1 ==> path[i] in done
  }

  lemma ThroughWidens(image: Image, allowed: string -> bool, root: Extent, done: set<Extent>, more: set<Extent>,
                      e: Extent)
    requires Through(image, allowed, root, done, e) && done <= more
    ensures Through(image, allowed, root, more, e)
  {
    hide Chain;
    var path :| |path| > 0 && path[0] == root && path[|path| - 1] == e && Chain(image, allowed, path)
                && forall i :: 0 <= i < |path| - 1 ==> path[i] in done;
    assert forall i :: 0 <= i < |path| - 1 ==> path[i] in more;
  }

  lemma ThroughNext(image: Image, allowed: string -> bool, root: Extent, done: set<Extent>, e: Extent, b: Extent)
    requires Through(image, allowed, root, done, e) && e in done && Calls(image, allowed, e, b)
    ensures Through(image, allowed, root, done, b)
  {
    hide Calls;
    var path :| |path| > 0 && path[0] == root && path[|path| - 1] == e && Chain(image, allowed, path)
                && forall i :: 0 <= i < |path| - 1 ==> path[i] in done;
    var longer := path + [b];
    forall i | 0 <= i < |longer| - 1 ensures Calls(image, allowed, longer[i], longer[i + 1]) && longer[i] in done {
      if i < |path| - 1 {
        assert longer[i] == path[i] && longer[i + 1] == path[i + 1];
      }
    }
    assert longer[0] == root && longer[|longer| - 1] == b;
  }

  lemma ChainTracks(image: Image, allowed: string -> bool, path: seq<Extent>)
    requires Chain(image, allowed, path)
    ensures Track(image.symbols, allowed, path)
  {
    hide Lead;
    forall i | 0 <= i < |path| - 1 ensures May(image.symbols, allowed, path[i], path[i + 1]) {
      assert Calls(image, allowed, path[i], path[i + 1]);
      var t :| t in Branches(image, path[i]) && Lead(image.symbols, allowed, path[i], t) == Ram(path[i + 1]);
      BranchesAre(image, path[i], t);
    }
  }

  /** What is first reached through examined functions is the longest of its start. */
  lemma FirstIsLongest(image: Image, allowed: string -> bool, root: Extent, done: set<Extent>, e: Extent)
    requires LongestFirst(image.symbols, allowed, root) && Through(image, allowed, root, done, e)
    requires forall d :: d in done ==> d.start != e.start
    ensures Longest(image.symbols, allowed, root, e)
  {
    hide Chain, Longest;
    var path :| |path| > 0 && path[0] == root && path[|path| - 1] == e && Chain(image, allowed, path)
                && forall i :: 0 <= i < |path| - 1 ==> path[i] in done;
    ChainTracks(image, allowed, path);
    hide Track;
    assert !Repeats(path, |path| - 1);
  }

  ghost predicate AllThrough(image: Image, allowed: string -> bool, root: Extent, done: set<Extent>,
                             pending: seq<Extent>) {
    forall e :: e in done || e in pending ==> Through(image, allowed, root, done, e)
  }

  /** Examined functions list their problems. */
  ghost predicate Lists(image: Image, allowed: string -> bool, done: set<Extent>, listed: seq<Problem>) {
    forall e, t :: e in done && t in Branches(image, e) && Bad(Lead(image.symbols, allowed, e, t)) ==>
      Branch(e.start, t, Lead(image.symbols, allowed, e, t)) in listed
  }

  /** The starts of what examined functions call are seen or pending. */
  ghost predicate Follows(image: Image, allowed: string -> bool, done: set<Extent>, pending: seq<Extent>,
                          seen: set<nat>) {
    forall a, b :: a in done && Calls(image, allowed, a, b) ==> b.start in seen || b in pending
  }

  /**
   Every examined function is the longest of its start and lists its problems, and the starts of all
   it calls are seen or pending.
   */
  ghost predicate Covered(image: Image, allowed: string -> bool, root: Extent, done: set<Extent>, pending: seq<Extent>,
                          seen: set<nat>,
                          listed: seq<Problem>) {
    && seen == (set e | e in done :: e.start)
    && AllThrough(image, allowed, root, done, pending)
    && (forall e :: e in done ==> Longest(image.symbols, allowed, root, e))
    && Lists(image, allowed, done, listed) && Follows(image, allowed, done, pending, seen)
  }

  lemma CoveredNext(image: Image, allowed: string -> bool, root: Extent, done: set<Extent>, rest: seq<Extent>,
                    seen: set<nat>,
                    listed: seq<Problem>, e: Extent)
    requires Covered(image, allowed, root, done, rest + [e], seen, listed)
    requires LongestFirst(image.symbols, allowed, root) && e.start !in seen
    ensures Covered(image, allowed, root, done + {e},
                    rest + Found(image.symbols, allowed, e, Branches(image, e)), seen + {e.start},
                    listed + Problems(image.symbols, allowed, e, Branches(image, e)))
  {
    hide Through, Longest, LongestFirst, Lists, Follows, Found, Problems, Branches;
    assert e in rest + [e];
    FirstIsLongest(image, allowed, root, done, e);
    ThroughAll(image, allowed, root, done, rest, e);
    ListsNext(image, allowed, done, listed, e);
    FollowsNext(image, allowed, done, rest, seen, e);
    hide AllThrough;
  }

  lemma ThroughAll(image: Image, allowed: string -> bool, root: Extent, done: set<Extent>, rest: seq<Extent>, e: Extent)
    requires AllThrough(image, allowed, root, done, rest + [e])
    ensures AllThrough(image, allowed, root, done + {e}, rest + Found(image.symbols, allowed, e, Branches(image, e)))
  {
    hide Through, Branches, Found, Calls;
    var found := Found(image.symbols, allowed, e, Branches(image, e));
    FoundIsCalled(image, allowed, e);
    forall x | x in done || x == e || x in rest ensures Through(image, allowed, root, done + {e}, x) {
      assert x in done || x in rest + [e];
      ThroughWidens(image, allowed, root, done, done + {e}, x);
    }
    forall b | b in found ensures Through(image, allowed, root, done + {e}, b) {
      ThroughNext(image, allowed, root, done + {e}, e, b);
    }
    assert forall x :: x in rest + found <==> x in rest || x in found;
  }

  lemma ListsNext(image: Image, allowed: string -> bool, done: set<Extent>, listed: seq<Problem>, e: Extent)
    requires Lists(image, allowed, done, listed)
    ensures Lists(image, allowed, done + {e}, listed + Problems(image.symbols, allowed, e, Branches(image, e)))
  {
    hide Lead, Branches, Problems;
    ListsProblems(image, allowed, e);
  }

  lemma FollowsNext(image: Image, allowed: string -> bool, done: set<Extent>, rest: seq<Extent>, seen: set<nat>,
                    e: Extent)
    requires Follows(image, allowed, done, rest + [e], seen)
    ensures Follows(image, allowed, done + {e}, rest + Found(image.symbols, allowed, e, Branches(image, e)),
                    seen + {e.start})
  {
    hide Calls, Branches, Found;
    FoundIsCalled(image, allowed, e);
    assert forall x :: x in rest + [e] <==> x in rest || x == e;
  }

  lemma FoundIsCalled(image: Image, allowed: string -> bool, e: Extent)
    ensures forall b :: b in Found(image.symbols, allowed, e, Branches(image, e)) <==> Calls(image, allowed, e, b)
  {
    hide Lead, Branches;
    forall b ensures b in Found(image.symbols, allowed, e, Branches(image, e)) <==> Calls(image, allowed, e, b) {
      FoundIs(image.symbols, allowed, e, Branches(image, e), b);
    }
  }

  lemma ListsProblems(image: Image, allowed: string -> bool, e: Extent)
    ensures forall t :: t in Branches(image, e) && Bad(Lead(image.symbols, allowed, e, t)) ==>
              Branch(e.start, t, Lead(image.symbols, allowed, e, t)) in Problems(image.symbols, allowed, e,
                                                                                 Branches(image, e))
  {
    hide Lead, Branches;
    forall t | t in Branches(image, e) && Bad(Lead(image.symbols, allowed, e, t))
      ensures Branch(e.start, t, Lead(image.symbols, allowed, e, t)) in Problems(image.symbols, allowed, e,
                                                                                 Branches(image, e))
    {
      ProblemsAre(image.symbols, allowed, e, Branches(image, e),
                  Branch(e.start, t, Lead(image.symbols, allowed, e, t)));
    }
  }

  lemma CoveredSkip(image: Image, allowed: string -> bool, root: Extent, done: set<Extent>, rest: seq<Extent>,
                    seen: set<nat>,
                    listed: seq<Problem>, e: Extent)
    requires Covered(image, allowed, root, done, rest + [e], seen, listed) && e.start in seen
    ensures Covered(image, allowed, root, done, rest, seen, listed)
  {
    hide Through, Longest, Lists, Calls;
    assert forall x :: x in rest ==> x in rest + [e];
    assert forall x :: x in rest + [e] ==> x in rest || x == e;
  }

  /** The search ends with a set of functions that covers all they call. */
  lemma {:induction false} SearchCovers(image: Image, allowed: string -> bool, root: Extent, pending: seq<Extent>,
                                        done: set<Extent>, seen: set<nat>,
                                        listed: seq<Problem>) returns (all: set<Extent>)
    requires LongestFirst(image.symbols, allowed, root) && InTable(image.symbols, root, pending)
    requires Covered(image, allowed, root, done, pending, seen, listed)
    ensures done <= all && (forall e :: e in pending ==> exists d :: d in all && d.start == e.start)
    ensures exists s :: Covered(image, allowed, root, all, [], s, listed + Search(image, allowed, root, pending, seen))
    decreases Starts(image.symbols, root) - seen, |pending|
  {
    hide Lead, Table, Covered, LongestFirst, Branches, Found, Problems;
    if pending == [] {
      assert listed + Search(image, allowed, root, pending, seen) == listed;
      assert Covered(image, allowed, root, done, [], seen, listed + Search(image, allowed, root, pending, seen));
      return done;
    }
    var rest, e := pending[..|pending| - 1], pending[|pending| - 1];
    assert e in pending && pending == rest + [e];
    assert forall x :: x in pending <==> x in rest || x == e;
    if e.start in seen {
      CoveredSkip(image, allowed, root, done, rest, seen, listed, e);
      all := SearchCovers(image, allowed, root, rest, done, seen, listed);
      assert Search(image, allowed, root, pending, seen) == Search(image, allowed, root, rest, seen);
      SeenStart(image, allowed, root, done, rest, seen, listed, e);
    } else {
      var targets := Branches(image, e);
      var found, problems := Found(image.symbols, allowed, e, targets), Problems(image.symbols, allowed, e, targets);
      FoundInTable(image.symbols, allowed, root, e, targets);
      assert e.start in Starts(image.symbols, root);
      CoveredNext(image, allowed, root, done, rest, seen, listed, e);
      all := SearchCovers(image, allowed, root, rest + found, done + {e}, seen + {e.start}, listed + problems);
      assert e in all;
      assert listed + Search(image, allowed, root, pending, seen)
          == listed + problems + Search(image, allowed, root, rest + found, seen + {e.start});
    }
  }

  lemma SeenStart(image: Image, allowed: string -> bool, root: Extent, done: set<Extent>, rest: seq<Extent>,
                  seen: set<nat>,
                  listed: seq<Problem>, e: Extent)
    requires Covered(image, allowed, root, done, rest, seen, listed) && e.start in seen
    ensures exists d :: d in done && d.start == e.start
  {
    hide Lead, Through, Longest, Branches, Calls;
  }

  /** Of every reachable function the longest of its start has been examined. */
  lemma {:induction false} AllCovered(image: Image, allowed: string -> bool, root: Extent, all: set<Extent>,
                                      seen: set<nat>,
                                      listed: seq<Problem>, path: seq<Extent>)
    requires Laid(image.symbols, root) && InSram(root.start) && Covered(image, allowed, root, all, [], seen, listed)
    requires exists d :: d in all && d.start == root.start
    requires |path| > 0 && path[0] == root && Chain(image, allowed, path)
    ensures exists d :: d in all && d.start == path[|path| - 1].start
    decreases |path|
  {
    if |path| > 1 {
      hide Lead, Through, Branches, Laid, Calls, Landable, Reaches, Longest;
      var shorter, a, b := path[..|path| - 1], path[|path| - 2], path[|path| - 1];
      assert Chain(image, allowed, shorter);
      AllCovered(image, allowed, root, all, seen, listed, shorter);
      var d :| d in all && d.start == a.start;
      assert Calls(image, allowed, path[|path| - 2], path[|path| - 2 + 1]);
      PathReaches(image, allowed, root, shorter);
      assert Through(image, allowed, root, all, d);
      ThroughReaches(image, allowed, root, all, d);
      ReachesLands(image, allowed, root, d);
      CalledAlike(image, allowed, root, d, a, b);
      assert Calls(image, allowed, d, b) ==> b.start in seen;
    }
  }

  lemma PathReaches(image: Image, allowed: string -> bool, root: Extent, path: seq<Extent>)
    requires |path| > 0 && path[0] == root && Chain(image, allowed, path)
    ensures Reaches(image, allowed, root, path[|path| - 1])
  {
  }

  lemma ThroughReaches(image: Image, allowed: string -> bool, root: Extent, done: set<Extent>, e: Extent)
    requires Through(image, allowed, root, done, e)
    ensures Reaches(image, allowed, root, e)
  {
  }

  /** What a function calls, the longest of its start calls or is. */
  lemma CalledAlike(image: Image, allowed: string -> bool, root: Extent, long: Extent, a: Extent, b: Extent)
    requires Laid(image.symbols, root) && InSram(root.start) && Reaches(image, allowed, root, a)
    requires Calls(image, allowed, a, b)
    requires long.start == a.start && Longest(image.symbols, allowed, root, long)
    requires Landable(image.symbols, allowed, root, long)
    ensures Calls(image, allowed, long, b) || b == long
  {
    ReachesLands(image, allowed, root, a);
    hide Lead, Laid, Landable, Reaches;
    var t :| t in Branches(image, a) && Lead(image.symbols, allowed, a, t) == Ram(b);
    SharedBranch(image, a, long, t);
    InsideNot(image.symbols, allowed, a, t);
    if Covers(long, t) {
      TailLands(image.symbols, allowed, root, long, a, t);
    } else {
      LeadsAlike(image.symbols, allowed, a, long, t);
    }
  }

  lemma InsideNot(symbols: Symbols, allowed: string -> bool, e: Extent, t: nat)
    ensures Lead(symbols, allowed, e, t).Inside? <==> Covers(e, t)
  {
  }

  /** A longer extent of one start shows every branch of a shorter one. */
  lemma SharedBranch(image: Image, a: Extent, long: Extent, t: nat)
    requires long.start == a.start && a.size <= long.size && t in Branches(image, a)
    ensures t in Branches(image, long) && a.size > 0
  {
    BranchesAre(image, a, t);
    var x: nat :| Covers(a, x) && t in image.code(x);
    assert Covers(long, x);
    BranchesAre(image, long, t);
  }

  /** The problems listed are exactly the bad branches of reachable functions, aliases included. */
  lemma SearchIsExactLaid(image: Image, allowed: string -> bool, root: Extent, p: Problem)
    requires Laid(image.symbols, root) && InSram(root.start) && LongestFirst(image.symbols, allowed, root)
    ensures InTable(image.symbols, root, [root])
    ensures p in Search(image, allowed, root, [root], {}) <==>
              exists e :: Reaches(image, allowed, root, e) && ProblemOf(image, allowed, e, p)
  {
    hide Lead, Table, Search, LongestFirst, Branches, Laid;
    RootInTable(image.symbols, root);
    ReachesRoot(image, allowed, root);
    if p in Search(image, allowed, root, [root], {}) {
      SearchIsSound(image, allowed, root, [root], {}, p);
    }
    if e :| Reaches(image, allowed, root, e) && ProblemOf(image, allowed, e, p) {
      RootThrough(image, allowed, root);
      var all := SearchCovers(image, allowed, root, [root], {}, {}, []);
      assert root in [root];
      var s :| Covered(image, allowed, root, all, [], s, [] + Search(image, allowed, root, [root], {}));
      var path :| |path| > 0 && path[0] == root && path[|path| - 1] == e && Chain(image, allowed, path);
      AllCovered(image, allowed, root, all, s, [] + Search(image, allowed, root, [root], {}), path);
      var d :| d in all && d.start == e.start;
      BadAlike(image, allowed, root, all, s, [] + Search(image, allowed, root, [root], {}), d, e, p);
      assert [] + Search(image, allowed, root, [root], {}) == Search(image, allowed, root, [root], {});
    }
  }

  lemma RootThrough(image: Image, allowed: string -> bool, root: Extent)
    ensures Covered(image, allowed, root, {}, [root], {}, [])
  {
    var path := [root];
    assert path[0] == root && path[|path| - 1] == root && Chain(image, allowed, path);
  }

  /** A bad branch of a function is one of the longest of its start, and listed for it. */
  lemma BadAlike(image: Image, allowed: string -> bool, root: Extent, all: set<Extent>, seen: set<nat>,
                 listed: seq<Problem>,
                 d: Extent, e: Extent, p: Problem)
    requires Laid(image.symbols, root) && InSram(root.start) && Covered(image, allowed, root, all, [], seen, listed)
    requires d in all && d.start == e.start && Reaches(image, allowed, root, e) && ProblemOf(image, allowed, e, p)
    ensures p in listed
  {
    ReachesLands(image, allowed, root, e);
    assert Through(image, allowed, root, all, d);
    ThroughReaches(image, allowed, root, all, d);
    ReachesLands(image, allowed, root, d);
    hide Lead, Laid, Landable, Reaches, Through, Calls, Branches;
    SharedBranch(image, e, d, p.target);
    InsideNot(image.symbols, allowed, e, p.target);
    if Covers(d, p.target) {
      TailLands(image.symbols, allowed, root, d, e, p.target);
    } else {
      LeadsAlike(image.symbols, allowed, e, d, p.target);
    }
  }

  // ---------------------------------------------------------------- when the search can miss a problem

  ghost predicate StartsDiffer(path: seq<Extent>) {
    forall i, j :: 0 <= i < j < |path| ==> path[i].start != path[j].start
  }

  /** The track without what lies between two of its extents. */
  lemma Spliced(symbols: Symbols, allowed: string -> bool, path: seq<Extent>, a: nat, b: nat)
    requires Track(symbols, allowed, path) && a < b < |path| && May(symbols, allowed, path[a], path[b])
    ensures var shorter := path[..a + 1] + path[b..];
            && Track(symbols, allowed, shorter) && |shorter| == a + 1 + |path| - b
            && shorter[0] == path[0] && shorter[|shorter| - 1] == path[|path| - 1]
  {
    hide May;
    var shorter := path[..a + 1] + path[b..];
    forall i | 0 <= i < |shorter| - 1 ensures May(symbols, allowed, shorter[i], shorter[i + 1]) {
      if i < a {
        assert shorter[i] == path[i] && shorter[i + 1] == path[i + 1];
      } else if i == a {
        assert shorter[i] == path[a] && shorter[i + 1] == path[b];
      } else {
        assert shorter[i] == path[i - a - 1 + b] && shorter[i + 1] == path[i - a - 1 + b + 1];
      }
    }
  }

  lemma TrackPrefix(symbols: Symbols, allowed: string -> bool, path: seq<Extent>, n: nat)
    requires Track(symbols, allowed, path) && 0 < n <= |path|
    ensures Track(symbols, allowed, path[..n])
  {
    hide May;
    var prefix := path[..n];
    forall i | 0 <= i < |prefix| - 1 ensures May(symbols, allowed, prefix[i], prefix[i + 1]) {
      assert prefix[i] == path[i] && prefix[i + 1] == path[i + 1];
    }
  }

  lemma TrackLands(symbols: Symbols, allowed: string -> bool, root: Extent, path: seq<Extent>, i: nat)
    requires Track(symbols, allowed, path) && i < |path| && path[0] == root
    ensures Landable(symbols, allowed, root, path[i])
  {
    hide May;
    TrackPrefix(symbols, allowed, path, i + 1);
    var prefix := path[..i + 1];
    assert prefix[0] == root && prefix[|prefix| - 1] == path[i];
  }

  /** No earlier extent has the start of the last one. */
  ghost predicate LastIsFirst(path: seq<Extent>)
    requires path != []
  {
    forall i :: 0 <= i < |path| - 1 ==> path[i].start != path[|path| - 1].start
  }

  /** A track to an extent that is first at its start but not the longest need not come to any start twice. */
  lemma {:induction false} Straightened(symbols: Symbols, allowed: string -> bool, root: Extent, path: seq<Extent>)
    returns (straight: seq<Extent>)
    requires Laid(symbols, root) && InSram(root.start)
    requires path != [] && path[0] == root && Track(symbols, allowed, path) && LastIsFirst(path)
    requires !Longest(symbols, allowed, root, path[|path| - 1])
    ensures straight != [] && straight[0] == root && Track(symbols, allowed, straight) && StartsDiffer(straight)
    ensures !Longest(symbols, allowed, root, straight[|straight| - 1])
    decreases |path|
  {
    hide Laid, May, Longest, Landable, Track;
    if StartsDiffer(path) {
      return path;
    }
    var b: nat :| b < |path| && exists a :: 0 <= a < b && path[a].start == path[b].start;
    var a := FirstAt(path, b);
    if !Longest(symbols, allowed, root, path[a]) {
      TrackPrefix(symbols, allowed, path, a + 1);
      straight := Straightened(symbols, allowed, root, path[..a + 1]);
      return;
    }
    var next := Bypass(symbols, allowed, root, path, a, b);
    Spliced(symbols, allowed, path, a, next);
    StillFirst(path, a, next);
    straight := Straightened(symbols, allowed, root, path[..a + 1] + path[next..]);
  }

  lemma FirstAt(path: seq<Extent>, b: nat) returns (a: nat)
    requires b < |path| && LastIsFirst(path) && exists a :: 0 <= a < b && path[a].start == path[b].start
    ensures a < b < |path| - 1 && path[a].start == path[b].start && LastIsFirst(path[..a + 1])
  {
    a := 0;
    while path[a].start != path[b].start
      invariant a < b && forall c :: 0 <= c < a ==> path[c].start != path[b].start
      invariant exists d :: a <= d < b && path[d].start == path[b].start
      decreases b - a
    {
      a := a + 1;
    }
  }

  lemma StillFirst(path: seq<Extent>, a: nat, next: nat)
    requires path != [] && LastIsFirst(path) && a < next < |path|
    ensures var shorter := path[..a + 1] + path[next..];
            shorter != [] && LastIsFirst(shorter) && shorter[|shorter| - 1] == path[|path| - 1]
  {
    var shorter := path[..a + 1] + path[next..];
    forall i | 0 <= i < |shorter| - 1 ensures shorter[i].start != shorter[|shorter| - 1].start {
      assert shorter[i] == if i <= a then path[i] else path[i - a - 1 + next];
    }
  }

  /** Where a track comes back to a start at which it was at the longest extent, it can be cut short. */
  lemma Bypass(symbols: Symbols, allowed: string -> bool, root: Extent, path: seq<Extent>, a: nat, b: nat)
    returns (next: nat)
    requires Laid(symbols, root) && InSram(root.start)
    requires path != [] && path[0] == root && Track(symbols, allowed, path) && LastIsFirst(path)
    requires a < b < |path| - 1 && path[a].start == path[b].start && Longest(symbols, allowed, root, path[a])
    ensures b < next < |path| && next > a + 1 && May(symbols, allowed, path[a], path[next])
  {
    hide Laid, Landable, Track, Lead, Longest, May;
    TrackLands(symbols, allowed, root, path, a);
    TrackLands(symbols, allowed, root, path, b);
    LongestOf(symbols, allowed, root, path[a], path[b]);
    StepMay(symbols, allowed, path, b);
    var t := MayTarget(symbols, allowed, path[b], path[b + 1]);
    InsideNot(symbols, allowed, path[b], t);
    if Covers(path[a], t) {
      TailLands(symbols, allowed, root, path[a], path[b], t);
      next := b + 2;
      StepMay(symbols, allowed, path, b + 1);
    } else {
      LeadsAlike(symbols, allowed, path[a], path[b], t);
      next := b + 1;
      MayBy(symbols, allowed, path[a], path[next], t);
    }
  }

  lemma LongestOf(symbols: Symbols, allowed: string -> bool, root: Extent, long: Extent, e: Extent)
    requires Longest(symbols, allowed, root, long) && Landable(symbols, allowed, root, e) && e.start == long.start
    ensures e.size <= long.size
  {
    hide Landable;
  }

  lemma MayTarget(symbols: Symbols, allowed: string -> bool, from: Extent, to: Extent) returns (t: nat)
    requires May(symbols, allowed, from, to)
    ensures from.size > 0 && Lead(symbols, allowed, from, t) == Ram(to)
  {
    hide Lead;
    t :| Lead(symbols, allowed, from, t) == Ram(to);
  }

  lemma MayBy(symbols: Symbols, allowed: string -> bool, from: Extent, to: Extent, t: nat)
    requires from.size > 0 && Lead(symbols, allowed, from, t) == Ram(to)
    ensures May(symbols, allowed, from, to)
  {
    hide Lead;
  }

  lemma StepMay(symbols: Symbols, allowed: string -> bool, path: seq<Extent>, i: nat)
    requires Track(symbols, allowed, path) && i + 1 < |path|
    ensures May(symbols, allowed, path[i], path[i + 1])
  {
  }

  /** The functions the search examines from here on. */
  ghost function Visited(image: Image, allowed: string -> bool, root: Extent, pending: seq<Extent>,
                         seen: set<nat>): set<Extent>
    requires InTable(image.symbols, root, pending)
    decreases Starts(image.symbols, root) - seen, |pending|
  {
    if pending == [] then {}
    else
      var rest, e := pending[..|pending| - 1], pending[|pending| - 1];
      assert e in pending && forall x :: x in rest ==> x in pending;
      if e.start in seen then Visited(image, allowed, root, rest, seen)
      else
        var targets := Branches(image, e);
        FoundInTable(image.symbols, allowed, root, e, targets);
        assert e.start in Starts(image.symbols, root);
        {e} + Visited(image, allowed, root, rest + Found(image.symbols, allowed, e, targets), seen + {e.start})
  }

  /** It examines one function for each start it has not seen, and only reachable ones. */
  lemma {:induction false} VisitedOnce(image: Image, allowed: string -> bool, root: Extent, pending: seq<Extent>,
                                       seen: set<nat>)
    requires InTable(image.symbols, root, pending) && forall e :: e in pending ==> Reaches(image, allowed, root, e)
    ensures var all := Visited(image, allowed, root, pending, seen);
            && (forall e :: e in all ==> e.start !in seen && Reaches(image, allowed, root, e))
            && (forall a, b :: a in all && b in all && a.start == b.start ==> a == b)
    decreases Starts(image.symbols, root) - seen, |pending|
  {
    hide Lead, Table, Reaches, Branches, Calls;
    if pending != [] {
      var rest, e := pending[..|pending| - 1], pending[|pending| - 1];
      assert e in pending && forall x :: x in rest ==> x in pending;
      if e.start in seen {
        VisitedOnce(image, allowed, root, rest, seen);
      } else {
        var targets := Branches(image, e);
        FoundInTable(image.symbols, allowed, root, e, targets);
        assert e.start in Starts(image.symbols, root);
        FoundIsCalled(image, allowed, e);
        var found := Found(image.symbols, allowed, e, targets);
        forall x | x in rest + found ensures Reaches(image, allowed, root, x) {
          if x in found {
            ReachesNext(image, allowed, root, e, x);
          }
        }
        VisitedOnce(image, allowed, root, rest + found, seen + {e.start});
      }
    }
  }

  /** Code that shows nowhere in what is examined does not matter. */
  lemma {:induction false} SearchIgnores(image: Image, other: Image, allowed: string -> bool, root: Extent,
                                         pending: seq<Extent>,
                                         seen: set<nat>)
    requires other.symbols == image.symbols && InTable(image.symbols, root, pending)
    requires forall e :: e in Visited(image, allowed, root, pending, seen) ==> Branches(other, e) == Branches(image, e)
    ensures Search(other, allowed, root, pending, seen) == Search(image, allowed, root, pending, seen)
    decreases Starts(image.symbols, root) - seen, |pending|
  {
    hide Lead, Table, Branches;
    if pending != [] {
      var rest, e := pending[..|pending| - 1], pending[|pending| - 1];
      assert e in pending && forall y :: y in rest ==> y in pending;
      if e.start in seen {
        SearchIgnores(image, other, allowed, root, rest, seen);
      } else {
        var targets := Branches(image, e);
        FoundInTable(image.symbols, allowed, root, e, targets);
        assert e.start in Starts(image.symbols, root);
        SearchIgnores(image, other, allowed, root, rest + Found(image.symbols, allowed, e, targets), seen + {e.start});
      }
    }
  }

  /** Pending functions whose last branch leads on along a path are examined one after the other. */
  lemma {:induction false} WalksStraight(image: Image, allowed: string -> bool, root: Extent, path: seq<Extent>, j: nat,
                                         rest: seq<Extent>, seen: set<nat>)
    requires StartsDiffer(path) && j < |path| && InTable(image.symbols, root, rest + [path[j]])
    requires forall i :: j <= i < |path| ==> path[i].start !in seen
    requires forall i :: 0 <= i < |path| - 1 ==> LeadsOn(image, allowed, path[i], path[i + 1])
    ensures path[|path| - 1] in Visited(image, allowed, root, rest + [path[j]], seen)
    decreases |path| - j
  {
    hide Lead, Table, Branches, Found, LeadsOn;
    var pending, e := rest + [path[j]], path[j];
    assert pending[..|pending| - 1] == rest && pending[|pending| - 1] == e;
    assert e in pending && forall x :: x in rest ==> x in pending;
    FoundInTable(image.symbols, allowed, root, e, Branches(image, e));
    assert e.start in Starts(image.symbols, root);
    var found := Found(image.symbols, allowed, e, Branches(image, e));
    if j + 1 < |path| {
      assert LeadsOn(image, allowed, path[j], path[j + 1]);
      OnLast(image, allowed, e, path[j + 1]);
      var before := rest + found[..|found| - 1];
      assert rest + found == before + [path[j + 1]];
      WalksStraight(image, allowed, root, path, j + 1, before, seen + {e.start});
    }
  }

  /** The last RAM function that the branches of this one lead to. */
  ghost predicate LeadsOn(image: Image, allowed: string -> bool, from: Extent, to: Extent) {
    var found := Found(image.symbols, allowed, from, Branches(image, from));
    |found| > 0 && found[|found| - 1] == to
  }

  lemma OnLast(image: Image, allowed: string -> bool, from: Extent, to: Extent)
    requires LeadsOn(image, allowed, from, to)
    ensures var found := Found(image.symbols, allowed, from, Branches(image, from));
            |found| > 0 && found == found[..|found| - 1] + [to]
  {
  }

  // ---------------------------------------------------------------- code that hides a problem

  /** The targets that lead along a track. */
  lemma TrackTargets(symbols: Symbols, allowed: string -> bool, path: seq<Extent>) returns (targets: seq<nat>)
    requires path != [] && Track(symbols, allowed, path)
    ensures Along(symbols, allowed, path, targets)
  {
    hide Lead;
    targets := [];
    while |targets| < |path| - 1
      invariant |targets| <= |path| - 1
      invariant forall i :: 0 <= i < |targets| ==>
                  path[i].size > 0 && Lead(symbols, allowed, path[i], targets[i]) == Ram(path[i + 1])
    {
      var i := |targets|;
      assert May(symbols, allowed, path[i], path[i + 1]);
      var t :| Lead(symbols, allowed, path[i], t) == Ram(path[i + 1]);
      targets := targets + [t];
    }
  }

  /** These targets lead from each extent of a path to the next. */
  ghost predicate Along(symbols: Symbols, allowed: string -> bool, path: seq<Extent>, targets: seq<nat>) {
    && path != [] && |targets| == |path| - 1
    && forall i :: 0 <= i < |targets| ==>
         path[i].size > 0 && Lead(symbols, allowed, path[i], targets[i]) == Ram(path[i + 1])
  }

  /** The targets a path uses from extents that start at an address. */
  ghost function EdgesAt(path: seq<Extent>, targets: seq<nat>, a: nat): seq<nat>
    requires |targets| <= |path|
  {
    if targets == [] then []
    else
      var n := |targets| - 1;
      EdgesAt(path, targets[..n], a) + if path[n].start == a then [targets[n]] else []
  }

  lemma {:induction false} EdgesAre(path: seq<Extent>, targets: seq<nat>, a: nat, t: nat)
    requires |targets| <= |path|
    ensures t in EdgesAt(path, targets, a) <==> exists i :: 0 <= i < |targets| && path[i].start == a && targets[i] == t
  {
    if targets != [] {
      var n := |targets| - 1;
      EdgesAre(path, targets[..n], a, t);
      if i :| 0 <= i < |targets| && path[i].start == a && targets[i] == t {
        assert i < n ==> targets[..n][i] == t;
      }
    }
  }

  /** On a path that comes to no start twice, each extent has one edge. */
  lemma {:induction false} EdgeIs(path: seq<Extent>, targets: seq<nat>, j: nat)
    requires |targets| <= |path| && StartsDiffer(path) && j < |path|
    ensures EdgesAt(path, targets, path[j].start) == if j < |targets| then [targets[j]] else []
  {
    if targets != [] {
      var n := |targets| - 1;
      EdgeIs(path, targets[..n], j);
      assert n != j ==> path[n].start != path[j].start;
    }
  }

  /** Code that branches along two paths, from the first byte of each function, the second path last. */
  ghost function PathCode(q: seq<Extent>, tq: seq<nat>, p: seq<Extent>, tp: seq<nat>): nat -> seq<nat>
    requires |tq| <= |q| && |tp| <= |p|
  {
    (a: nat) => EdgesAt(q, tq, a) + EdgesAt(p, tp, a)
  }

  /** Two sized symbols that share an address share their start. */
  lemma SameAddress(symbols: Symbols, e: Extent, f: Extent, a: nat)
    requires InOrder(symbols.spans) && Distinct(symbols.spans) && Spanned(symbols, e) && Spanned(symbols, f)
    requires Covers(e, a) && Covers(f, a)
    ensures e.start == f.start
  {
    var i :| 0 <= i < |symbols.spans| && symbols.spans[i].at == e;
    var j :| 0 <= j < |symbols.spans| && symbols.spans[j].at == f;
    assert i < j || j < i || e == f;
  }

  lemma LandableSpanned(symbols: Symbols, allowed: string -> bool, root: Extent, e: Extent)
    requires Laid(symbols, root) && Landable(symbols, allowed, root, e) && e.size > 0
    ensures Spanned(symbols, e) && InOrder(symbols.spans) && Distinct(symbols.spans)
  {
    LandableInTable(symbols, allowed, root, e);
  }

  /** Where the code of a path shows in a function, the function has the start of one on the path. */
  lemma EdgeOwner(symbols: Symbols, allowed: string -> bool, root: Extent, path: seq<Extent>, targets: seq<nat>,
                  e: Extent, a: nat,
                  t: nat) returns (i: nat)
    requires Laid(symbols, root) && Landable(symbols, allowed, root, e) && Covers(e, a)
    requires Along(symbols, allowed, path, targets) && path[0] == root && Track(symbols, allowed, path)
    requires t in EdgesAt(path, targets, a)
    ensures i < |targets| && targets[i] == t && path[i].start == a == e.start
  {
    EdgesAre(path, targets, a, t);
    hide Laid, Landable, Lead, Track, EdgesAt;
    i :| 0 <= i < |targets| && path[i].start == a && targets[i] == t;
    TrackLands(symbols, allowed, root, path, i);
    LandableSpanned(symbols, allowed, root, path[i]);
    LandableSpanned(symbols, allowed, root, e);
    SameAddress(symbols, e, path[i], a);
  }

  /** Branches along a track are no problem for any alias. */
  lemma EdgeGood(symbols: Symbols, allowed: string -> bool, root: Extent, path: seq<Extent>, targets: seq<nat>,
                 e: Extent, a: nat, t: nat)
    requires Laid(symbols, root) && Landable(symbols, allowed, root, e) && Covers(e, a)
    requires Along(symbols, allowed, path, targets) && path[0] == root && Track(symbols, allowed, path)
    requires t in EdgesAt(path, targets, a)
    ensures !Bad(Lead(symbols, allowed, e, t))
  {
    hide Laid, Landable, Lead, Track, EdgesAt;
    var i := EdgeOwner(symbols, allowed, root, path, targets, e, a, t);
    assert Lead(symbols, allowed, path[i], targets[i]) == Ram(path[i + 1]);
    InsideNot(symbols, allowed, path[i], t);
    InsideNot(symbols, allowed, e, t);
    if !Covers(e, t) {
      LeadsAlike(symbols, allowed, e, path[i], t);
    }
  }

  /** The code of two tracks lists no problem. */
  lemma PathCodeQuiet(symbols: Symbols, allowed: string -> bool, root: Extent, q: seq<Extent>, tq: seq<nat>,
                      p: seq<Extent>, tp: seq<nat>)
    requires Laid(symbols, root)
    requires Along(symbols, allowed, q, tq) && q[0] == root && Track(symbols, allowed, q)
    requires Along(symbols, allowed, p, tp) && p[0] == root && Track(symbols, allowed, p)
    ensures InTable(symbols, root, [root])
    ensures Search(Image(symbols, PathCode(q, tq, p, tp)), allowed, root, [root], {}) == []
  {
    var image := Image(symbols, PathCode(q, tq, p, tp));
    RootInTable(symbols, root);
    ReachesRoot(image, allowed, root);
    hide Lead, Table, Reaches, Search, Laid, Landable, Track, EdgesAt, Along, Branches;
    var listed := Search(image, allowed, root, [root], {});
    if listed != [] {
      SearchIsSound(image, allowed, root, [root], {}, listed[0]);
      var e :| Reaches(image, allowed, root, e) && ProblemOf(image, allowed, e, listed[0]);
      var t := listed[0].target;
      ReachesLands(image, allowed, root, e);
      BranchesAre(image, e, t);
      var a: nat :| Covers(e, a) && t in image.code(a);
      assert image.code(a) == EdgesAt(q, tq, a) + EdgesAt(p, tp, a);
      assert t in EdgesAt(q, tq, a) || t in EdgesAt(p, tp, a);
      if t in EdgesAt(q, tq, a) {
        EdgeGood(symbols, allowed, root, q, tq, e, a, t);
      } else {
        EdgeGood(symbols, allowed, root, p, tp, e, a, t);
      }
      assert false;
    }
  }

  /** Code that has every branch of a path follows it. */
  lemma PathFollows(image: Image, allowed: string -> bool, path: seq<Extent>, targets: seq<nat>)
    requires Along(image.symbols, allowed, path, targets)
    requires forall a, t :: t in EdgesAt(path, targets, a) ==> t in image.code(a)
    ensures Chain(image, allowed, path)
  {
    hide Lead, EdgesAt, Branches;
    forall i | 0 <= i < |path| - 1 ensures Calls(image, allowed, path[i], path[i + 1]) {
      EdgesAre(path, targets, path[i].start, targets[i]);
      assert Covers(path[i], path[i].start) && targets[i] in image.code(path[i].start);
      BranchesAre(image, path[i], targets[i]);
      assert Lead(image.symbols, allowed, path[i], targets[i]) == Ram(path[i + 1]);
    }
  }

  lemma {:induction false} OnlyFirst(code: nat -> seq<nat>, start: nat, size: nat)
    requires size > 0 && forall a :: start < a < start + size ==> code(a) == []
    ensures TargetsIn(code, start, size) == code(start)
  {
    if size > 1 {
      OnlyFirst(code, start, size - 1);
      assert code(start + size - 1) == [];
    } else {
      assert TargetsIn(code, start, 0) == [];
    }
  }

  /** In the code of two tracks, each function on the second branches last to the next one on it. */
  lemma PathLeadsOn(symbols: Symbols, allowed: string -> bool, root: Extent, q: seq<Extent>, tq: seq<nat>,
                    p: seq<Extent>, tp: seq<nat>,
                    j: nat)
    requires Laid(symbols, root) && StartsDiffer(p) && j < |p| - 1
    requires Along(symbols, allowed, q, tq) && q[0] == root && Track(symbols, allowed, q)
    requires Along(symbols, allowed, p, tp) && p[0] == root && Track(symbols, allowed, p)
    ensures LeadsOn(Image(symbols, PathCode(q, tq, p, tp)), allowed, p[j], p[j + 1])
  {
    var image, e := Image(symbols, PathCode(q, tq, p, tp)), p[j];
    assert Lead(symbols, allowed, p[j], tp[j]) == Ram(p[j + 1]) && e.size > 0;
    TrackLands(symbols, allowed, root, p, j);
    EdgeIs(p, tp, j);
    hide Lead, Laid, Landable, Track, EdgesAt, Along, TargetsIn, StartsDiffer;
    forall a: nat | e.start < a < e.start + e.size ensures image.code(a) == [] {
      NoEdge(symbols, allowed, root, q, tq, e, a);
      NoEdge(symbols, allowed, root, p, tp, e, a);
      assert image.code(a) == EdgesAt(q, tq, a) + EdgesAt(p, tp, a);
    }
    OnlyFirst(image.code, e.start, e.size);
    assert Branches(image, e) == EdgesAt(q, tq, e.start) + [tp[j]];
    FoundLast(symbols, allowed, e, EdgesAt(q, tq, e.start), tp[j], p[j + 1]);
  }

  lemma FoundLast(symbols: Symbols, allowed: string -> bool, e: Extent, before: seq<nat>, t: nat, b: Extent)
    requires Lead(symbols, allowed, e, t) == Ram(b)
    ensures Found(symbols, allowed, e, before + [t]) == Found(symbols, allowed, e, before) + [b]
  {
    hide Lead;
    assert (before + [t])[..|before|] == before;
  }

  /** A track has no code inside a function, only at its start. */
  lemma NoEdge(symbols: Symbols, allowed: string -> bool, root: Extent, path: seq<Extent>, targets: seq<nat>,
               e: Extent, a: nat)
    requires Laid(symbols, root) && Landable(symbols, allowed, root, e) && Covers(e, a) && a != e.start
    requires Along(symbols, allowed, path, targets) && path[0] == root && Track(symbols, allowed, path)
    ensures EdgesAt(path, targets, a) == []
  {
    hide Laid, Landable, Lead, Track, EdgesAt;
    var edges := EdgesAt(path, targets, a);
    if edges != [] {
      var i := EdgeOwner(symbols, allowed, root, path, targets, e, a, edges[0]);
      assert false;
    }
  }

  /** An address above all symbols and a function. */
  ghost function Beyond(spans: seq<Span>, e: Extent): (t: nat)
    ensures t >= e.start + e.size && forall s :: s in spans ==> t >= s.at.start + s.at.size
  {
    if spans == [] then e.start + e.size
    else
      var n := |spans| - 1;
      var t, end := Beyond(spans[..n], e), spans[n].at.start + spans[n].at.size;
      assert forall s :: s in spans ==> s in spans[..n] || s == spans[n];
      if t < end then end else t
  }

  lemma BeyondIsBad(symbols: Symbols, allowed: string -> bool, e: Extent)
    ensures Bad(Lead(symbols, allowed, e, Beyond(symbols.spans, e)))
  {
    var t := Beyond(symbols.spans, e);
    assert forall i :: 0 <= i < |symbols.spans| ==> symbols.spans[i] in symbols.spans;
    assert Containing(symbols.spans, t).None?;
  }

  /** The image with one more branch at an address, to no known function. */
  ghost function WithBad(image: Image, at: nat, t: nat): Image {
    Image(image.symbols, (a: nat) => if a == at then image.code(a) + [t] else image.code(a))
  }

  /** It shows only in functions over that address. */
  lemma BadShows(image: Image, at: nat, t: nat, e: Extent)
    ensures !Covers(e, at) ==> Branches(WithBad(image, at, t), e) == Branches(image, e)
    ensures Covers(e, at) ==> t in Branches(WithBad(image, at, t), e)
    ensures forall u :: u in Branches(image, e) ==> u in Branches(WithBad(image, at, t), e)
  {
    var other := WithBad(image, at, t);
    SameTargets(image.code, other.code, at, e.start, e.size);
    if Covers(e, at) {
      assert t in other.code(at);
      BranchesAre(other, e, t);
    }
    forall u | u in Branches(image, e) ensures u in Branches(other, e) {
      BranchesAre(image, e, u);
      var a: nat :| Covers(e, a) && u in image.code(a);
      assert u in other.code(a);
      BranchesAre(other, e, u);
    }
  }

  lemma {:induction false} SameTargets(code: nat -> seq<nat>, other: nat -> seq<nat>, at: nat, start: nat, size: nat)
    requires forall a :: a != at ==> other(a) == code(a)
    ensures !(start <= at < start + size) ==> TargetsIn(other, start, size) == TargetsIn(code, start, size)
  {
    if size > 0 {
      SameTargets(code, other, at, start, size - 1);
    }
  }

  /** Where a track first comes to a start at too short an extent, some code has a problem that is missed. */
  lemma ShorterFirstMisses(symbols: Symbols, allowed: string -> bool, root: Extent) returns (code: nat -> seq<nat>)
    requires Laid(symbols, root) && InSram(root.start) && !LongestFirst(symbols, allowed, root)
    ensures !Decides(Image(symbols, code), allowed, root)
  {
    hide Laid, Lead, Landable, Track, May, Table, Search, Branches, Along, EdgesAt, Decides, Longest;
    var path, n :| 0 <= n < |path| && path[0] == root && Track(symbols, allowed, path) && !Repeats(path, n)
                   && !Longest(symbols, allowed, root, path[n]);
    TrackPrefix(symbols, allowed, path, n + 1);
    NotRepeated(path, n);
    var p := Straightened(symbols, allowed, root, path[..n + 1]);
    var x := p[|p| - 1];
    var y, q := Longer(symbols, allowed, root, x);
    code := HidingCode(symbols, allowed, root, p, q, x, y);
  }

  lemma NotRepeated(path: seq<Extent>, n: nat)
    requires n < |path| && !Repeats(path, n)
    ensures LastIsFirst(path[..n + 1]) && path[..n + 1][n] == path[n]
  {
  }

  lemma Longer(symbols: Symbols, allowed: string -> bool, root: Extent, x: Extent) returns (y: Extent, q: seq<Extent>)
    requires !Longest(symbols, allowed, root, x)
    ensures y.start == x.start && y.size > x.size
    ensures q != [] && q[0] == root && q[|q| - 1] == y && Track(symbols, allowed, q)
  {
    hide Track;
    y :| Landable(symbols, allowed, root, y) && y.start == x.start && y.size > x.size;
    q :| |q| > 0 && q[0] == root && q[|q| - 1] == y && Track(symbols, allowed, q);
  }

  /** Code that leads to the shorter extent first, and has a problem in the rest of the longer one. */
  lemma HidingCode(symbols: Symbols, allowed: string -> bool, root: Extent, p: seq<Extent>, q: seq<Extent>, x: Extent,
                   y: Extent)
    returns (code: nat -> seq<nat>)
    requires Laid(symbols, root) && y.start == x.start && y.size > x.size
    requires p != [] && p[0] == root && p[|p| - 1] == x && Track(symbols, allowed, p) && StartsDiffer(p)
    requires q != [] && q[0] == root && q[|q| - 1] == y && Track(symbols, allowed, q)
    ensures !Decides(Image(symbols, code), allowed, root)
  {
    hide Laid, Lead, Landable, Track, May, Table, Search, Branches, EdgesAt, Decides, Visited, LeadsOn, Reaches,
         StartsDiffer;
    var tp := TrackTargets(symbols, allowed, p);
    var tq := TrackTargets(symbols, allowed, q);
    var image := Image(symbols, PathCode(q, tq, p, tp));
    PathCodeQuiet(symbols, allowed, root, q, tq, p, tp);
    forall j | 0 <= j < |p| - 1 ensures LeadsOn(image, allowed, p[j], p[j + 1]) {
      PathLeadsOn(symbols, allowed, root, q, tq, p, tp, j);
    }
    PathFollows(image, allowed, q, tq) by { FirstEdges(q, tq, p, tp); }
    hide Along, PathCode;
    assert [] + [root] == [root];
    WalksStraight(image, allowed, root, p, 0, [], {});
    ReachesRoot(image, allowed, root);
    VisitedOnce(image, allowed, root, [root], {});
    var at, t := x.start + x.size, Beyond(symbols.spans, y);
    TrackLands(symbols, allowed, root, q, |q| - 1);
    forall e | e in Visited(image, allowed, root, [root], {})
      ensures Branches(WithBad(image, at, t), e) == Branches(image, e)
    {
      ReachesLands(image, allowed, root, e);
      NotOver(symbols, allowed, root, e, x, y);
      BadShows(image, at, t, e);
    }
    SearchIgnores(image, WithBad(image, at, t), allowed, root, [root], {});
    BadReached(image, allowed, root, q, y, at);
    code := WithBad(image, at, t).code;
    assert Image(symbols, code) == WithBad(image, at, t);
    Missed(WithBad(image, at, t), allowed, root, y);
  }

  lemma FirstEdges(q: seq<Extent>, tq: seq<nat>, p: seq<Extent>, tp: seq<nat>)
    requires |tq| <= |q| && |tp| <= |p|
    ensures forall a, t :: t in EdgesAt(q, tq, a) ==> t in PathCode(q, tq, p, tp)(a)
  {
    hide EdgesAt;
  }

  /** Of all that can be landed on, only aliases of a start lie over the rest of its longer extent. */
  lemma NotOver(symbols: Symbols, allowed: string -> bool, root: Extent, e: Extent, x: Extent, y: Extent)
    requires Laid(symbols, root) && Landable(symbols, allowed, root, e) && Landable(symbols, allowed, root, y)
    requires y.start == x.start && y.size > x.size && (e.start == x.start ==> e == x)
    ensures !Covers(e, x.start + x.size)
  {
    hide Laid, Landable;
    if Covers(e, x.start + x.size) {
      LandableSpanned(symbols, allowed, root, e);
      LandableSpanned(symbols, allowed, root, y);
      SameAddress(symbols, e, y, x.start + x.size);
      assert false;
    }
  }

  /** The longer extent is still reached, and has the bad branch. */
  lemma BadReached(image: Image, allowed: string -> bool, root: Extent, q: seq<Extent>, y: Extent, at: nat)
    requires q != [] && q[0] == root && q[|q| - 1] == y && Chain(image, allowed, q) && Covers(y, at)
    ensures var other := WithBad(image, at, Beyond(image.symbols.spans, y));
            Reaches(other, allowed, root, y) && !Good(other, allowed, y)
  {
    hide Lead, Branches, Beyond, WithBad;
    var t := Beyond(image.symbols.spans, y);
    var other := WithBad(image, at, t);
    assert other.symbols == image.symbols by { SameSymbols(image, at, t); }
    forall i | 0 <= i < |q| - 1 ensures Calls(other, allowed, q[i], q[i + 1]) {
      assert Calls(image, allowed, q[i], q[i + 1]);
      BadShows(image, at, t, q[i]);
    }
    assert Chain(other, allowed, q);
    BadShows(image, at, t, y);
    BeyondIsBad(image.symbols, allowed, y);
  }

  lemma SameSymbols(image: Image, at: nat, t: nat)
    ensures WithBad(image, at, t).symbols == image.symbols
  {
  }

  lemma Missed(image: Image, allowed: string -> bool, root: Extent, y: Extent)
    requires InTable(image.symbols, root, [root]) && Search(image, allowed, root, [root], {}) == []
    requires Reaches(image, allowed, root, y) && !Good(image, allowed, y)
    ensures !Decides(image, allowed, root)
  {
    hide Search, Reaches, Good, Table;
  }

  /**
   For symbols as a linker lays them out: the search decides every code exactly when it always comes
   to a start first at the longest extent it could land on there.
   */
  lemma DecidesExactly(symbols: Symbols, allowed: string -> bool, root: Extent)
    requires Laid(symbols, root) && InSram(root.start)
    ensures LongestFirst(symbols, allowed, root) <==> forall code :: Decides(Image(symbols, code), allowed, root)
  {
    hide Decides, LongestFirst, Laid;
    if LongestFirst(symbols, allowed, root) {
      forall code ensures Decides(Image(symbols, code), allowed, root) {
        LongestDecides(Image(symbols, code), allowed, root);
      }
    } else {
      var code := ShorterFirstMisses(symbols, allowed, root);
    }
  }

  lemma LongestDecides(image: Image, allowed: string -> bool, root: Extent)
    requires Laid(image.symbols, root) && InSram(root.start) && LongestFirst(image.symbols, allowed, root)
    ensures Decides(image, allowed, root)
  {
    hide Lead, Table, Search, Reaches, LongestFirst, Laid, Branches;
    RootInTable(image.symbols, root);
    var listed := Search(image, allowed, root, [root], {});
    if listed != [] {
      SearchIsExactLaid(image, allowed, root, listed[0]);
      var e :| Reaches(image, allowed, root, e) && ProblemOf(image, allowed, e, listed[0]);
      assert !Good(image, allowed, e);
    } else {
      forall e, t | Reaches(image, allowed, root, e)
                    && t in Branches(image, e) ensures !Bad(Lead(image.symbols, allowed, e, t)) {
        SearchIsExactLaid(image, allowed, root, Branch(e.start, t, Lead(image.symbols, allowed, e, t)));
      }
    }
  }

  // ---------------------------------------------------------------- a missed problem

  const SHORT := Extent(SRAM_START, 2)
  const LONG := Extent(SRAM_START, 4)

  /** Two symbols of one start: f with two bytes and its alias g with four. */
  function Aliases(plain: nat -> string): Symbols {
    Symbols([Span(SHORT, "f"), Span(LONG, "g")], map["f" := SHORT, "g" := LONG], plain)
  }

  /** The first instruction branches to the second, which leaves for no known function. */
  function Shadowed(plain: nat -> string): Image {
    Image(Aliases(plain),
          (a: nat) => if a == SRAM_START then [SRAM_START + 2] else if a == SRAM_START + 2 then [0] else [])
  }

  /** Sized symbols are listed by address and by name. */
  ghost predicate ByBoth(symbols: Symbols) {
    && (forall s :: s in symbols.spans ==> s.name in symbols.byName && symbols.byName[s.name] == s.at)
    && (forall name :: name in symbols.byName ==> Span(symbols.byName[name], name) in symbols.spans)
  }

  lemma ShadowedLeads(allowed: string -> bool, plain: nat -> string)
    ensures Lead(Aliases(plain), allowed, SHORT, SRAM_START + 2) == Ram(LONG)
    ensures Lead(Aliases(plain), allowed, LONG, 0) == NoFunction
  {
    var spans := Aliases(plain).spans;
    assert spans[..1] == [spans[0]] && spans[..1][..0] == [] && Below([], 0) == 0;
    assert Below([spans[0]], 0) == 0;
    assert Below(spans, SRAM_START + 2) == 2 && Below(spans, 0) == 0;
    assert VeneerTarget("g").None?;
  }

  /**
   A problem is missed where the search starts at the shorter of two aliases: the longer one is never
   examined, because functions are told apart by their start alone. Both symbols are listed and laid out.
   */
  lemma SecondExtentIsMissed(allowed: string -> bool, plain: nat -> string)
    ensures ByBoth(Aliases(plain)) && Laid(Aliases(plain), SHORT)
    ensures var image := Shadowed(plain);
            && InTable(image.symbols, SHORT, [SHORT]) && Search(image, allowed, SHORT, [SHORT], {}) == []
            && Reaches(image, allowed, SHORT, LONG) && !Good(image, allowed, LONG)
            && !LongestFirst(image.symbols, allowed, SHORT)
  {
    var image := Shadowed(plain);
    AliasesListed(plain);
    RootInTable(image.symbols, SHORT);
    ShadowedFinds(allowed, plain);
    ShadowedReaches(allowed, plain);
    ShadowedBranches(plain);
    hide Lead, Table, Search, Reaches, LongestFirst, Found, Problems, Good, Shadowed, Aliases, Laid, ByBoth, Branches;
    SearchStep(image, allowed, SHORT, [], SHORT, {});
    assert [] + [SHORT] == [SHORT] && [] + [LONG] == [LONG] && {} + {SHORT.start} == {SRAM_START};
    SearchStep(image, allowed, SHORT, [], LONG, {SRAM_START});
    SearchEnds(image, allowed, SHORT, {SRAM_START});
  }

  lemma SearchEnds(image: Image, allowed: string -> bool, root: Extent, seen: set<nat>)
    ensures InTable(image.symbols, root, []) && Search(image, allowed, root, [], seen) == []
  {
  }

  lemma AliasesListed(plain: nat -> string)
    ensures ByBoth(Aliases(plain)) && Laid(Aliases(plain), SHORT)
  {
    var symbols := Aliases(plain);
    assert "f" != "g" by { assert "f"[0] != "g"[0]; }
    assert symbols.spans[0] == Span(SHORT, "f") && symbols.spans[1] == Span(LONG, "g");
    assert VeneerTarget("f").None? && VeneerTarget("g").None?;
    assert Spanned(symbols, SHORT) && Spanned(symbols, LONG);
    assert forall e :: e in Table(symbols, SHORT) ==> e == SHORT || e == LONG;
  }

  lemma ShadowedBranches(plain: nat -> string)
    ensures var image := Shadowed(plain);
            image.symbols == Aliases(plain) && Branches(image, SHORT) == [SRAM_START + 2] && 0 in Branches(image, LONG)
  {
    var image := Shadowed(plain);
    assert TargetsIn(image.code, SRAM_START, 0) == [];
    assert TargetsIn(image.code, SRAM_START, 1) == [SRAM_START + 2];
    assert 0 in image.code(SRAM_START + 2) && Covers(LONG, SRAM_START + 2);
    BranchesAre(image, LONG, 0);
  }

  lemma ShadowedFinds(allowed: string -> bool, plain: nat -> string)
    ensures Found(Aliases(plain), allowed, SHORT, [SRAM_START + 2]) == [LONG]
    ensures Problems(Aliases(plain), allowed, SHORT, [SRAM_START + 2]) == []
  {
    ShadowedLeads(allowed, plain);
    hide Lead;
    var targets := [SRAM_START + 2];
    assert targets[..0] == [] && Found(Aliases(plain), allowed, SHORT, []) == []
           && Problems(Aliases(plain), allowed, SHORT, []) == [];
  }

  lemma ShadowedReaches(allowed: string -> bool, plain: nat -> string)
    ensures var image := Shadowed(plain);
            Reaches(image, allowed, SHORT, LONG) && !Good(image, allowed, LONG)
              && !LongestFirst(image.symbols, allowed, SHORT)
  {
    var image := Shadowed(plain);
    ShadowedLeads(allowed, plain);
    ShadowedBranches(plain);
    hide Lead, Reaches, Landable, Branches;
    assert SRAM_START + 2 in Branches(image, SHORT);
    assert Calls(image, allowed, SHORT, LONG);
    ReachesRoot(image, allowed, SHORT);
    ReachesNext(image, allowed, SHORT, SHORT, LONG);
    ReachesLands(image, allowed, SHORT, LONG);
    var path := [SHORT];
    assert path[0] == SHORT && Track(image.symbols, allowed, path) && !Repeats(path, 0);
    assert !Longest(image.symbols, allowed, SHORT, path[0]);
  }

  // ---------------------------------------------------------------- a whole image

  /** A listed function: its name and what it may call in flash. */
  datatype Listed = Listed(name: string, allowed: string -> bool)

  /** Every instance of a listed function passes. */
  ghost predicate Passes(image: Image, byPlain: map<string, seq<Extent>>, f: Listed) {
    f.name in byPlain ==> forall i :: 0 <= i < |byPlain[f.name]| ==> PathPasses(image, f.allowed, byPlain[f.name][i])
  }

  /** The root lies in RAM and branches, directly or through RAM functions, to nothing it must not. */
  ghost predicate PathPasses(image: Image, allowed: string -> bool, root: Extent) {
    InSram(root.start) && StaysOut(image, allowed, root)
  }

  /**
   Aliases cannot mislead the search: the extents it could land on differ in their start, or symbols
   are laid out and it comes to each start first at the longest.
   */
  ghost predicate Sure(symbols: Symbols, allowed: string -> bool, root: Extent) {
    || OneExtent(symbols, allowed, root)
    || (Laid(symbols, root) && LongestFirst(symbols, allowed, root))
  }

  /** Aliases cannot mislead the search of any instance of a listed function. */
  ghost predicate SureEach(image: Image, functions: seq<Listed>, byPlain: map<string, seq<Extent>>) {
    forall f :: f in functions && f.name in byPlain ==> forall r :: r in byPlain[f.name] ==>
      Sure(image.symbols, f.allowed, r)
  }

  /** Checks all listed functions of an image; some must be there. */
  method CheckImage(image: Image, required: seq<string>, functions: seq<Listed>, byPlain: map<string, seq<Extent>>)
    returns (missing: seq<string>, problems: seq<Problem>)
    requires Sorted(image.symbols.spans)
    ensures missing == [] <==> forall i :: 0 <= i < |required| ==> required[i] in byPlain
    ensures SureEach(image, functions, byPlain) ==>
              (problems == [] <==> forall i :: 0 <= i < |functions| ==> Passes(image, byPlain, functions[i]))
  {
    hide PathPasses, Sure;
    missing, problems := [], [];
    var i := 0;
    while i < |required|
      invariant i <= |required| && (missing == [] <==> forall j :: 0 <= j < i ==> required[j] in byPlain)
    {
      if required[i] !in byPlain {
        missing := missing + [required[i]];
      }
      i := i + 1;
    }
    i := 0;
    while i < |functions|
      invariant i <= |functions|
      invariant SureEach(image, functions, byPlain) ==>
                  (problems == [] <==> forall j :: 0 <= j < i ==> Passes(image, byPlain, functions[j]))
    {
      var f := functions[i];
      assert f in functions;
      var found := CheckRoots(image, f, if f.name in byPlain then byPlain[f.name] else []);
      problems := problems + found;
      i := i + 1;
    }
  }

  /** Every instance of one listed function. */
  method CheckRoots(image: Image, f: Listed, roots: seq<Extent>) returns (problems: seq<Problem>)
    requires Sorted(image.symbols.spans)
    ensures (forall r :: r in roots ==> Sure(image.symbols, f.allowed, r)) ==>
              (problems == [] <==> forall j :: 0 <= j < |roots| ==> PathPasses(image, f.allowed, roots[j]))
  {
    hide PathPasses, Sure, Search;
    problems := [];
    ghost var apart := forall r :: r in roots ==> Sure(image.symbols, f.allowed, r);
    var k := 0;
    while k < |roots|
      invariant k <= |roots|
      invariant apart ==> (problems == [] <==> forall j :: 0 <= j < k ==> PathPasses(image, f.allowed, roots[j]))
    {
      assert roots[k] in roots;
      var found := CheckPath(image, roots[k], f.allowed);
      if apart {
        PathDecides(image, f.allowed, roots[k]);
      }
      problems := problems + found;
      k := k + 1;
    }
  }

  lemma PathDecides(image: Image, allowed: string -> bool, root: Extent)
    requires Sure(image.symbols, allowed, root) && Sorted(image.symbols.spans)
    ensures InTable(image.symbols, root, [root])
    ensures PathPasses(image, allowed, root) <==> InSram(root.start) && Search(image, allowed, root, [root], {}) == []
  {
    RootInTable(image.symbols, root);
    StaysOutIs(image, allowed, root);
    if OneExtent(image.symbols, allowed, root) {
      SearchDecides(image, allowed, root);
    } else if InSram(root.start) {
      LongestDecides(image, allowed, root);
    }
    hide Reaches, Search, OneExtent, Laid, LongestFirst, StaysOut;
  }
}
