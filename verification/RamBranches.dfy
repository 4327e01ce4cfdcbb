/**
 Where a branch goes, said of symbols and code alone, and what the search finds in those terms: the
 symbol at the target or, through a linker veneer, the function the veneer is named after.
 */
module RamBranches {
  import opened Outcomes
  import opened RamPaths

  // ---------------------------------------------------------------- destinations

  /** The name the linker gives a veneer to this function. */
  ghost predicate VeneerOf(name: string, f: string) {
    f != "" && name == "__" + f + "_veneer"
  }

  /** The address lies in this symbol, and no later one starts at or below it. */
  ghost predicate Hits(symbols: Symbols, t: nat, s: Span) {
    exists i :: 0 <= i < |symbols.spans| && symbols.spans[i] == s && Covers(s.at, t)
                && forall j :: i < j < |symbols.spans| ==> t < symbols.spans[j].at.start
  }

  /** Code at the address ends up here: in the symbol there, or in the function its veneer is for. */
  ghost predicate Goes(symbols: Symbols, t: nat, e: Extent) {
    exists s :: Hits(symbols, t, s) &&
      if exists f :: VeneerOf(s.name, f)
      then exists f :: VeneerOf(s.name, f) && f in symbols.byName && symbols.byName[f] == e
      else e == s.at
  }

  /** The code of the function has a branch to this address outside of it. */
  ghost predicate Leaves(image: Image, e: Extent, t: nat) {
    !Covers(e, t) && exists a :: Covers(e, a) && t in image.code(a)
  }

  ghost predicate Enters(image: Image, from: Extent, to: Extent) {
    InSram(to.start) && exists t :: Leaves(image, from, t) && Goes(image.symbols, t, to)
  }

  /** Branches lead from the root to this function without leaving RAM. */
  ghost predicate RunsInto(image: Image, root: Extent, e: Extent) {
    exists path :: |path| > 0 && path[0] == root && path[|path| - 1] == e && EntersEach(image, path)
  }

  ghost predicate EntersEach(image: Image, path: seq<Extent>) {
    forall i :: 0 <= i < |path| - 1 ==> Enters(image, path[i], path[i + 1])
  }

  /** A branch to no known place, or to flash that is not allowed. */
  ghost predicate Offends(image: Image, allowed: string -> bool, e: Extent, t: nat) {
    Leaves(image, e, t) && forall d :: Goes(image.symbols, t, d) ==>
      !InSram(d.start) && !allowed(image.symbols.plain(d.start))
  }

  // ---------------------------------------------------------------- the steps of the search

  lemma HitsIs(symbols: Symbols, t: nat, s: Span)
    requires Sorted(symbols.spans)
    ensures Containing(symbols.spans, t) == Some(s) <==> Hits(symbols, t, s)
  {
    var n := Below(symbols.spans, t);
    if i :| 0 <= i < |symbols.spans| && symbols.spans[i] == s && Covers(s.at, t)
            && forall j :: i < j < |symbols.spans| ==> t < symbols.spans[j].at.start {
      assert i < n;
      var last := symbols.spans[n - 1];
      assert last.at.start <= t;
    }
    if Containing(symbols.spans, t) == Some(s) {
      assert symbols.spans[n - 1] == s;
    }
  }

  lemma VeneerIs(name: string)
    ensures forall f :: VeneerOf(name, f) ==> VeneerTarget(name) == Some(f)
    ensures VeneerTarget(name).Some? ==> VeneerOf(name, VeneerTarget(name).value)
  {
    forall f | VeneerOf(name, f) ensures VeneerTarget(name) == Some(f) {
      VeneerNames(name, f);
    }
    if VeneerTarget(name).Some? {
      VeneerNames(name, VeneerTarget(name).value);
    }
  }

  /** The extent a branch to this address reaches, if its symbol and its veneer are known. */
  lemma GoesIs(symbols: Symbols, t: nat, e: Extent)
    requires Sorted(symbols.spans)
    ensures Goes(symbols, t, e) <==>
              var s := Containing(symbols.spans, t);
              && s.Some?
              && var via := VeneerTarget(s.value.name);
                if via.None? then e == s.value.at else via.value in symbols.byName && symbols.byName[via.value] == e
  {
    hide Containing, VeneerTarget, VeneerOf, Hits;
    forall s: Span ensures Containing(symbols.spans, t) == Some(s) <==> Hits(symbols, t, s) {
      HitsIs(symbols, t, s);
    }
    var found := Containing(symbols.spans, t);
    if found.Some? {
      assert Hits(symbols, t, found.value);
      VeneerIs(found.value.name);
      assert forall s :: Hits(symbols, t, s) ==> s == found.value;
    } else {
      assert forall s :: !Hits(symbols, t, s);
    }
  }

  /** Every step of the search is what the destination of the branch, RAM and the allowed names make it. */
  lemma LeadIs(symbols: Symbols, allowed: string -> bool, from: Extent, t: nat)
    requires Sorted(symbols.spans)
    ensures var step := Lead(symbols, allowed, from, t);
            && (step == Inside <==> Covers(from, t))
            && (forall e :: step == Ram(e) <==> !Covers(from, t) && Goes(symbols, t, e) && InSram(e.start))
            && (step == NoFunction <==> !Covers(from, t) && forall s :: !Hits(symbols, t, s))
            && (step == NoSymbol <==> !Covers(from, t) && (exists s :: Hits(symbols, t, s))
                                      && forall e :: !Goes(symbols, t, e))
            && (step == Allowed <==> !Covers(from, t) && exists e :: Goes(symbols, t, e) && !InSram(e.start)
                                                               && allowed(symbols.plain(e.start)))
            && (step == Flash <==> !Covers(from, t) && exists e :: Goes(symbols, t, e) && !InSram(e.start)
                                                             && !allowed(symbols.plain(e.start)))
  {
    hide Containing, VeneerTarget, Hits, Goes;
    forall s {
      HitsIs(symbols, t, s);
    }
    forall e {
      GoesIs(symbols, t, e);
    }
    var found := Containing(symbols.spans, t);
    if found.Some? {
      assert Hits(symbols, t, found.value);
      var via := VeneerTarget(found.value.name);
      if via.None? {
        assert Goes(symbols, t, found.value.at);
      } else if via.value in symbols.byName {
        assert Goes(symbols, t, symbols.byName[via.value]);
      }
    }
  }

  /** An address has one destination at most. */
  lemma GoesOnce(symbols: Symbols, t: nat, d: Extent, e: Extent)
    requires Sorted(symbols.spans) && Goes(symbols, t, d) && Goes(symbols, t, e)
    ensures d == e
  {
    hide Containing, VeneerTarget, Goes;
    GoesIs(symbols, t, d);
    GoesIs(symbols, t, e);
  }

  lemma LeavesIs(image: Image, e: Extent, t: nat)
    ensures Leaves(image, e, t) <==> t in Branches(image, e) && !Covers(e, t)
  {
    BranchesAre(image, e, t);
  }

  lemma EntersIs(image: Image, allowed: string -> bool, from: Extent, to: Extent)
    requires Sorted(image.symbols.spans)
    ensures Calls(image, allowed, from, to) <==> Enters(image, from, to)
  {
    hide Lead, Leaves, Goes, Branches;
    forall t: nat
      ensures t in Branches(image, from) && Lead(image.symbols, allowed, from, t) == Ram(to) <==>
                Leaves(image, from, t) && Goes(image.symbols, t, to) && InSram(to.start)
    {
      LeadIs(image.symbols, allowed, from, t);
      LeavesIs(image, from, t);
    }
  }

  lemma RunsIs(image: Image, allowed: string -> bool, root: Extent, e: Extent)
    requires Sorted(image.symbols.spans)
    ensures Reaches(image, allowed, root, e) <==> RunsInto(image, root, e)
  {
    hide Calls, Enters;
    forall a, b {
      EntersIs(image, allowed, a, b);
    }
    assert forall path :: Chain(image, allowed, path) <==> EntersEach(image, path);
    hide Chain, EntersEach;
  }

  lemma OffendsIs(image: Image, allowed: string -> bool, e: Extent, t: nat)
    requires Sorted(image.symbols.spans)
    ensures Offends(image, allowed, e, t) <==>
              t in Branches(image, e) && Bad(Lead(image.symbols, allowed, e, t))
  {
    LeadIs(image.symbols, allowed, e, t);
    LeavesIs(image, e, t);
    hide Lead, Leaves, Goes, Branches, Hits;
    if Offends(image, allowed, e, t) {
      assert Lead(image.symbols, allowed, e, t) != Inside;
      assert !Lead(image.symbols, allowed, e, t).Ram? && Lead(image.symbols, allowed, e, t) != Allowed;
    } else if t in Branches(image, e) && !Covers(e, t) {
      var d :| Goes(image.symbols, t, d) && (InSram(d.start) || allowed(image.symbols.plain(d.start)));
      forall x | Goes(image.symbols, t, x) ensures x == d {
        GoesOnce(image.symbols, t, x, d);
      }
    }
  }

  // ---------------------------------------------------------------- what the search finds

  /** Nothing in RAM that is reached from the root branches anywhere it must not. */
  ghost predicate StaysOut(image: Image, allowed: string -> bool, root: Extent) {
    forall e, t :: RunsInto(image, root, e) ==> !Offends(image, allowed, e, t)
  }

  lemma StaysOutIs(image: Image, allowed: string -> bool, root: Extent)
    requires Sorted(image.symbols.spans)
    ensures StaysOut(image, allowed, root) <==>
              forall e :: Reaches(image, allowed, root, e) ==> Good(image, allowed, e)
  {
    hide Lead, Offends, Reaches, RunsInto, Branches;
    forall e {
      RunsIs(image, allowed, root, e);
    }
    forall e, t {
      OffendsIs(image, allowed, e, t);
    }
  }

  /**
   Where the extents it could land on differ in their start, the search lists nothing exactly when no
   function reached in RAM branches to an unknown place or, directly or through a veneer, to flash.
   */
  lemma SearchStaysOut(image: Image, allowed: string -> bool, root: Extent)
    requires Sorted(image.symbols.spans) && OneExtent(image.symbols, allowed, root)
    ensures InTable(image.symbols, root, [root])
    ensures Search(image, allowed, root, [root], {}) == [] <==> StaysOut(image, allowed, root)
  {
    hide StaysOut, OneExtent, Search, Reaches, Good;
    RootInTable(image.symbols, root);
    SearchDecides(image, allowed, root);
    StaysOutIs(image, allowed, root);
  }

  /** ... and what it lists are the branches that offend, each with the start of its function. */
  lemma SearchListsOffences(image: Image, allowed: string -> bool, root: Extent, from: nat, t: nat)
    requires Sorted(image.symbols.spans) && OneExtent(image.symbols, allowed, root)
    ensures InTable(image.symbols, root, [root])
    ensures (exists step :: Branch(from, t, step) in Search(image, allowed, root, [root], {})) <==>
              exists e :: RunsInto(image, root, e) && e.start == from && Offends(image, allowed, e, t)
  {
    hide OneExtent, Search, Reaches, RunsInto, Offends, Lead, Branches;
    RootInTable(image.symbols, root);
    forall e
      ensures Reaches(image, allowed, root, e) <==> RunsInto(image, root, e)
      ensures Offends(image, allowed, e, t) <==> t in Branches(image, e) && Bad(Lead(image.symbols, allowed, e, t))
    {
      RunsIs(image, allowed, root, e);
      OffendsIs(image, allowed, e, t);
    }
    if step :| Branch(from, t, step) in Search(image, allowed, root, [root], {}) {
      SearchIsExact(image, allowed, root, Branch(from, t, step));
    }
    if e :| RunsInto(image, root, e) && e.start == from && Offends(image, allowed, e, t) {
      var p := Branch(from, t, Lead(image.symbols, allowed, e, t));
      assert ProblemOf(image, allowed, e, p);
      SearchIsExact(image, allowed, root, p);
    }
  }
}
