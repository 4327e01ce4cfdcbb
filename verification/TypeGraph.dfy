/**
 Component types and their children: the three-colour search for cyclic expansion, and the expansion
 of a device tree that its success makes finite.
 */
module TypeGraph {
  import opened Outcomes
  import Collections

  /** A type's declared children, by name; children's types are other entries of the catalogue. */
  type Catalogue = map<string, seq<Declared>>

  datatype Declared = Declared(name: string, compatible: string)

  /** `child` is a known child type of `parent`. */
  predicate Edge(c: Catalogue, parent: string, child: string) {
    parent in c && child in c && exists i :: 0 <= i < |c[parent]| && c[parent][i].compatible == child
  }

  /** A path along child types. */
  ghost predicate Walk(c: Catalogue, p: seq<string>) {
    && (forall i :: 0 <= i < |p| ==> p[i] in c)
    && (forall i :: 0 <= i < |p| - 1 ==> Edge(c, p[i], p[i + 1]))
  }

  ghost predicate Cyclic(c: Catalogue) {
    exists p :: |p| >= 2 && Walk(c, p) && p[0] == p[|p| - 1]
  }

  /** A number for each type that falls from every type to its children. */
  ghost predicate Ranked(c: Catalogue, rank: map<string, nat>) {
    && c.Keys <= rank.Keys
    && (forall t, u :: Edge(c, t, u) ==> rank[u] < rank[t])
  }

  lemma {:induction false} RankFallsAlong(c: Catalogue, rank: map<string, nat>, p: seq<string>)
    requires Ranked(c, rank) && Walk(c, p) && |p| >= 2
    ensures rank[p[|p| - 1]] < rank[p[0]]
    decreases |p|
  {
    var n := |p| - 1;
    assert Edge(c, p[n - 1], p[n]);
    if n > 1 {
      var q := p[..n];
      assert forall i :: 0 <= i < |q| - 1 ==> Edge(c, q[i], q[i + 1]);
      RankFallsAlong(c, rank, q);
    }
  }

  lemma RankedIsAcyclic(c: Catalogue, rank: map<string, nat>)
    requires Ranked(c, rank)
    ensures !Cyclic(c)
  {
    forall p | |p| >= 2 && Walk(c, p) ensures p[0] != p[|p| - 1] {
      RankFallsAlong(c, rank, p);
    }
  }

  // ---------------------------------------------------------------- the search

  datatype Colour = Grey | Black

  type Colours = map<string, Colour>

  /** Grey types are the current chain; black ones have a rank above that of all their children. */
  ghost predicate Coloured(c: Catalogue, state: Colours, rank: map<string, nat>, chain: seq<string>) {
    && state.Keys <= c.Keys
    && (forall t :: t in state && state[t] == Grey <==> t in chain)
    && (forall t :: t in state && state[t] == Black ==> t in rank)
    && (forall t, u :: t in state && state[t] == Black && Edge(c, t, u) ==>
          u in state && state[u] == Black && rank[u] < rank[t])
  }

  /** What a visit keeps: every coloured type, and every black one as it was. */
  ghost predicate Kept(before: Colours, rank: map<string, nat>, after: Colours, rank': map<string, nat>) {
    && before.Keys <= after.Keys
    && forall t :: t in before && before[t] == Black ==>
         after[t] == Black && t in rank && t in rank' && rank'[t] == rank[t]
  }

  class CycleCheck {
    const catalogue: Catalogue
    var state: Colours
    ghost var rank: map<string, nat>

    constructor (catalogue: Catalogue)
      ensures this.catalogue == catalogue && Coloured(catalogue, state, rank, [])
    {
      this.catalogue := catalogue;
      state := map[];
      rank := map[];
    }

    method Visit(compatible: string, chain: seq<string>) returns (ok: bool)
      requires compatible in catalogue && Coloured(catalogue, state, rank, chain)
      requires Walk(catalogue, chain + [compatible])
      modifies this
      ensures ok ==> Coloured(catalogue, state, rank, chain) && Kept(old(state), old(rank), state, rank)
      ensures ok ==> compatible in state && state[compatible] == Black
      ensures !ok ==> Cyclic(catalogue)
      decreases |catalogue.Keys - state.Keys|, 0
    {
      hide Walk, Cyclic, Coloured, Kept;
      if compatible in state && state[compatible] == Black {
        KeptSame(catalogue, state, rank, chain);
        return true;
      }
      if compatible in state {
        GreyIsInChain(catalogue, state, rank, chain, compatible);
        ClosesCycle(catalogue, chain, compatible);
        return false;
      }
      Starts(catalogue, state, rank, chain, compatible);
      state := state[compatible := Grey];
      assert compatible in old(catalogue.Keys - state.Keys) && compatible !in catalogue.Keys - state.Keys;
      Collections.Smaller(catalogue.Keys - state.Keys, old(catalogue.Keys - state.Keys));
      ok := VisitChildren(compatible, chain + [compatible]);
      if ok {
        Finishes(catalogue, old(state), old(rank), state, rank, chain, compatible);
        state := state[compatible := Black];
        rank := rank[compatible := Above(rank)];
      }
    }

    /** Visits the children of the last type of the chain. */
    method VisitChildren(compatible: string, chain: seq<string>) returns (ok: bool)
      requires Coloured(catalogue, state, rank, chain) && Walk(catalogue, chain)
      requires chain != [] && chain[|chain| - 1] == compatible
      modifies this
      ensures ok ==> Coloured(catalogue, state, rank, chain) && Kept(old(state), old(rank), state, rank)
      ensures ok ==> forall u :: Edge(catalogue, compatible, u) ==> u in state && state[u] == Black
      ensures !ok ==> Cyclic(catalogue)
      decreases |catalogue.Keys - state.Keys|, 1
    {
      hide Walk, Cyclic, Coloured, Kept, BlackUpTo, Edge;
      InCatalogue(catalogue, chain);
      KeptSame(catalogue, state, rank, chain);
      var children := catalogue[compatible];
      BlackStart(catalogue, children, state);
      var i := 0;
      while i < |children|
        invariant i <= |children|
        invariant Coloured(catalogue, state, rank, chain) && Kept(old(state), old(rank), state, rank)
        invariant BlackUpTo(catalogue, children, i, state)
      {
        var child := children[i].compatible;
        if child in catalogue {
          ChildEdge(catalogue, compatible, i);
          WalkOn(catalogue, chain, child);
          KeptKeys(catalogue.Keys, old(state), old(rank), state, rank);
          label Before:
          ok := Visit(child, chain);
          if !ok {
            return false;
          }
          KeptBoth(old(state), old(rank), old@Before(state), old@Before(rank), state, rank);
          BlackKept(catalogue, children, i, old@Before(state), old@Before(rank), state, rank);
        }
        BlackNext(catalogue, children, i, state);
        i := i + 1;
      }
      BlackChildren(catalogue, compatible, state);
      return true;
    }
  }

  /** The first i children that the catalogue knows are black. */
  ghost predicate BlackUpTo(c: Catalogue, children: seq<Declared>, i: nat, state: Colours) {
    forall k :: 0 <= k < i && k < |children| && children[k].compatible in c ==>
      children[k].compatible in state && state[children[k].compatible] == Black
  }

  lemma BlackStart(c: Catalogue, children: seq<Declared>, state: Colours)
    ensures BlackUpTo(c, children, 0, state)
  {
  }

  lemma BlackKept(c: Catalogue, children: seq<Declared>, i: nat, s0: Colours, r0: map<string, nat>,
                  s1: Colours, r1: map<string, nat>)
    requires BlackUpTo(c, children, i, s0) && Kept(s0, r0, s1, r1)
    ensures BlackUpTo(c, children, i, s1)
  {
  }

  lemma BlackNext(c: Catalogue, children: seq<Declared>, i: nat, state: Colours)
    requires i < |children| && BlackUpTo(c, children, i, state)
    requires children[i].compatible in c ==> children[i].compatible in state && state[children[i].compatible] == Black
    ensures BlackUpTo(c, children, i + 1, state)
  {
  }

  lemma BlackChildren(c: Catalogue, compatible: string, state: Colours)
    requires compatible in c && BlackUpTo(c, c[compatible], |c[compatible]|, state)
    ensures forall u :: Edge(c, compatible, u) ==> u in state && state[u] == Black
  {
  }

  lemma ChildEdge(c: Catalogue, compatible: string, i: nat)
    requires compatible in c && i < |c[compatible]| && c[compatible][i].compatible in c
    ensures Edge(c, compatible, c[compatible][i].compatible)
  {
  }

  lemma KeptSame(c: Catalogue, state: Colours, rank: map<string, nat>, chain: seq<string>)
    requires Coloured(c, state, rank, chain)
    ensures Kept(state, rank, state, rank)
  {
  }

  lemma KeptBoth(s0: Colours, r0: map<string, nat>, s1: Colours, r1: map<string, nat>, s2: Colours,
                 r2: map<string, nat>)
    requires Kept(s0, r0, s1, r1) && Kept(s1, r1, s2, r2)
    ensures Kept(s0, r0, s2, r2)
  {
  }

  lemma StaysBlack(s0: Colours, r0: map<string, nat>, s1: Colours, r1: map<string, nat>)
    requires Kept(s0, r0, s1, r1)
    ensures forall t :: t in s0 && s0[t] == Black ==> t in s1 && s1[t] == Black
  {
  }

  lemma KeptKeys(all: set<string>, s0: Colours, r0: map<string, nat>, s1: Colours, r1: map<string, nat>)
    requires Kept(s0, r0, s1, r1)
    ensures |all - s1.Keys| <= |all - s0.Keys|
  {
    NoLarger(all - s1.Keys, all - s0.Keys);
  }

  lemma GreyIsInChain(c: Catalogue, state: Colours, rank: map<string, nat>, chain: seq<string>, t: string)
    requires Coloured(c, state, rank, chain) && t in state && state[t] == Grey
    ensures t in chain
  {
  }

  lemma Starts(c: Catalogue, state: Colours, rank: map<string, nat>, chain: seq<string>, t: string)
    requires Coloured(c, state, rank, chain) && t in c && t !in state
    ensures Coloured(c, state[t := Grey], rank, chain + [t])
  {
  }

  /** Turning the last type of the chain black, above all its children, completes its visit. */
  lemma Finishes(c: Catalogue, s0: Colours, r0: map<string, nat>, s1: Colours, r1: map<string, nat>,
                 chain: seq<string>, t: string)
    requires Coloured(c, s0, r0, chain) && t in c && t !in s0
    requires Coloured(c, s1, r1, chain + [t]) && Kept(s0[t := Grey], r0, s1, r1)
    requires forall u :: Edge(c, t, u) ==> u in s1 && s1[u] == Black
    ensures Coloured(c, s1[t := Black], r1[t := Above(r1)], chain)
    ensures Kept(s0, r0, s1[t := Black], r1[t := Above(r1)])
  {
    assert s1[t] == Grey by {
      assert t in chain + [t];
    }
    assert t !in chain;
  }

  /** A number above every rank. */
  ghost function Above(rank: map<string, nat>): (n: nat)
    ensures forall t :: t in rank ==> rank[t] < n
    decreases |rank|
  {
    if rank == map[] then 0
    else
      var t :| t in rank;
      var n := Above(rank - {t});
      assert forall u :: u in rank ==> u == t || u in rank - {t};
      if rank[t] < n then n else rank[t] + 1
  }

  lemma NoLarger(s: set<string>, t: set<string>)
    requires s <= t
    ensures |s| <= |t|
  {
    if s != t {
      Collections.Smaller(s, t);
    }
  }

  lemma InCatalogue(c: Catalogue, chain: seq<string>)
    requires Walk(c, chain) && chain != []
    ensures chain[|chain| - 1] in c
  {
  }

  lemma WalkOn(c: Catalogue, chain: seq<string>, child: string)
    requires chain != [] && Walk(c, chain) && Edge(c, chain[|chain| - 1], child)
    ensures Walk(c, chain + [child])
  {
  }

  lemma ClosesCycle(c: Catalogue, chain: seq<string>, again: string)
    requires again in chain && Walk(c, chain + [again])
    ensures Cyclic(c)
  {
    var i :| 0 <= i < |chain| && chain[i] == again;
    var p := (chain + [again])[i..];
    assert Walk(c, p) && p[0] == p[|p| - 1] && |p| >= 2;
  }

  /** Fails exactly when some type contains itself; otherwise every expansion is finite. */
  method CheckCycles(catalogue: Catalogue, names: seq<string>) returns (ok: bool, ghost rank: map<string, nat>)
    requires forall t :: t in catalogue <==> t in names
    ensures ok <==> !Cyclic(catalogue)
    ensures ok ==> Ranked(catalogue, rank)
  {
    var check := new CycleCheck(catalogue);
    rank := map[];
    var i := 0;
    while i < |names|
      invariant i <= |names| && check.catalogue == catalogue && Coloured(catalogue, check.state, check.rank, [])
      invariant forall k :: 0 <= k < i ==> names[k] in check.state && check.state[names[k]] == Black
    {
      assert [] + [names[i]] == [names[i]];
      ghost var s0, r0 := check.state, check.rank;
      ok := check.Visit(names[i], []);
      if !ok {
        return;
      }
      StaysBlack(s0, r0, check.state, check.rank);
      i := i + 1;
    }
    rank := check.rank;
    RankedIsAcyclic(catalogue, rank);
    ok := true;
  }

  // ---------------------------------------------------------------- expansion

  /** Every child type is known and child names are distinct: what the catalogue check ensures. */
  ghost predicate Checked(c: Catalogue) {
    forall t :: t in c ==>
      && (forall i :: 0 <= i < |c[t]| ==> c[t][i].compatible in c)
      && (forall i, j :: 0 <= i < j < |c[t]| ==> c[t][i].name != c[t][j].name)
  }

  function ChildType(children: seq<Declared>, name: string): (r: Option<string>)
    ensures r.Some? ==> exists i :: 0 <= i < |children| && children[i] == Declared(name, r.value)
  {
    if children == [] then None
    else if children[0].name == name then Some(children[0].compatible)
    else
      var r := ChildType(children[1..], name);
      assert r.Some? ==> exists i :: 0 <= i < |children[1..]| && children[1..][i] == Declared(name, r.value);
      assert forall i :: 0 <= i < |children[1..]| ==> children[1..][i] == children[i + 1];
      r
  }

  /** The type of the node below a type that a list of child names leads to. */
  function TypeAt(c: Catalogue, compatible: string, names: seq<string>): Option<string>
    decreases |names|
  {
    if compatible !in c then None
    else if names == [] then Some(compatible)
    else
      var child := ChildType(c[compatible], names[0]);
      if child.None? then None else TypeAt(c, child.value, names[1..])
  }

  type NodePath = seq<string>

  /** q is `path` itself or a declared node below it. */
  ghost predicate Below(c: Catalogue, compatible: string, path: NodePath, q: NodePath) {
    path <= q && TypeAt(c, compatible, q[|path|..]).Some?
  }

  class Expander {
    const catalogue: Catalogue
    var into: map<NodePath, string>

    constructor (catalogue: Catalogue)
      ensures this.catalogue == catalogue && into == map[]
    {
      this.catalogue := catalogue;
      into := map[];
    }

    /** Declares a node and, recursively, every child of its type. */
    method Expand(path: NodePath, compatible: string, ghost rank: map<string, nat>)
      requires Checked(catalogue) && Ranked(catalogue, rank) && compatible in catalogue
      modifies this
      ensures forall q :: q in into <==> q in old(into) || Below(catalogue, compatible, path, q)
      ensures forall q :: q in into ==>
                if Below(catalogue, compatible, path, q)
                then TypeAt(catalogue, compatible, q[|path|..]) == Some(into[q])
                else q in old(into) && into[q] == old(into)[q]
      decreases rank[compatible]
    {
      into := into[path := compatible];
      var children := catalogue[compatible];
      var i := 0;
      while i < |children|
        invariant i <= |children|
        invariant forall q :: q in into <==>
                    q in old(into) || q == path || BelowFirst(catalogue, children[..i], path, q)
        invariant forall q :: q in into ==>
                    if q == path then into[q] == compatible
                    else if BelowFirst(catalogue, children[..i], path, q)
                    then TypeAt(catalogue, compatible, q[|path|..]) == Some(into[q])
                    else q in old(into) && into[q] == old(into)[q]
      {
        var child := children[i];
        assert Edge(catalogue, compatible, child.compatible);
        Expand(path + [child.name], child.compatible, rank);
        forall q {
          NextChild(catalogue, compatible, path, i, q);
        }
        i := i + 1;
      }
      assert children[..i] == children;
      forall q {
        AllChildren(catalogue, compatible, path, q);
      }
    }
  }

  /** q lies below one of these children of `path`. */
  ghost predicate BelowFirst(c: Catalogue, children: seq<Declared>, path: NodePath, q: NodePath) {
    exists k :: 0 <= k < |children| && Below(c, children[k].compatible, path + [children[k].name], q)
  }

  lemma {:induction false} ChildTypeAt(children: seq<Declared>, k: nat)
    requires k < |children| && forall i, j :: 0 <= i < j < |children| ==> children[i].name != children[j].name
    ensures ChildType(children, children[k].name) == Some(children[k].compatible)
  {
    if k > 0 {
      ChildTypeAt(children[1..], k - 1);
    }
  }

  /** A node below the k-th child, seen from the parent. */
  lemma ChildPath(c: Catalogue, compatible: string, path: NodePath, k: nat, q: NodePath)
    requires Checked(c) && compatible in c && k < |c[compatible]|
    requires path + [c[compatible][k].name] <= q
    ensures path <= q && q != path
    ensures TypeAt(c, compatible, q[|path|..]) == TypeAt(c, c[compatible][k].compatible, q[|path| + 1..])
  {
    var deep := path + [c[compatible][k].name];
    var names := q[|path|..];
    ChildTypeAt(c[compatible], k);
    assert q[|path|] == deep[|path|];
    assert names[1..] == q[|path| + 1..];
  }

  lemma NextChild(c: Catalogue, compatible: string, path: NodePath, i: nat, q: NodePath)
    requires Checked(c) && compatible in c && i < |c[compatible]|
    ensures var children := c[compatible];
            var deep := path + [children[i].name];
            && (BelowFirst(c, children[..i + 1], path, q) <==>
                  BelowFirst(c, children[..i], path, q) || Below(c, children[i].compatible, deep, q))
            && (Below(c, children[i].compatible, deep, q) ==>
                  q != path && TypeAt(c, compatible, q[|path|..]) == TypeAt(c, children[i].compatible, q[|deep|..]))
  {
    var children := c[compatible];
    assert forall k :: 0 <= k < i ==> children[..i + 1][k] == children[..i][k];
    assert children[..i + 1][i] == children[i];
    if Below(c, children[i].compatible, path + [children[i].name], q) {
      ChildPath(c, compatible, path, i, q);
    }
  }

  /** The nodes below a type are the node itself and those below its children. */
  lemma AllChildren(c: Catalogue, compatible: string, path: NodePath, q: NodePath)
    requires Checked(c) && compatible in c
    ensures Below(c, compatible, path, q) <==> q == path || BelowFirst(c, c[compatible], path, q)
    ensures q == path ==> TypeAt(c, compatible, q[|path|..]) == Some(compatible)
  {
    var children := c[compatible];
    if k :| 0 <= k < |children| && Below(c, children[k].compatible, path + [children[k].name], q) {
      ChildPath(c, compatible, path, k, q);
    }
    if Below(c, compatible, path, q) && q != path {
      var names := q[|path|..];
      var child := ChildType(children, names[0]).value;
      var k :| 0 <= k < |children| && children[k] == Declared(names[0], child);
      var deep := path + [children[k].name];
      assert deep <= q;
      ChildPath(c, compatible, path, k, q);
      assert Below(c, children[k].compatible, deep, q);
    }
  }

  /**
   A checked catalogue and a device tree: the search succeeds exactly on acyclic catalogues, and then
   expansion ends and declares exactly the nodes the type tree has.
   */
  method DeclaredNodes(catalogue: Catalogue, names: seq<string>, roots: seq<Declared>)
    returns (r: Option<map<NodePath, string>>)
    requires Checked(catalogue) && forall t :: t in catalogue <==> t in names
    requires forall i :: 0 <= i < |roots| ==> roots[i].compatible in catalogue
    requires forall i, j :: 0 <= i < j < |roots| ==> roots[i].name != roots[j].name
    ensures r.None? <==> Cyclic(catalogue)
    ensures r.Some? ==> Declares(catalogue, roots, r.value)
  {
    var ok, rank := CheckCycles(catalogue, names);
    if !ok {
      return None;
    }
    var expander := new Expander(catalogue);
    var i := 0;
    assert roots[..0] == [] && Declares(catalogue, [], map[]);
    hide Below, Declares, Ranked, Cyclic, Checked;
    while i < |roots|
      invariant i <= |roots| && expander.catalogue == catalogue
      invariant Declares(catalogue, roots[..i], expander.into)
    {
      var root := roots[i];
      ghost var before := expander.into;
      expander.Expand([root.name], root.compatible, rank);
      assert roots[..i + 1] == roots[..i] + [root];
      DeclaresNext(catalogue, roots[..i], root, before, expander.into);
      i := i + 1;
    }
    assert roots[..i] == roots;
    return Some(expander.into);
  }

  /** The dictionary holds exactly the nodes below these roots, with their types. */
  ghost predicate Declares(c: Catalogue, roots: seq<Declared>, into: map<NodePath, string>) {
    && (forall q :: q in into ==> exists k :: 0 <= k < |roots| && Below(c, roots[k].compatible, [roots[k].name], q))
    && (forall q, k :: 0 <= k < |roots| && Below(c, roots[k].compatible, [roots[k].name], q) ==>
          q in into && TypeAt(c, roots[k].compatible, q[1..]) == Some(into[q]))
  }

  lemma DeclaresNext(c: Catalogue, roots: seq<Declared>, root: Declared, before: map<NodePath, string>,
                     after: map<NodePath, string>)
    requires Declares(c, roots, before)
    requires forall k :: 0 <= k < |roots| ==> roots[k].name != root.name
    requires forall q :: q in after <==> q in before || Below(c, root.compatible, [root.name], q)
    requires forall q :: q in after ==>
               if Below(c, root.compatible, [root.name], q)
               then TypeAt(c, root.compatible, q[1..]) == Some(after[q])
               else q in before && after[q] == before[q]
    ensures Declares(c, roots + [root], after)
  {
    hide TypeAt;
    var all := roots + [root];
    forall q | q in after ensures exists k :: 0 <= k < |all| && Below(c, all[k].compatible, [all[k].name], q) {
      if Below(c, root.compatible, [root.name], q) {
        assert all[|roots|] == root;
      } else {
        var k :| 0 <= k < |roots| && Below(c, roots[k].compatible, [roots[k].name], q);
        assert all[k] == roots[k];
      }
    }
    forall q, k | 0 <= k < |all| && Below(c, all[k].compatible, [all[k].name], q)
      ensures q in after && TypeAt(c, all[k].compatible, q[1..]) == Some(after[q])
    {
      if k < |roots| {
        assert all[k] == roots[k];
        assert q[0] == [roots[k].name][0];
        assert !Below(c, root.compatible, [root.name], q) by {
          assert [root.name][0] == root.name;
        }
      }
    }
  }
}
