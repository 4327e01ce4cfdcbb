/**
 What the catalogue check and the presence phase establish for the later phases: connections that
 wire every child signal once, and children present only below present parents.
 */
module Presence {
  import opened Outcomes
  import opened DeviceSignals
  import TypeGraph

  // ---------------------------------------------------------------- connections of a type

  datatype Named = Named(name: string, connection: Connection)

  /** A component type: its signals, its children and the child signals its own signals wire. */
  datatype Kind = Kind(signals: set<string>, children: seq<TypeGraph.Declared>, connections: seq<Named>)

  type Kinds = map<string, Kind>

  /** The children of every type, as the search for cycles sees them. */
  function Graph(kinds: Kinds): TypeGraph.Catalogue {
    map t | t in kinds :: kinds[t].children
  }

  /** A signal of a declared child. */
  predicate OfChild(kinds: Kinds, kind: Kind, target: ChildSignal) {
    var child := TypeGraph.ChildType(kind.children, target.child);
    child.Some? && child.value in kinds && target.signal in kinds[child.value].signals
  }

  /** All child signals that connections wire, in order. */
  ghost function Targets(connections: seq<Named>): seq<ChildSignal> {
    if connections == [] then []
    else
      var n := |connections| - 1;
      Targets(connections[..n]) + connections[n].connection.Targets()
  }

  ghost predicate Once(targets: seq<ChildSignal>) {
    forall i, j :: 0 <= i < j < |targets| ==> targets[i] != targets[j]
  }

  /** Connections name own signals and wire signals of declared children, each once. */
  ghost predicate Connects(kinds: Kinds, kind: Kind) {
    && (forall i :: 0 <= i < |kind.connections| ==> kind.connections[i].name in kind.signals)
    && Good(kinds, kind, Targets(kind.connections))
  }

  ghost predicate Good(kinds: Kinds, kind: Kind, targets: seq<ChildSignal>) {
    (forall t :: t in targets ==> OfChild(kinds, kind, t)) && Once(targets)
  }

  lemma GoodPrefix(kinds: Kinds, kind: Kind, a: seq<ChildSignal>, b: seq<ChildSignal>)
    ensures Good(kinds, kind, a + b) ==> Good(kinds, kind, a)
  {
    hide OfChild;
    assert forall k :: 0 <= k < |a| ==> (a + b)[k] == a[k];
    assert forall t :: t in a ==> t in a + b;
  }

  /** Checks the connections of one type; the first problem ends it. */
  method CheckConnections(kinds: Kinds, kind: Kind) returns (ok: bool)
    ensures ok <==> Connects(kinds, kind)
  {
    hide OfChild;
    var owners: map<ChildSignal, string> := map[];
    var i := 0;
    var connections := kind.connections;
    assert connections[..0] == [];
    while i < |connections|
      invariant i <= |connections|
      invariant forall j :: 0 <= j < i ==> connections[j].name in kind.signals
      invariant Wired(kinds, kind, Targets(connections[..i]), owners.Keys)
    {
      var name, targets := connections[i].name, connections[i].connection.Targets();
      assert connections[..i + 1][..i] == connections[..i];
      if name !in kind.signals {
        return false;
      }
      ghost var before := Targets(connections[..i]);
      var j := 0;
      assert before + targets[..0] == before;
      while j < |targets|
        invariant j <= |targets| && Wired(kinds, kind, before + targets[..j], owners.Keys)
      {
        WiredNext(kinds, kind, before, targets, j, owners.Keys);
        if !OfChild(kinds, kind, targets[j]) || targets[j] in owners {
          NotConnected(kinds, kind, i, j + 1);
          return false;
        }
        owners := owners[targets[j] := name];
        j := j + 1;
      }
      assert targets[..j] == targets;
      i := i + 1;
    }
    assert connections[..i] == connections;
    return true;
  }

  /** The targets so far are good, each was seen once and `seen` holds them. */
  ghost predicate Wired(kinds: Kinds, kind: Kind, targets: seq<ChildSignal>, seen: set<ChildSignal>) {
    Good(kinds, kind, targets) && forall t :: t in seen <==> t in targets
  }

  lemma WiredNext(kinds: Kinds, kind: Kind, before: seq<ChildSignal>, targets: seq<ChildSignal>, j: nat,
                  seen: set<ChildSignal>)
    requires j < |targets| && Wired(kinds, kind, before + targets[..j], seen)
    ensures OfChild(kinds, kind, targets[j]) && targets[j] !in seen <==>
              Good(kinds, kind, before + targets[..j + 1])
    ensures OfChild(kinds, kind, targets[j]) && targets[j] !in seen ==>
              Wired(kinds, kind, before + targets[..j + 1], seen + {targets[j]})
  {
    hide OfChild;
    var some, more := before + targets[..j], before + targets[..j + 1];
    assert more == some + [targets[j]];
    assert more[|some|] == targets[j] && forall i :: 0 <= i < |some| ==> more[i] == some[i];
    if targets[j] in some {
      var i :| 0 <= i < |some| && some[i] == targets[j];
      assert more[i] == more[|some|];
    }
  }

  /** The targets of a type, around those of its i-th connection. */
  lemma {:induction false} TargetsAround(connections: seq<Named>, i: nat) returns (rest: seq<ChildSignal>)
    requires i < |connections|
    ensures Targets(connections) == Targets(connections[..i]) + (connections[i].connection.Targets() + rest)
    decreases |connections|
  {
    var n := |connections| - 1;
    if i == n {
      rest := [];
      assert connections[i].connection.Targets() + [] == connections[i].connection.Targets();
    } else {
      var shorter := connections[..n];
      var before := TargetsAround(shorter, i);
      assert shorter[..i] == connections[..i] && shorter[i] == connections[i];
      rest := before + connections[n].connection.Targets();
      Around(Targets(connections[..i]), connections[i].connection.Targets(), before,
             connections[n].connection.Targets());
    }
  }

  lemma Around(a: seq<ChildSignal>, b: seq<ChildSignal>, c: seq<ChildSignal>, d: seq<ChildSignal>)
    ensures a + (b + c) + d == a + (b + (c + d))
  {
  }

  /** A bad beginning of the targets of a type is enough. */
  lemma NotConnected(kinds: Kinds, kind: Kind, i: nat, j: nat)
    requires i < |kind.connections| && j <= |kind.connections[i].connection.Targets()|
    requires !Good(kinds, kind, Targets(kind.connections[..i]) + kind.connections[i].connection.Targets()[..j])
    ensures !Connects(kinds, kind)
  {
    hide Good, Once, OfChild;
    var rest := TargetsAround(kind.connections, i);
    hide Targets;
    var before, mine := Targets(kind.connections[..i]), kind.connections[i].connection.Targets();
    Resplit(before, mine, rest, j);
    GoodPrefix(kinds, kind, before + mine[..j], mine[j..] + rest);
  }

  lemma Resplit(a: seq<ChildSignal>, b: seq<ChildSignal>, c: seq<ChildSignal>, j: nat)
    requires j <= |b|
    ensures a + (b + c) == a + b[..j] + (b[j..] + c)
  {
  }

  // ---------------------------------------------------------------- presence

  /**
   An assembly's entry of a node: whether it is present, if it says so, the bus and the nets it names,
   and whether it has other members.
   */
  datatype Entry = Entry(present: Option<bool>, bus: Option<string>, nets: set<string>, more: bool)

  const NO_ENTRY := Entry(None, None, {}, false)

  datatype Problem = BoardEntry | NoSuchNode | RootUnstated | ParentAbsent | RequiredAbsent | NoSuchBus | NoSuchNet

  /** The bus and the nets an entry names are the assembly's. */
  predicate NamesKnown(e: Entry, buses: set<string>, nets: set<string>) {
    (e.bus.Some? ==> e.bus.value in buses) && e.nets <= nets
  }

  function EntryOf(entries: map<Path, Entry>, p: Path): Entry {
    if p in entries then entries[p] else NO_ENTRY
  }

  /** Whether a node is there: as its entry says, otherwise as its parent; a root must say. */
  function Present(entries: map<Path, Entry>, p: Path): bool {
    if EntryOf(entries, p).present.Some? then EntryOf(entries, p).present.value
    else if |p| <= 1 then false
    else Present(entries, p[..|p| - 1])
  }

  /** What the phase demands of one declared node. */
  predicate Stated(entries: map<Path, Entry>, required: set<Path>, p: Path) {
    var e := EntryOf(entries, p);
    if |p| <= 1 then e.present.Some?
    else
      var parent := Present(entries, p[..|p| - 1]);
      (!parent ==> e == NO_ENTRY) && (parent && p in required ==> Present(entries, p))
  }

  /**
   Presence of every declared node, parents before their children; `required` are the nodes whose
   parent type requires them.
   */
  method PresencePhase(listed: seq<Path>, entries: map<Path, Entry>, declared: seq<Path>, required: set<Path>,
                       buses: set<string>, nets: set<string>)
    returns (present: map<Path, bool>, problems: seq<Problem>)
    requires forall p :: p in listed <==> p in entries
    requires ParentsFirst(declared)
    ensures problems == [] <==>
              && (forall p :: p in entries ==> !(p != [] && p[0] == "board") && p in declared)
              && (forall p :: p in declared ==> Stated(entries, required, p))
              && (forall p :: p in entries ==> NamesKnown(entries[p], buses, nets))
    ensures Agrees(entries, declared, present)
  {
    hide Stated, Present, Agrees, ParentsFirst;
    problems := EntryProblems(listed, declared);
    assert forall j :: 0 <= j < |listed| ==> listed[j] in listed;
    ghost var known := problems == [];
    assert known <==> forall p :: p in entries ==> !(p != [] && p[0] == "board") && p in declared;
    present := map[];
    var i := 0;
    assert declared[..0] == [];
    AgreesStart(entries);
    while i < |declared|
      invariant i <= |declared|
      invariant problems == [] <==> known && forall p :: p in declared[..i] ==> Stated(entries, required, p)
      invariant Agrees(entries, declared[..i], present)
    {
      var p := declared[i];
      assert declared[..i + 1] == declared[..i] + [p];
      ParentKnown(entries, declared, i, present);
      var here, problem := OneNode(entries, p, required, if |p| > 1 then present[p[..|p| - 1]] else false);
      AgreesNext(entries, declared[..i], present, p);
      if problem.Some? {
        problems := problems + [problem.value];
      }
      present := present[p := here];
      i := i + 1;
    }
    assert declared[..i] == declared;
    var unknown := NameProblems(listed, entries, buses, nets);
    problems := problems + unknown;
  }

  /** Buses and nets that entries name and the assembly does not have. */
  method NameProblems(listed: seq<Path>, entries: map<Path, Entry>, buses: set<string>, nets: set<string>)
    returns (problems: seq<Problem>)
    requires forall p :: p in listed <==> p in entries
    ensures problems == [] <==> forall p :: p in entries ==> NamesKnown(entries[p], buses, nets)
  {
    problems := [];
    var i := 0;
    assert listed[..0] == [];
    while i < |listed|
      invariant i <= |listed|
      invariant problems == [] <==> forall p :: p in listed[..i] ==> p in entries && NamesKnown(entries[p], buses, nets)
    {
      var p := listed[i];
      assert p in listed && listed[..i + 1] == listed[..i] + [p];
      var e := entries[p];
      if e.bus.Some? && e.bus.value !in buses {
        problems := problems + [NoSuchBus];
      }
      if !(e.nets <= nets) {
        problems := problems + [NoSuchNet];
      }
      i := i + 1;
    }
    assert listed[..i] == listed;
  }

  /** Every node's parent is listed before it, as sorting by path ensures. */
  ghost predicate ParentsFirst(declared: seq<Path>) {
    forall i :: 0 <= i < |declared| && |declared[i]| > 1 ==> declared[i][..|declared[i]| - 1] in declared[..i]
  }

  lemma ParentKnown(entries: map<Path, Entry>, declared: seq<Path>, i: nat, present: map<Path, bool>)
    requires ParentsFirst(declared) && i < |declared| && Agrees(entries, declared[..i], present)
    ensures |declared[i]| > 1 ==>
              var parent := declared[i][..|declared[i]| - 1];
              parent in present && present[parent] == Present(entries, parent)
  {
    hide Present;
  }

  lemma AgreesStart(entries: map<Path, Entry>)
    ensures Agrees(entries, [], map[])
  {
  }

  lemma AgreesNext(entries: map<Path, Entry>, paths: seq<Path>, present: map<Path, bool>, p: Path)
    requires Agrees(entries, paths, present)
    ensures Agrees(entries, paths + [p], present[p := Present(entries, p)])
  {
    hide Present;
  }

  ghost predicate Agrees(entries: map<Path, Entry>, paths: seq<Path>, present: map<Path, bool>) {
    (forall p :: p in present <==> p in paths) && forall p :: p in present ==> present[p] == Present(entries, p)
  }

  /** Entries for devices of the board or for nodes that are not declared. */
  method EntryProblems(listed: seq<Path>, declared: seq<Path>) returns (problems: seq<Problem>)
    ensures problems == [] <==> forall p :: p in listed ==> !(p != [] && p[0] == "board") && p in declared
  {
    problems := [];
    var i := 0;
    assert listed[..0] == [];
    while i < |listed|
      invariant i <= |listed|
      invariant problems == [] <==> forall p :: p in listed[..i] ==> !(p != [] && p[0] == "board") && p in declared
    {
      var p := listed[i];
      assert listed[..i + 1] == listed[..i] + [p];
      if p != [] && p[0] == "board" {
        problems := problems + [BoardEntry];
      } else if p !in declared {
        problems := problems + [NoSuchNode];
      }
      i := i + 1;
    }
    assert listed[..i] == listed;
  }

  /** Whether one node is there, given its parent, and what is wrong with it. */
  method OneNode(entries: map<Path, Entry>, p: Path, required: set<Path>, parent: bool)
    returns (here: bool, problem: Option<Problem>)
    requires |p| > 1 ==> parent == Present(entries, p[..|p| - 1])
    ensures here == Present(entries, p) && (problem.None? <==> Stated(entries, required, p))
  {
    var e := EntryOf(entries, p);
    problem := None;
    if |p| <= 1 {
      if e.present.None? {
        problem := Some(RootUnstated);
      }
      here := e.present.Some? && e.present.value;
    } else {
      here := if e.present.Some? then e.present.value else parent;
      if !parent && e != NO_ENTRY {
        problem := Some(ParentAbsent);
      } else if parent && p in required && !here {
        problem := Some(RequiredAbsent);
      }
    }
  }

  // ---------------------------------------------------------------- what the signal phase relies on

  /**
   The nodes of an assembly: those the device tree declares, with their types and their presence,
   and the devices of the board, which have no children.
   */
  ghost predicate Built(kinds: Kinds, declared: map<Path, string>, entries: map<Path, Entry>, nodes: Nodes) {
    && (forall p :: p in nodes && !nodes[p].board <==> p in declared)
    && (forall p :: p in nodes ==> p != [] && (nodes[p].board <==> p[0] == "board") && (nodes[p].board ==> |p| == 2))
    && (forall p :: p in nodes ==>
          exists t :: t in kinds && OfKind(nodes[p], kinds[t]) && (p in declared ==> t == declared[p]))
    && (forall p :: p in declared ==> nodes[p].present == Present(entries, p))
    && (forall p :: p in nodes && nodes[p].board ==> nodes[p].present)
  }

  /** The node has the signals and the connections of its type. */
  ghost predicate OfKind(node: Node, kind: Kind) {
    && node.signals.Keys == kind.signals
    && (forall name :: name in node.connections ==> Named(name, node.connections[name]) in kind.connections)
    && (forall i, j :: 0 <= i < j < |kind.connections| ==> kind.connections[i].name != kind.connections[j].name)
  }

  /** Below every declared node its type's children are declared, with their types. */
  ghost predicate Unfolded(kinds: Kinds, declared: map<Path, string>) {
    forall p :: p in declared ==>
      declared[p] in kinds &&
      forall name :: TypeGraph.ChildType(kinds[declared[p]].children, name).Some? ==>
        p + [name] in declared && declared[p + [name]] == TypeGraph.ChildType(kinds[declared[p]].children, name).value
  }

  lemma {:induction false} TypeAtChild(c: TypeGraph.Catalogue, t: string, names: seq<string>, name: string)
    requires TypeGraph.TypeAt(c, t, names).Some? && TypeGraph.TypeAt(c, t, names).value in c
    requires TypeGraph.ChildType(c[TypeGraph.TypeAt(c, t, names).value], name).Some?
    requires TypeGraph.ChildType(c[TypeGraph.TypeAt(c, t, names).value], name).value in c
    ensures TypeGraph.TypeAt(c, t, names + [name]) == TypeGraph.ChildType(c[TypeGraph.TypeAt(c, t, names).value], name)
    decreases |names|
  {
    var all := names + [name];
    if names == [] {
      assert all[1..] == [];
    } else {
      var child := TypeGraph.ChildType(c[t], names[0]).value;
      assert all[1..] == names[1..] + [name];
      TypeAtChild(c, child, names[1..], name);
    }
  }

  lemma {:induction false} TypeAtKnown(c: TypeGraph.Catalogue, t: string, names: seq<string>)
    requires TypeGraph.TypeAt(c, t, names).Some?
    ensures TypeGraph.TypeAt(c, t, names).value in c
    decreases |names|
  {
    if names != [] {
      TypeAtKnown(c, TypeGraph.ChildType(c[t], names[0]).value, names[1..]);
    }
  }

  /** The expansion of a device tree is unfolded. */
  lemma DeclaredUnfolds(kinds: Kinds, roots: seq<TypeGraph.Declared>, declared: map<Path, string>)
    requires TypeGraph.Checked(Graph(kinds)) && TypeGraph.Declares(Graph(kinds), roots, declared)
    ensures Unfolded(kinds, declared)
  {
    forall p | p in declared
      ensures declared[p] in kinds
      ensures forall name :: TypeGraph.ChildType(kinds[declared[p]].children, name).Some? ==>
                p + [name] in declared
                  && declared[p + [name]] == TypeGraph.ChildType(kinds[declared[p]].children, name).value
    {
      DeclaredKind(kinds, roots, declared, p);
      forall name | TypeGraph.ChildType(kinds[declared[p]].children, name).Some?
        ensures p + [name] in declared
        ensures declared[p + [name]] == TypeGraph.ChildType(kinds[declared[p]].children, name).value
      {
        DeclaredChild(kinds, roots, declared, p, name);
      }
    }
  }

  lemma DeclaredKind(kinds: Kinds, roots: seq<TypeGraph.Declared>, declared: map<Path, string>, p: Path)
    requires TypeGraph.Declares(Graph(kinds), roots, declared) && p in declared
    ensures declared[p] in kinds
    ensures exists k :: 0 <= k < |roots| && [roots[k].name] <= p
                        && TypeGraph.TypeAt(Graph(kinds), roots[k].compatible, p[1..]) == Some(declared[p])
  {
    var c := Graph(kinds);
    var k :| 0 <= k < |roots| && TypeGraph.Below(c, roots[k].compatible, [roots[k].name], p);
    assert TypeGraph.TypeAt(c, roots[k].compatible, p[1..]) == Some(declared[p]);
    TypeAtKnown(c, roots[k].compatible, p[1..]);
  }

  lemma DeclaredChild(kinds: Kinds, roots: seq<TypeGraph.Declared>, declared: map<Path, string>, p: Path, name: string)
    requires TypeGraph.Checked(Graph(kinds)) && TypeGraph.Declares(Graph(kinds), roots, declared)
    requires p in declared && declared[p] in kinds && TypeGraph.ChildType(kinds[declared[p]].children, name).Some?
    ensures p + [name] in declared
    ensures declared[p + [name]] == TypeGraph.ChildType(kinds[declared[p]].children, name).value
  {
    hide TypeGraph.ChildType, TypeGraph.TypeAt, TypeGraph.Checked, TypeGraph.Declares, TypeGraph.Below, Graph;
    DeclaredKind(kinds, roots, declared, p);
    var k :| 0 <= k < |roots| && [roots[k].name] <= p
             && TypeGraph.TypeAt(Graph(kinds), roots[k].compatible, p[1..]) == Some(declared[p]);
    ChildTypeAt(kinds, roots[k].compatible, p[1..], declared[p], name);
    assert (p + [name])[1..] == p[1..] + [name];
    assert [roots[k].name] <= p + [name];
    DeclaresBelow(Graph(kinds), roots, declared, k, p + [name]);
  }

  lemma DeclaresBelow(c: TypeGraph.Catalogue, roots: seq<TypeGraph.Declared>, declared: map<Path, string>, k: nat,
                      q: Path)
    requires TypeGraph.Declares(c, roots, declared) && k < |roots| && [roots[k].name] <= q
    requires TypeGraph.TypeAt(c, roots[k].compatible, q[1..]).Some?
    ensures q in declared && TypeGraph.TypeAt(c, roots[k].compatible, q[1..]) == Some(declared[q])
  {
    hide TypeGraph.TypeAt;
    assert TypeGraph.Below(c, roots[k].compatible, [roots[k].name], q);
  }

  lemma ChildTypeAt(kinds: Kinds, root: string, names: seq<string>, t: string, name: string)
    requires TypeGraph.Checked(Graph(kinds)) && TypeGraph.TypeAt(Graph(kinds), root, names) == Some(t) && t in kinds
    requires TypeGraph.ChildType(kinds[t].children, name).Some?
    ensures TypeGraph.TypeAt(Graph(kinds), root, names + [name]) == TypeGraph.ChildType(kinds[t].children, name)
  {
    var c := Graph(kinds);
    var children := c[t];
    var child := TypeGraph.ChildType(children, name).value;
    hide TypeGraph.TypeAt, TypeGraph.ChildType;
    var i :| 0 <= i < |children| && children[i] == TypeGraph.Declared(name, child);
    assert children[i].compatible in c;
    TypeAtChild(c, root, names, name);
  }

  lemma {:induction false} TargetsHave(connections: seq<Named>, i: nat, t: ChildSignal)
    requires i < |connections| && t in connections[i].connection.Targets()
    ensures t in Targets(connections)
  {
    var rest := TargetsAround(connections, i);
  }

  lemma OnceSplits(a: seq<ChildSignal>, b: seq<ChildSignal>, t: ChildSignal)
    requires Once(a + b) && t in a
    ensures t !in b
  {
    var i :| 0 <= i < |a| && a[i] == t;
    assert forall j :: 0 <= j < |b| ==> (a + b)[|a| + j] == b[j];
    assert (a + b)[i] == t;
  }

  /** In a type that passed, one child signal is wired by one connection. */
  lemma WiredByOne(connections: seq<Named>, i: nat, j: nat, t: ChildSignal)
    requires Once(Targets(connections)) && i < j < |connections| && t in connections[i].connection.Targets()
    ensures t !in connections[j].connection.Targets()
  {
    var before := connections[..j];
    assert before[i] == connections[i];
    TargetsHave(before, i, t);
    var rest := TargetsAround(connections, j);
    hide Targets, Once, Connection.Targets;
    var some, mine := Targets(before), connections[j].connection.Targets();
    OnceSplits(some, mine + rest, t);
    assert t in mine ==> t in mine + rest;
  }

  /** The type of a node. */
  lemma KindOf(kinds: Kinds, declared: map<Path, string>, entries: map<Path, Entry>, nodes: Nodes, p: Path)
    returns (t: string)
    requires Built(kinds, declared, entries, nodes) && p in nodes
    ensures t in kinds && OfKind(nodes[p], kinds[t]) && (p in declared ==> t == declared[p])
    ensures p in declared <==> !nodes[p].board
  {
    hide Present, OfKind;
    t :| t in kinds && OfKind(nodes[p], kinds[t]) && (p in declared ==> t == declared[p]);
  }

  /** The connection of a type that a connection of its node is. */
  lemma NamedConnection(node: Node, kind: Kind, name: string) returns (i: nat)
    requires OfKind(node, kind) && name in node.connections
    ensures i < |kind.connections| && kind.connections[i] == Named(name, node.connections[name])
  {
    i :| 0 <= i < |kind.connections| && kind.connections[i] == Named(name, node.connections[name]);
  }

  /** A checked catalogue and a device tree without presence problems are what the signal phase needs. */
  lemma SignalPhaseReady(kinds: Kinds, declared: map<Path, string>, entries: map<Path, Entry>, required: set<Path>,
                         nodes: Nodes)
    requires forall t :: t in kinds ==> Connects(kinds, kinds[t])
    requires Unfolded(kinds, declared) && Built(kinds, declared, entries, nodes)
    requires forall p :: p in declared ==> Stated(entries, required, p)
    ensures Checked(nodes) && PresenceChecked(nodes)
  {
    hide Connects, Unfolded, Stated, Present, OfChild, OfKind, PresenceChecked, Built;
    forall m, k | Wires(nodes, m, k) && !nodes[m.path].board ensures k.path in nodes
                  && k.name in nodes[k.path].signals {
      WiresDeclared(kinds, declared, entries, nodes, m, k);
    }
    forall m, m', k | Wires(nodes, m, k) && Wires(nodes, m', k) ensures m == m' {
      WiresOnce(kinds, declared, entries, nodes, m, m', k);
    }
    forall p, name | p in nodes && name in nodes[p].connections ensures name in nodes[p].signals {
      ConnectionNamed(kinds, declared, entries, nodes, p, name);
    }
    WiresWithin(kinds, declared, entries, required, nodes);
  }

  lemma WiresWithin(kinds: Kinds, declared: map<Path, string>, entries: map<Path, Entry>, required: set<Path>,
                    nodes: Nodes)
    requires Built(kinds, declared, entries, nodes) && forall p :: p in declared ==> Stated(entries, required, p)
    ensures forall m, k :: Wires(nodes, m, k) && k.path in nodes ==> (nodes[m.path].board <==> nodes[k.path].board)
    ensures PresenceChecked(nodes)
  {
    hide Stated, Present, OfKind;
    forall m, k | Wires(nodes, m, k) && k.path in nodes
      ensures (nodes[m.path].board <==> nodes[k.path].board) && (nodes[k.path].present ==> nodes[m.path].present)
    {
      assert k.path[0] == k.path[..|m.path|][0] == m.path[0];
      assert k.path[..|k.path| - 1] == m.path;
      if !nodes[m.path].board && nodes[k.path].present {
        ChildStated(entries, required, k.path);
      }
    }
  }

  lemma ChildStated(entries: map<Path, Entry>, required: set<Path>, p: Path)
    requires |p| > 1 && Stated(entries, required, p) && Present(entries, p)
    ensures Present(entries, p[..|p| - 1])
  {
  }

  lemma ConnectionNamed(kinds: Kinds, declared: map<Path, string>, entries: map<Path, Entry>, nodes: Nodes, p: Path,
                        name: string)
    requires forall t :: t in kinds ==> Connects(kinds, kinds[t])
    requires Built(kinds, declared, entries, nodes) && p in nodes && name in nodes[p].connections
    ensures name in nodes[p].signals
  {
    hide Good, Built;
    var t := KindOf(kinds, declared, entries, nodes, p);
    assert Connects(kinds, kinds[t]);
    var i := NamedConnection(nodes[p], kinds[t], name);
  }

  lemma WiresOnce(kinds: Kinds, declared: map<Path, string>, entries: map<Path, Entry>, nodes: Nodes, m: Signal,
                  m': Signal, k: Signal)
    requires forall t :: t in kinds ==> Connects(kinds, kinds[t])
    requires Built(kinds, declared, entries, nodes) && Wires(nodes, m, k) && Wires(nodes, m', k)
    ensures m == m'
  {
    hide Built, OfKind, OfChild;
    assert m.path == m'.path;
    var t := KindOf(kinds, declared, entries, nodes, m.path);
    var connections := kinds[t].connections;
    assert Once(Targets(connections)) by { assert Connects(kinds, kinds[t]); }
    hide Connects, Once;
    var i := NamedConnection(nodes[m.path], kinds[t], m.name);
    var j := NamedConnection(nodes[m.path], kinds[t], m'.name);
    var target := ChildSignal(k.path[|m.path|], k.name);
    if i < j {
      WiredByOne(connections, i, j, target);
    } else if j < i {
      WiredByOne(connections, j, i, target);
    }
  }

  lemma WiresDeclared(kinds: Kinds, declared: map<Path, string>, entries: map<Path, Entry>, nodes: Nodes, m: Signal,
                      k: Signal)
    requires forall t :: t in kinds ==> Connects(kinds, kinds[t])
    requires Unfolded(kinds, declared) && Built(kinds, declared, entries, nodes)
    requires Wires(nodes, m, k) && !nodes[m.path].board
    ensures k.path in nodes && k.name in nodes[k.path].signals
  {
    hide Once;
    DeclaredNode(kinds, declared, entries, nodes);
    hide Built;
    var t := KindOf(kinds, declared, entries, nodes, m.path);
    var kind := kinds[t];
    var i := NamedConnection(nodes[m.path], kind, m.name);
    var target := ChildSignal(k.path[|m.path|], k.name);
    TargetsHave(kind.connections, i, target);
    assert OfChild(kinds, kind, target) by { assert Connects(kinds, kind); }
    hide Connects;
    var child := TypeGraph.ChildType(kind.children, target.child).value;
    assert k.path == m.path + [target.child];
    assert k.path in declared && declared[k.path] == child;
    var u := KindOf(kinds, declared, entries, nodes, k.path);
  }

  lemma DeclaredNode(kinds: Kinds, declared: map<Path, string>, entries: map<Path, Entry>, nodes: Nodes)
    requires Built(kinds, declared, entries, nodes)
    ensures forall p :: p in declared ==> p in nodes
  {
    hide Present, OfKind;
  }
}
