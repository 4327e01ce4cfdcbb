/**
 Signals of the nodes of one assembly and the module connections between them.

 A module's connection wires signals of its children to one of its own signals; one of the child
 signals is its owner, the others are aliases. Where a pin is given for the module's signal, every
 signal connected to it gets that pin, and the owner is found by following owners down to a leaf.
 */
module DeviceSignals {
  import opened Outcomes

  type Path = seq<string>

  datatype Signal = Signal(path: Path, name: string)

  datatype Endpoint =
    | Soc(pin: string)
    | DevicePin(node: Path, index: nat)
    | BoardPin(domain: string, component: string, id: string)

  /** A pin as an assembly gives it: null, a bare GPIO, an explicit endpoint or a net. */
  datatype PinValue = Unconnected | Gpio(pin: string) | At(endpoint: Endpoint) | OnNet(net: string)

  datatype ChildSignal = ChildSignal(child: string, signal: string)

  datatype Connection = Connection(owner: ChildSignal, aliases: seq<ChildSignal>) {
    /** The owner and the aliases, all wired to the module's signal. */
    function Targets(): seq<ChildSignal> { [owner] + aliases }
  }

  datatype Node = Node(
    present: bool,
    board: bool,
    pins: map<string, PinValue>,          // the pins its assembly entry gives
    signals: map<string, bool>,           // declared signals, and whether each is required
    inactive: set<string>,                // signals whose condition does not hold
    connections: map<string, Connection>, // module signals and the child signals they wire
    domains: map<string, set<string>>,    // the endpoint domains each signal takes
    pinCount: Option<nat>,                // how many device pins the node provides
    outputs: set<string>,                 // signals that are not inputs
    activeLow: Option<bool>,              // the level its outputs are active at, if it has one
    zeroIsDefault: set<string>)           // signals for which the HAL takes pin 0 as the default pin

  type Nodes = map<Path, Node>

  datatype Code =
    | PinConflict | PinRange | Reservation | Presence | NetOwner | Property
    | Transport | ControllerUse | AddressUse | Lookup

  // ---------------------------------------------------------------- what earlier phases ensure

  /** The module signal m wires the signal k. */
  ghost predicate Wires(nodes: Nodes, m: Signal, k: Signal) {
    && m.path in nodes && m.name in nodes[m.path].connections
    && |k.path| == |m.path| + 1 && k.path[..|m.path|] == m.path
    && ChildSignal(k.path[|m.path|], k.name) in nodes[m.path].connections[m.name].Targets()
  }

  /** The catalogue check: within one type a child signal is wired once, and children exist. */
  ghost predicate Checked(nodes: Nodes) {
    && (forall m, m', k :: Wires(nodes, m, k) && Wires(nodes, m', k) ==> m == m')
    && (forall m, k :: Wires(nodes, m, k) && !nodes[m.path].board ==>
          k.path in nodes && k.name in nodes[k.path].signals)
    && (forall p :: p in nodes ==> forall name :: name in nodes[p].connections ==> name in nodes[p].signals)
    && (forall m, k :: Wires(nodes, m, k) && k.path in nodes ==> (nodes[m.path].board <==> nodes[k.path].board))
  }

  /** The presence phase: a child is present only below a present parent. */
  ghost predicate PresenceChecked(nodes: Nodes) {
    forall m, k :: Wires(nodes, m, k) && k.path in nodes && nodes[k.path].present ==> nodes[m.path].present
  }

  // ---------------------------------------------------------------- specification

  /** The child signal that owns a module signal. */
  ghost function OwnerBelow(nodes: Nodes, m: Signal): Option<Signal> {
    if m.path in nodes && m.name in nodes[m.path].connections then
      var owner := nodes[m.path].connections[m.name].owner;
      Some(Signal(m.path + [owner.child], owner.signal))
    else None
  }

  /** A bound on the depth of the tree. */
  ghost function Depth(nodes: Nodes): (d: nat)
    ensures forall p :: p in nodes ==> |p| <= d
    decreases |nodes|
  {
    if nodes == map[] then 0
    else
      var p :| p in nodes;
      var d := Depth(nodes - {p});
      assert forall q :: q in nodes ==> q == p || q in nodes - {p};
      if |p| > d then |p| else d
  }

  /** The leaf that drives a signal: owners followed down as far as they go. */
  ghost function Leaf(nodes: Nodes, k: Signal): (l: Signal)
    ensures OwnerBelow(nodes, l).None?
    decreases Depth(nodes) + 1 - |k.path|
  {
    var below := OwnerBelow(nodes, k);
    if below.None? then k else Leaf(nodes, below.value)
  }

  /** The module signal that wires a signal. */
  ghost function Above(nodes: Nodes, k: Signal): (r: Option<Signal>)
    ensures r.Some? ==> Wires(nodes, r.value, k) && |r.value.path| < |k.path|
    ensures r.None? ==> forall m :: !Wires(nodes, m, k)
  {
    if m :| Wires(nodes, m, k) then Some(m) else None
  }

  /** Where a signal gets its pin: its own entry, or that of the module signal above it. */
  ghost function Source(nodes: Nodes, k: Signal): (r: Option<Signal>)
    ensures r.Some? ==> r.value.path in nodes && r.value.name in nodes[r.value.path].pins
    decreases |k.path|
  {
    if k.path !in nodes then None
    else if k.name in nodes[k.path].pins then Some(k)
    else
      var m := Above(nodes, k);
      if m.None? then None else Source(nodes, m.value)
  }

  datatype Assignment = Assignment(value: PinValue, site: Option<Signal>, owner: Signal)

  /** The assignment of everything that gets its pin from one site. */
  ghost function FromSite(nodes: Nodes, site: Signal): Assignment
    requires site.path in nodes && site.name in nodes[site.path].pins
  {
    Assignment(nodes[site.path].pins[site.name], Some(site), Leaf(nodes, site))
  }

  // ---------------------------------------------------------------- the phase

  class SignalPhase {
    const nodes: Nodes
    var connected: map<Signal, Signal>    // child signal to the module signal wiring it
    var moduleOwner: map<Signal, Signal>  // module signal to its owner below
    var pins: map<Signal, Assignment>
    var errors: seq<Code>

    constructor (nodes: Nodes)
      ensures this.nodes == nodes && connected == map[] && moduleOwner == map[] && pins == map[] && errors == []
    {
      this.nodes := nodes;
      connected, moduleOwner, pins, errors := map[], map[], map[], [];
    }

    /** The two dictionaries say what the connections of these module signals say. */
    ghost predicate Linked(done: iset<Signal>)
      reads this
    {
      Upwards(nodes, connected, done) && Downwards(nodes, moduleOwner, done)
    }

    /** Fills the dictionaries from the connections of every node. */
    method Connect(paths: seq<Path>)
      requires Checked(nodes) && (forall p :: p in nodes <==> p in paths)
      requires connected == map[] && moduleOwner == map[]
      modifies this`connected, this`moduleOwner
      ensures Linked(Modules(nodes, nodes.Keys))
    {
      hide Checked, Upwards, Downwards, Modules, ModulesAt;
      LinkedStart(nodes);
      var i := 0;
      assert paths[..0] == [] && PathSet([]) == {};
      while i < |paths|
        invariant i <= |paths|
        invariant Linked(Modules(nodes, PathSet(paths[..i])))
      {
        var path := paths[i];
        assert path in paths;
        ConnectNode(path, Modules(nodes, PathSet(paths[..i])));
        ModulesNext(nodes, paths, i);
        i := i + 1;
      }
      assert paths[..i] == paths;
      assert PathSet(paths) == nodes.Keys;
    }

    method ConnectNode(path: Path, ghost before: iset<Signal>)
      requires Checked(nodes) && path in nodes && Linked(before)
      modifies this`connected, this`moduleOwner
      ensures Linked(before + ModulesAt(nodes, path, nodes[path].connections.Keys))
    {
      hide Checked, Upwards, Downwards;
      ghost var all := nodes[path].connections.Keys;
      var names := nodes[path].connections.Keys;
      assert before + ModulesAt(nodes, path, all - names) == before;
      while names != {}
        invariant names <= all
        invariant Linked(before + ModulesAt(nodes, path, all - names))
        decreases names
      {
        var name :| name in names;
        ghost var done := before + ModulesAt(nodes, path, all - names);
        ConnectOne(Signal(path, name), done);
        names := names - {name};
        assert done + iset{Signal(path, name)} == before + ModulesAt(nodes, path, all - names);
      }
      assert all - names == all;
    }

    /** One connection: the owner of the module signal, and every signal it wires. */
    method ConnectOne(m: Signal, ghost done: iset<Signal>)
      requires Checked(nodes) && m.path in nodes && m.name in nodes[m.path].connections && Linked(done)
      modifies this`connected, this`moduleOwner
      ensures Linked(done + iset{m})
    {
      hide Checked, Upwards, Downwards, PartUpwards;
      var connection := nodes[m.path].connections[m.name];
      DownwardsNext(nodes, moduleOwner, done, m);
      moduleOwner := moduleOwner[m := Signal(m.path + [connection.owner.child], connection.owner.signal)];
      var targets := connection.Targets();
      ghost var owners := moduleOwner;
      var j := 0;
      PartStart(nodes, connected, done, m, targets);
      while j < |targets|
        invariant j <= |targets| && moduleOwner == owners && PartUpwards(nodes, connected, done, m, targets[..j])
      {
        PartNext(nodes, connected, done, m, targets, j);
        connected := connected[Signal(m.path + [targets[j].child], targets[j].signal) := m];
        j := j + 1;
      }
      assert targets[..j] == targets;
      PartEnd(nodes, connected, done, m);
    }

    /** The owner of a site, found by following module owners down. */
    method OwnerOf(key: Signal) returns (owner: Signal)
      requires Linked(Modules(nodes, nodes.Keys))
      ensures owner == Leaf(nodes, key)
    {
      owner := key;
      while owner in moduleOwner
        invariant Leaf(nodes, owner) == Leaf(nodes, key)
        decreases Depth(nodes) + 1 - |owner.path|
      {
        owner := moduleOwner[owner];
      }
    }

    /** Where a signal gets its pin: directly or through its module. */
    method AssignmentOf(key: Signal) returns (a: Option<Assignment>)
      requires Checked(nodes) && Linked(Modules(nodes, nodes.Keys)) && key.path in nodes
      ensures a == var s := Source(nodes, key); if s.None? then None else Some(FromSite(nodes, s.value))
      decreases |key.path|
    {
      var entry := nodes[key.path].pins;
      if key.name in entry {
        var owner := OwnerOf(key);
        return Some(Assignment(entry[key.name], Some(key), owner));
      }
      if key in connected {
        AboveIs(nodes, connected[key], key);
        a := AssignmentOf(connected[key]);
        return;
      }
      assert Above(nodes, key).None?;
      return None;
    }

    lemma ConnectedIs(key: Signal)
      requires Linked(Modules(nodes, nodes.Keys))
      ensures key in connected <==> Above(nodes, key).Some?
    {
      if key in connected {
        assert Wires(nodes, connected[key], key);
      }
      if Above(nodes, key).Some? {
        var m := Above(nodes, key).value;
        assert m in Modules(nodes, nodes.Keys) && Wires(nodes, m, key);
      }
    }

    /** One signal of a present node of the project. */
    method One(key: Signal)
      requires Checked(nodes) && Linked(Modules(nodes, nodes.Keys)) && Processed(nodes, key)
      modifies this`pins, this`errors
      ensures errors == old(errors) + Listed(Report(nodes, key))
      ensures Report(nodes, key) != Some(NetOwner) ==> pins == old(pins)[key := Assigned(nodes, key)]
      ensures Report(nodes, key) == Some(NetOwner) ==> pins == old(pins)
    {
      hide Checked, Linked, Source, FromSite, Wires, Modules;
      ConnectedIs(key);
      assert errors + [] == errors;
      var node := nodes[key.path];
      if key in connected && key.name in node.pins {
        errors := errors + [NetOwner];
        return;
      }
      var a := AssignmentOf(key);
      if key.name in node.inactive {
        if a.Some? && a.value.value != Unconnected {
          errors := errors + [Property];
        }
        pins := pins[key := Assignment(Unconnected, None, key)];
        return;
      }
      if a.None? && node.signals[key.name] {
        errors := errors + [Property];
      }
      pins := pins[key := if a.None? then Assignment(Unconnected, None, key) else a.value];
    }

    /** The whole phase: connections, then every signal of every present node of the project. */
    method Run(paths: seq<Path>, keys: seq<Signal>)
      requires Checked(nodes) && (forall p :: p in nodes <==> p in paths)
      requires forall k :: k in keys <==> Processed(nodes, k)
      requires connected == map[] && moduleOwner == map[] && pins == map[] && errors == []
      modifies this
      ensures errors == [] <==> Clean(nodes) && Known(nodes)
      ensures errors == [] ==> forall k :: k in pins <==> Processed(nodes, k)
      ensures errors == [] ==> forall k :: k in pins ==> Processed(nodes, k) && pins[k] == Assigned(nodes, k)
    {
      hide Checked, Upwards, Downwards, Assigns, Clean, Modules;
      Connect(paths);
      var i := 0;
      assert keys[..0] == [];
      AssignsStart(nodes);
      while i < |keys|
        invariant i <= |keys| && Linked(Modules(nodes, nodes.Keys))
        invariant Assigns(nodes, keys[..i], errors, pins)
      {
        assert keys[i] in keys;
        assert keys[..i + 1] == keys[..i] + [keys[i]];
        ghost var before, were := pins, errors;
        One(keys[i]);
        AssignsNext(nodes, keys[..i], keys[i], were, before, errors, pins);
        i := i + 1;
      }
      assert keys[..i] == keys;
      AssignsAll(nodes, keys, errors, pins);
      var unknown := UnknownPins(paths);
      errors := errors + unknown;
    }

    /** One problem for every pin of a present project node that its type has no signal for. */
    method UnknownPins(paths: seq<Path>) returns (problems: seq<Code>)
      requires forall p :: p in nodes <==> p in paths
      ensures problems == [] <==> Known(nodes)
    {
      problems := [];
      var i := 0;
      while i < |paths|
        invariant i <= |paths|
        invariant problems == [] <==> forall j :: 0 <= j < i ==> KnownAt(nodes, paths[j])
      {
        assert paths[i] in paths;
        var node := nodes[paths[i]];
        var unknown := if node.present && !node.board then node.pins.Keys - node.signals.Keys else {};
        NothingLeft(node.pins.Keys, node.signals.Keys);
        assert unknown == {} <==> KnownAt(nodes, paths[i]);
        if unknown != {} {
          problems := problems + [Property];
        }
        i := i + 1;
      }
      assert forall j :: 0 <= j < |paths| ==> paths[j] in nodes;
    }
  }

  lemma NothingLeft(a: set<string>, b: set<string>)
    ensures a - b == {} <==> a <= b
  {
    assert forall x :: x in a - b <==> x in a && x !in b;
  }

  ghost predicate KnownAt(nodes: Nodes, path: Path) {
    path in nodes && nodes[path].present && !nodes[path].board ==> nodes[path].pins.Keys <= nodes[path].signals.Keys
  }

  /** Every pin an assembly gives belongs to a signal of its node. */
  ghost predicate Known(nodes: Nodes) {
    forall p :: p in nodes ==> KnownAt(nodes, p)
  }

  /** What the phase did with these signals. */
  ghost predicate Assigns(nodes: Nodes, keys: seq<Signal>, errors: seq<Code>, pins: map<Signal, Assignment>) {
    && (forall k :: k in keys ==> Processed(nodes, k))
    && (errors == [] <==> forall k :: k in keys ==> Report(nodes, k).None?)
    && (errors == [] ==> forall k :: k in pins <==> k in keys)
    && (errors == [] ==> forall k :: k in pins ==> pins[k] == Assigned(nodes, k))
  }

  lemma AssignsStart(nodes: Nodes)
    ensures Assigns(nodes, [], [], map[])
  {
  }

  lemma AssignsNext(nodes: Nodes, keys: seq<Signal>, key: Signal, e0: seq<Code>, p0: map<Signal, Assignment>,
                    e1: seq<Code>, p1: map<Signal, Assignment>)
    requires Assigns(nodes, keys, e0, p0) && Processed(nodes, key)
    requires e1 == e0 + Listed(Report(nodes, key))
    requires Report(nodes, key) != Some(NetOwner) ==> p1 == p0[key := Assigned(nodes, key)]
    ensures Assigns(nodes, keys + [key], e1, p1)
  {
    hide Report, Assigned, Processed;
    assert forall k :: k in keys + [key] <==> k in keys || k == key;
  }

  lemma AssignsAll(nodes: Nodes, keys: seq<Signal>, errors: seq<Code>, pins: map<Signal, Assignment>)
    requires Assigns(nodes, keys, errors, pins) && forall k :: k in keys <==> Processed(nodes, k)
    ensures errors == [] <==> Clean(nodes)
    ensures errors == [] ==> forall k :: k in pins <==> Processed(nodes, k)
    ensures errors == [] ==> forall k :: k in pins ==> Processed(nodes, k) && pins[k] == Assigned(nodes, k)
  {
    hide Report, Assigned, Processed;
  }

  /** A signal the phase looks at: of a present node of the project. */
  ghost predicate Processed(nodes: Nodes, k: Signal) {
    k.path in nodes && nodes[k.path].present && !nodes[k.path].board && k.name in nodes[k.path].signals
  }

  /** The phase has nothing to report. */
  ghost predicate Clean(nodes: Nodes) {
    forall k :: Processed(nodes, k) ==> Report(nodes, k).None?
  }

  ghost function Listed(r: Option<Code>): seq<Code> {
    if r.None? then [] else [r.value]
  }

  /** What is wrong with one signal, if anything. */
  ghost function Report(nodes: Nodes, key: Signal): Option<Code>
    requires Processed(nodes, key)
  {
    var node := nodes[key.path];
    var source := Source(nodes, key);
    if Above(nodes, key).Some? && key.name in node.pins then Some(NetOwner)
    else if key.name in node.inactive then
      if source.Some? && FromSite(nodes, source.value).value != Unconnected then Some(Property) else None
    else if source.None? && node.signals[key.name] then Some(Property)
    else None
  }

  /** The assignment a signal gets. */
  ghost function Assigned(nodes: Nodes, key: Signal): Assignment
    requires Processed(nodes, key)
  {
    var source := Source(nodes, key);
    if key.name in nodes[key.path].inactive || source.None? then Assignment(Unconnected, None, key)
    else FromSite(nodes, source.value)
  }

  /** The module signals of one node with these names. */
  ghost function ModulesAt(nodes: Nodes, path: Path, names: set<string>): iset<Signal> {
    iset m: Signal | m.path == path && m.name in names
  }

  /** The module signals of these nodes. */
  ghost function Modules(nodes: Nodes, paths: set<Path>): iset<Signal> {
    iset m: Signal | m.path in paths && m.path in nodes && m.name in nodes[m.path].connections
  }

  ghost function PathSet(paths: seq<Path>): set<Path> {
    set p | p in paths
  }

  lemma LinkedStart(nodes: Nodes)
    ensures Modules(nodes, {}) == iset{}
    ensures Upwards(nodes, map[], iset{}) && Downwards(nodes, map[], iset{})
  {
  }

  lemma ModulesNext(nodes: Nodes, paths: seq<Path>, i: nat)
    requires i < |paths| && paths[i] in nodes
    ensures Modules(nodes, PathSet(paths[..i + 1])) ==
            Modules(nodes, PathSet(paths[..i])) + ModulesAt(nodes, paths[i], nodes[paths[i]].connections.Keys)
  {
    assert paths[..i + 1] == paths[..i] + [paths[i]];
  }

  /** k is wired to m by one of these targets. */
  ghost predicate TargetIn(m: Signal, targets: seq<ChildSignal>, k: Signal) {
    && |k.path| == |m.path| + 1 && k.path[..|m.path|] == m.path
    && ChildSignal(k.path[|m.path|], k.name) in targets
  }

  /** The dictionary from child signals up to the module signals wiring them. */
  ghost predicate Upwards(nodes: Nodes, connected: map<Signal, Signal>, done: iset<Signal>) {
    forall k, m :: k in connected && connected[k] == m <==> m in done && Wires(nodes, m, k)
  }

  /** The dictionary from module signals down to their owners. */
  ghost predicate Downwards(nodes: Nodes, owners: map<Signal, Signal>, done: iset<Signal>) {
    && (forall m :: m in owners <==> m in done && OwnerBelow(nodes, m).Some?)
    && (forall m :: m in owners ==> OwnerBelow(nodes, m) == Some(owners[m]))
  }

  lemma DownwardsNext(nodes: Nodes, owners: map<Signal, Signal>, done: iset<Signal>, m: Signal)
    requires Downwards(nodes, owners, done) && OwnerBelow(nodes, m).Some?
    ensures Downwards(nodes, owners[m := OwnerBelow(nodes, m).value], done + iset{m})
  {
    hide OwnerBelow;
  }

  /** The upward dictionary with some targets of m added. */
  ghost predicate PartUpwards(nodes: Nodes, connected: map<Signal, Signal>, done: iset<Signal>, m: Signal,
                              targets: seq<ChildSignal>) {
    forall k, n :: k in connected && connected[k] == n <==>
      (n in done && Wires(nodes, n, k)) || (n == m && TargetIn(m, targets, k))
  }

  lemma PartStart(nodes: Nodes, connected: map<Signal, Signal>, done: iset<Signal>, m: Signal,
                  targets: seq<ChildSignal>)
    requires Upwards(nodes, connected, done)
    ensures PartUpwards(nodes, connected, done, m, targets[..0])
  {
    hide Wires;
    assert targets[..0] == [];
    assert forall k :: !TargetIn(m, targets[..0], k);
    forall k, n ensures k in connected && connected[k] == n <==>
      (n in done && Wires(nodes, n, k)) || (n == m && TargetIn(m, targets[..0], k))
    {
    }
  }

  lemma PartNext(nodes: Nodes, connected: map<Signal, Signal>, done: iset<Signal>, m: Signal,
                 targets: seq<ChildSignal>, j: nat)
    requires Checked(nodes) && m.path in nodes && m.name in nodes[m.path].connections && j < |targets|
    requires targets == nodes[m.path].connections[m.name].Targets()
    requires PartUpwards(nodes, connected, done, m, targets[..j])
    ensures var key := Signal(m.path + [targets[j].child], targets[j].signal);
            PartUpwards(nodes, connected[key := m], done, m, targets[..j + 1])
  {
    var key := Signal(m.path + [targets[j].child], targets[j].signal);
    TargetNext(nodes, m, targets, j, key);
    hide Wires, TargetIn, Checked;
    var after := connected[key := m];
    forall k, n ensures k in after && after[k] == n <==>
      (n in done && Wires(nodes, n, k)) || (n == m && TargetIn(m, targets[..j + 1], k))
    {
      if k != key {
        assert k in after && after[k] == n <==> k in connected && connected[k] == n;
      }
    }
  }

  lemma PartEnd(nodes: Nodes, connected: map<Signal, Signal>, done: iset<Signal>, m: Signal)
    requires m.path in nodes && m.name in nodes[m.path].connections
    requires PartUpwards(nodes, connected, done, m, nodes[m.path].connections[m.name].Targets())
    ensures Upwards(nodes, connected, done + iset{m})
  {
    assert forall k :: TargetIn(m, nodes[m.path].connections[m.name].Targets(), k) <==> Wires(nodes, m, k);
    hide Wires, TargetIn;
    forall k, n ensures k in connected && connected[k] == n <==> n in done + iset{m} && Wires(nodes, n, k) {
    }
  }

  lemma TargetNext(nodes: Nodes, m: Signal, targets: seq<ChildSignal>, j: nat, key: Signal)
    requires Checked(nodes) && m.path in nodes && m.name in nodes[m.path].connections && j < |targets|
    requires targets == nodes[m.path].connections[m.name].Targets()
    requires key == Signal(m.path + [targets[j].child], targets[j].signal)
    ensures Wires(nodes, m, key) && (forall n :: Wires(nodes, n, key) ==> n == m)
    ensures forall k :: TargetIn(m, targets[..j + 1], k) <==> TargetIn(m, targets[..j], k) || k == key
  {
    assert targets[..j + 1] == targets[..j] + [targets[j]];
    assert key.path[..|m.path|] == m.path && key.path[|m.path|] == targets[j].child;
    assert Wires(nodes, m, key);
    forall n | Wires(nodes, n, key) ensures n == m {
    }
    forall k ensures TargetIn(m, targets[..j + 1], k) <==> TargetIn(m, targets[..j], k) || k == key {
      if |k.path| == |m.path| + 1 && k.path[..|m.path|] == m.path {
        assert k.path == m.path + [k.path[|m.path|]];
      }
    }
  }

  lemma AboveIs(nodes: Nodes, m: Signal, k: Signal)
    requires Checked(nodes) && Wires(nodes, m, k)
    ensures Above(nodes, k) == Some(m) && |m.path| < |k.path| && m.path in nodes
  {
  }

  // ---------------------------------------------------------------- one driver per module pin

  lemma OwnerIsWired(nodes: Nodes, m: Signal)
    requires OwnerBelow(nodes, m).Some?
    ensures Wires(nodes, m, OwnerBelow(nodes, m).value)
  {
    var owner := nodes[m.path].connections[m.name].owner;
    var k := OwnerBelow(nodes, m).value;
    assert k.path[..|m.path|] == m.path && k.path[|m.path|] == owner.child;
    assert nodes[m.path].connections[m.name].Targets()[0] == owner;
  }

  /** If the leaf of a signal is looked at, so is every signal on the way down to it. */
  lemma {:induction false} LeafProcessed(nodes: Nodes, k: Signal)
    requires Checked(nodes) && PresenceChecked(nodes) && Processed(nodes, Leaf(nodes, k))
    ensures Processed(nodes, k)
    decreases Depth(nodes) + 1 - |k.path|
  {
    var below := OwnerBelow(nodes, k);
    if below.Some? {
      OwnerIsWired(nodes, k);
      LeafProcessed(nodes, below.value);
    }
  }

  /** The leaf gets its pin from the site whose owners lead down to it. */
  lemma {:induction false} LeafSource(nodes: Nodes, s: Signal, k: Signal)
    requires Checked(nodes) && PresenceChecked(nodes) && Clean(nodes)
    requires Source(nodes, k) == Some(s) && Processed(nodes, Leaf(nodes, k))
    ensures Source(nodes, Leaf(nodes, k)) == Some(s)
    decreases Depth(nodes) + 1 - |k.path|
  {
    var below := OwnerBelow(nodes, k);
    if below.Some? {
      var b := below.value;
      OwnerIsWired(nodes, k);
      AboveIs(nodes, k, b);
      LeafProcessed(nodes, b);
      assert Report(nodes, b).None?;
      assert b.name !in nodes[b.path].pins;
      LeafSource(nodes, s, b);
    }
  }

  /**
   One driver per module pin: everything fed through a connected pin has its value and its owner,
   the owner is the leaf, and when the leaf is there it owns itself and nothing else does.
   */
  lemma OneDriver(nodes: Nodes, s: Signal)
    requires Checked(nodes) && PresenceChecked(nodes) && Clean(nodes)
    requires s.path in nodes && s.name in nodes[s.path].pins && nodes[s.path].pins[s.name] != Unconnected
    ensures forall k :: Processed(nodes, k) && Assigned(nodes, k).site == Some(s) ==>
              Assigned(nodes, k) == Assignment(nodes[s.path].pins[s.name], Some(s), Leaf(nodes, s))
    ensures forall k :: Processed(nodes, k) && Source(nodes, k) == Some(s) ==> Assigned(nodes, k).site == Some(s)
    ensures Processed(nodes, Leaf(nodes, s)) ==>
              Assigned(nodes, Leaf(nodes, s)).site == Some(s) && Assigned(nodes, Leaf(nodes, s)).owner == Leaf(nodes, s)
    ensures forall k :: Processed(nodes, k) && Assigned(nodes, k).site == Some(s) && Assigned(nodes, k).owner == k ==>
              k == Leaf(nodes, s)
  {
    hide Checked, PresenceChecked, Leaf;
    forall k | Processed(nodes, k) && Source(nodes, k) == Some(s) ensures Assigned(nodes, k) == FromSite(nodes, s) {
      assert Report(nodes, k).None?;
    }
    if Processed(nodes, Leaf(nodes, s)) {
      assert Source(nodes, s) == Some(s);
      LeafSource(nodes, s, s);
    }
  }
}
