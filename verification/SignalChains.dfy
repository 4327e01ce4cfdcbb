/**
 Where a signal gets its pin and who drives it, said of the connections alone: chains of them lead from
 an entry down to every signal it feeds, and along owners down to the driver.
 */
module SignalChains {
  import opened Outcomes
  import opened DeviceSignals

  ghost predicate HasEntry(nodes: Nodes, k: Signal) {
    k.path in nodes && k.name in nodes[k.path].pins
  }

  /** Each signal of the chain wires the next, and only the first has a pin of its own. */
  ghost predicate Feeds(nodes: Nodes, chain: seq<Signal>) {
    && chain != [] && HasEntry(nodes, chain[0])
    && forall i :: 0 < i < |chain| ==>
         Wires(nodes, chain[i - 1], chain[i]) && chain[i].path in nodes && !HasEntry(nodes, chain[i])
  }

  /** The pin given for one signal reaches another. */
  ghost predicate FedBy(nodes: Nodes, k: Signal, s: Signal) {
    exists chain :: Feeds(nodes, chain) && chain[0] == s && chain[|chain| - 1] == k
  }

  /** The connection of a module signal names this child signal as its owner. */
  ghost predicate Hands(nodes: Nodes, m: Signal, k: Signal) {
    && m.path in nodes && m.name in nodes[m.path].connections
    && k.path == m.path + [nodes[m.path].connections[m.name].owner.child]
    && k.name == nodes[m.path].connections[m.name].owner.signal
  }

  /** The signal hands nothing on. */
  ghost predicate Keeps(nodes: Nodes, l: Signal) {
    forall k :: !Hands(nodes, l, k)
  }

  ghost predicate Passes(nodes: Nodes, chain: seq<Signal>) {
    chain != [] && (forall i :: 0 < i < |chain| ==> Hands(nodes, chain[i - 1], chain[i]))
    && Keeps(nodes, chain[|chain| - 1])
  }

  /** Owners lead from one signal to another that hands nothing on. */
  ghost predicate DrivenBy(nodes: Nodes, s: Signal, l: Signal) {
    exists chain :: Passes(nodes, chain) && chain[0] == s && chain[|chain| - 1] == l
  }

  // ---------------------------------------------------------------- chains and the phase

  lemma FedNext(nodes: Nodes, m: Signal, k: Signal, s: Signal)
    requires FedBy(nodes, m, s) && Wires(nodes, m, k) && k.path in nodes && !HasEntry(nodes, k)
    ensures FedBy(nodes, k, s)
  {
    hide Wires;
    var chain :| Feeds(nodes, chain) && chain[0] == s && chain[|chain| - 1] == m;
    var longer := chain + [k];
    assert forall i :: 0 <= i < |chain| ==> longer[i] == chain[i];
    assert Feeds(nodes, longer) && longer[0] == s && longer[|longer| - 1] == k;
  }

  lemma {:induction false} SourceFeeds(nodes: Nodes, k: Signal)
    requires Source(nodes, k).Some?
    ensures FedBy(nodes, k, Source(nodes, k).value)
    decreases |k.path|
  {
    if HasEntry(nodes, k) {
      var chain := [k];
      assert Feeds(nodes, chain) && chain[0] == k && chain[|chain| - 1] == k;
    } else {
      var m := Above(nodes, k).value;
      SourceFeeds(nodes, m);
      FedNext(nodes, m, k, Source(nodes, k).value);
    }
  }

  lemma {:induction false} FedHasSource(nodes: Nodes, chain: seq<Signal>)
    requires Checked(nodes) && Feeds(nodes, chain)
    ensures Source(nodes, chain[|chain| - 1]) == Some(chain[0])
    decreases |chain|
  {
    var n := |chain| - 1;
    if n > 0 {
      assert Feeds(nodes, chain[..n]);
      FedHasSource(nodes, chain[..n]);
      hide Wires;
      assert Wires(nodes, chain[n - 1], chain[n]);
      assert Above(nodes, chain[n]) == Some(chain[n - 1]);
    }
  }

  /** The source the phase finds is the one signal whose pin reaches this one. */
  lemma SourceIs(nodes: Nodes, k: Signal)
    requires Checked(nodes)
    ensures forall s :: Source(nodes, k) == Some(s) <==> FedBy(nodes, k, s)
  {
    if Source(nodes, k).Some? {
      SourceFeeds(nodes, k);
    }
    forall s | FedBy(nodes, k, s) ensures Source(nodes, k) == Some(s) {
      var chain :| Feeds(nodes, chain) && chain[0] == s && chain[|chain| - 1] == k;
      FedHasSource(nodes, chain);
    }
  }

  lemma HandsIs(nodes: Nodes, m: Signal, k: Signal)
    ensures Hands(nodes, m, k) <==> OwnerBelow(nodes, m) == Some(k)
  {
  }

  lemma KeepsIs(nodes: Nodes, l: Signal)
    ensures Keeps(nodes, l) <==> OwnerBelow(nodes, l).None?
  {
    var below := OwnerBelow(nodes, l);
    if below.Some? {
      assert Hands(nodes, l, below.value);
    }
  }

  lemma {:induction false} LeafDrives(nodes: Nodes, s: Signal)
    ensures DrivenBy(nodes, s, Leaf(nodes, s))
    decreases Depth(nodes) + 1 - |s.path|
  {
    forall m, k ensures Hands(nodes, m, k) <==> OwnerBelow(nodes, m) == Some(k) {
      HandsIs(nodes, m, k);
    }
    hide Hands;
    var below := OwnerBelow(nodes, s);
    if below.None? {
      var chain := [s];
      assert Passes(nodes, chain) && chain[0] == s && chain[|chain| - 1] == s;
    } else {
      LeafDrives(nodes, below.value);
      var rest :| Passes(nodes, rest) && rest[0] == below.value && rest[|rest| - 1] == Leaf(nodes, s);
      var chain := [s] + rest;
      assert forall i :: 0 < i < |chain| ==> chain[i] == rest[i - 1];
      assert Passes(nodes, chain) && chain[0] == s && chain[|chain| - 1] == Leaf(nodes, s);
    }
  }

  lemma {:induction false} DriverIsLeaf(nodes: Nodes, chain: seq<Signal>)
    requires Passes(nodes, chain)
    ensures chain[|chain| - 1] == Leaf(nodes, chain[0])
    decreases |chain|
  {
    forall m, k ensures Hands(nodes, m, k) <==> OwnerBelow(nodes, m) == Some(k) {
      HandsIs(nodes, m, k);
    }
    hide Hands, OwnerBelow;
    if |chain| > 1 {
      assert Hands(nodes, chain[0], chain[1]);
      DriverIsLeaf(nodes, chain[1..]);
    } else {
      KeepsIs(nodes, chain[0]);
    }
  }

  /** The leaf the phase finds is the one signal that owners lead to. */
  lemma LeafIs(nodes: Nodes, s: Signal)
    ensures forall l :: Leaf(nodes, s) == l <==> DrivenBy(nodes, s, l)
  {
    LeafDrives(nodes, s);
    forall l | DrivenBy(nodes, s, l) ensures Leaf(nodes, s) == l {
      var chain :| Passes(nodes, chain) && chain[0] == s && chain[|chain| - 1] == l;
      DriverIsLeaf(nodes, chain);
    }
  }

  // ---------------------------------------------------------------- what the phase comes to

  ghost predicate Active(nodes: Nodes, k: Signal) {
    k.path in nodes && k.name !in nodes[k.path].inactive
  }

  /** No pin of its own beside a module's, no connected pin while inactive, and a pin where one is required. */
  ghost predicate InOrder(nodes: Nodes, k: Signal)
    requires Processed(nodes, k)
  {
    && (HasEntry(nodes, k) ==> forall m :: !Wires(nodes, m, k))
    && (!Active(nodes, k) ==> forall s :: FedBy(nodes, k, s) ==> nodes[s.path].pins[s.name] == Unconnected)
    && (Active(nodes, k) && nodes[k.path].signals[k.name] ==> exists s :: FedBy(nodes, k, s))
  }

  /**
   The phase reports nothing exactly when every signal of a present node is in order; then an active
   signal that some pin reaches has that pin, from that site, with the driver there as its owner, and
   every other one is unconnected and owns itself.
   */
  lemma SignalsExactly(nodes: Nodes)
    requires Checked(nodes)
    ensures Clean(nodes) <==> forall k :: Processed(nodes, k) ==> InOrder(nodes, k)
    ensures Clean(nodes) ==> forall k :: Processed(nodes, k) ==>
              && (forall s, l :: Active(nodes, k) && FedBy(nodes, k, s) && DrivenBy(nodes, s, l) ==>
                    Assigned(nodes, k) == Assignment(nodes[s.path].pins[s.name], Some(s), l))
              && ((!Active(nodes, k) || forall s :: !FedBy(nodes, k, s)) ==>
                    Assigned(nodes, k) == Assignment(Unconnected, None, k))
  {
    hide Checked, Wires, Source, Leaf, FedBy, DrivenBy, Processed;
    forall k | Processed(nodes, k) ensures Report(nodes, k).None? <==> InOrder(nodes, k) {
      SourceIs(nodes, k);
      ReportIs(nodes, k);
    }
    hide Report, InOrder;
    forall k | Processed(nodes, k)
      ensures (!Active(nodes, k) || forall s :: !FedBy(nodes, k, s)) ==>
                Assigned(nodes, k) == Assignment(Unconnected, None, k)
      ensures forall s, l :: Active(nodes, k) && FedBy(nodes, k, s) && DrivenBy(nodes, s, l) ==>
                HasEntry(nodes, s) && Assigned(nodes, k) == Assignment(nodes[s.path].pins[s.name], Some(s), l)
    {
      AssignedIs(nodes, k);
    }
  }

  lemma ReportIs(nodes: Nodes, k: Signal)
    requires Processed(nodes, k) && forall s :: Source(nodes, k) == Some(s) <==> FedBy(nodes, k, s)
    ensures Report(nodes, k).None? <==> InOrder(nodes, k)
  {
    hide Wires, Source, Leaf, FedBy;
    if Source(nodes, k).Some? {
      assert FedBy(nodes, k, Source(nodes, k).value);
    }
  }

  lemma AssignedIs(nodes: Nodes, k: Signal)
    requires Processed(nodes, k) && Checked(nodes)
    ensures (!Active(nodes, k) || forall s :: !FedBy(nodes, k, s)) ==>
              Assigned(nodes, k) == Assignment(Unconnected, None, k)
    ensures forall s, l :: Active(nodes, k) && FedBy(nodes, k, s) && DrivenBy(nodes, s, l) ==>
              HasEntry(nodes, s) && Assigned(nodes, k) == Assignment(nodes[s.path].pins[s.name], Some(s), l)
  {
    hide Wires, Source, Leaf, FedBy, DrivenBy, Checked;
    SourceIs(nodes, k);
    if Source(nodes, k).Some? {
      LeafIs(nodes, Source(nodes, k).value);
      assert FedBy(nodes, k, Source(nodes, k).value);
    }
  }
}
