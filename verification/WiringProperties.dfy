/** What a wiring check without errors guarantees, across the phases that lead to it. */
module WiringProperties {
  import opened Outcomes
  import opened DeviceSignals
  import opened Wiring

  // ---------------------------------------------------------------- reservations

  /** The reservations an assembly may release: soft ones of its board. */
  ghost predicate Releasable(reservations: seq<Reserved>, key: string) {
    exists i :: 0 <= i < |reservations| && reservations[i].key == key && !reservations[i].hard
  }

  /** Releases soft reservations; unknown and hard keys are problems. */
  method Releases(reservations: seq<Reserved>, keys: seq<string>) returns (released: set<string>, problems: seq<Code>)
    requires forall i, j :: 0 <= i < j < |reservations| ==> reservations[i].key != reservations[j].key
    ensures problems == [] <==> forall i :: 0 <= i < |keys| ==> Releasable(reservations, keys[i])
    ensures forall key :: key in released <==> key in keys && Releasable(reservations, key)
  {
    released, problems := {}, [];
    var i := 0;
    while i < |keys|
      invariant i <= |keys|
      invariant problems == [] <==> forall j :: 0 <= j < i ==> Releasable(reservations, keys[j])
      invariant forall key :: key in released <==> key in keys[..i] && Releasable(reservations, key)
    {
      var soft := Soft(reservations, keys[i]);
      if soft {
        released := released + {keys[i]};
      } else {
        problems := problems + [Reservation];
      }
      assert keys[..i + 1] == keys[..i] + [keys[i]];
      i := i + 1;
    }
    assert keys[..i] == keys;
  }

  method Soft(reservations: seq<Reserved>, key: string) returns (soft: bool)
    requires forall i, j :: 0 <= i < j < |reservations| ==> reservations[i].key != reservations[j].key
    ensures soft <==> Releasable(reservations, key)
  {
    var i := 0;
    while i < |reservations|
      invariant i <= |reservations| && forall j :: 0 <= j < i ==> reservations[j].key != key
    {
      if reservations[i].key == key {
        return !reservations[i].hard;
      }
      i := i + 1;
    }
    return false;
  }

  /** No reservation of this strength has the pin. */
  ghost predicate Unreserved(c: Context, hard: bool, pin: string) {
    forall i :: 0 <= i < |c.reservations| && c.reservations[i].hard == hard ==> pin !in c.reservations[i].pins
  }

  /** A bus line or a direct signal gets a pin exactly under these conditions. */
  lemma PinIsUsable(c: Context, wired: map<Endpoint, Signal>, pin: string)
    ensures Refused(c, wired, Soc(pin), None, None).None? <==>
              && Unreserved(c, true, pin)
              && (Holder(c.reservations, false, pin).Some? ==>
                    Holder(c.reservations, false, pin).value.key in c.released)
              && pin in c.exposed
    ensures Refused(c, wired, Soc(pin), None, None) == Some(Reservation) <==>
              || !Unreserved(c, true, pin)
              || (Holder(c.reservations, false, pin).Some?
                  && Holder(c.reservations, false, pin).value.key !in c.released)
    ensures Refused(c, wired, Soc(pin), None, None) in {None, Some(Reservation), Some(PinRange)}
  {
    var hard := Holder(c.reservations, true, pin);
    if hard.Some? {
      var i :| 0 <= i < |c.reservations| && c.reservations[i] == hard.value;
      assert !Unreserved(c, true, pin);
    }
  }

  /** The soft reservations with the pin have one key: where keys are unique, there is at most one. */
  ghost predicate OneSoft(c: Context, pin: string) {
    forall i, j :: SoftAt(c, i, pin) && SoftAt(c, j, pin) ==> c.reservations[i].key == c.reservations[j].key
  }

  ghost predicate SoftAt(c: Context, i: int, pin: string) {
    0 <= i < |c.reservations| && !c.reservations[i].hard && pin in c.reservations[i].pins
  }

  /** Every soft reservation with the pin is released. */
  ghost predicate AllReleased(c: Context, pin: string) {
    forall i :: SoftAt(c, i, pin) ==> c.reservations[i].key in c.released
  }

  /** With these soft reservations released, a pin that is taken has all of its own released. */
  ghost predicate ReleaseRespected(c: Context, wired: map<Endpoint, Signal>, pin: string, released: set<string>) {
    var with_ := c.(released := released);
    Refused(with_, wired, Soc(pin), None, None).None? ==> AllReleased(with_, pin)
  }

  /**
   Whatever an assembly releases, a pin is taken only with all of its soft reservations released,
   exactly when these have one key. A pin that is hard-reserved or not exposed is never taken.
   */
  lemma ReleasesRespectedExactly(c: Context, wired: map<Endpoint, Signal>, pin: string)
    requires pin in c.exposed && Unreserved(c, true, pin)
    ensures OneSoft(c, pin) <==> forall released :: ReleaseRespected(c, wired, pin, released)
  {
    hide Refused, Unreserved;
    if OneSoft(c, pin) {
      forall released ensures ReleaseRespected(c, wired, pin, released) {
        PinIsUsable(c.(released := released), wired, pin);
        SameReservations(c, released, pin);
        if Refused(c.(released := released), wired, Soc(pin), None, None).None? {
          SoftHolder(c.(released := released), pin);
        }
      }
    } else {
      OverlookedRelease(c, wired, pin);
    }
  }

  lemma SameReservations(c: Context, released: set<string>, pin: string)
    ensures var with_ := c.(released := released);
            && (OneSoft(with_, pin) <==> OneSoft(c, pin)) && (Unreserved(with_, true, pin) <==>
                                                                Unreserved(c, true, pin))
            && forall i :: SoftAt(with_, i, pin) <==> SoftAt(c, i, pin)
  {
    var with_ := c.(released := released);
    assert with_.reservations == c.reservations;
    assert forall i :: SoftAt(with_, i, pin) <==> SoftAt(c, i, pin);
    hide SoftAt;
  }

  /** With two keys on a pin, releasing the last listed is enough, and the other is overlooked. */
  lemma OverlookedRelease(c: Context, wired: map<Endpoint, Signal>, pin: string)
    requires pin in c.exposed && Unreserved(c, true, pin) && !OneSoft(c, pin)
    ensures Holder(c.reservations, false, pin).Some?
    ensures !ReleaseRespected(c, wired, pin, {Holder(c.reservations, false, pin).value.key})
  {
    hide Refused, Unreserved;
    var i, j :| SoftAt(c, i, pin) && SoftAt(c, j, pin) && c.reservations[i].key != c.reservations[j].key;
    var released := {Holder(c.reservations, false, pin).value.key};
    PinIsUsable(c.(released := released), wired, pin);
    SameReservations(c, released, pin);
    assert SoftAt(c.(released := released), i, pin) && SoftAt(c.(released := released), j, pin);
  }

  /** Bus lines and direct signals get pins that exist, are brought out and are free of reservations. */
  lemma TakenPinsAreUsable(c: Context, wired: map<Endpoint, Signal>, p: Plan, u: User, pin: string)
    requires Legal(c, wired, p) && !u.NetUse? && Uses(c, p, u, Soc(pin))
    ensures pin in c.valid && pin in c.exposed && Unreserved(c, true, pin) && Soc(pin) !in wired
    ensures OneSoft(c, pin) ==> AllReleased(c, pin)
  {
    hide Refused, Exclusive, Unreserved, OneSoft, AllReleased;
    assert Exclusive(c, wired, p);
    UseFits(c, wired, p, u, Soc(pin));
    PinIsUsable(c, wired, pin);
    if OneSoft(c, pin) {
      SoftHolder(c, pin);
    }
    NotWired(c, wired, p, u, Soc(pin));
  }

  lemma NotWired(c: Context, wired: map<Endpoint, Signal>, p: Plan, u: User, e: Endpoint)
    requires Exclusive(c, wired, p) && !u.NetUse? && Uses(c, p, u, e)
    ensures e !in wired
  {
    hide Uses;
  }

  lemma UseFits(c: Context, wired: map<Endpoint, Signal>, p: Plan, u: User, e: Endpoint)
    requires Legal(c, wired, p) && !u.NetUse? && Uses(c, p, u, e)
    ensures Refused(c, wired, e, None, None).None? && (e.Soc? ==> e.pin in c.valid)
  {
    hide Refused, Exclusive;
    if u.BusLine? {
      var i :| 0 <= i < |p.buses| && p.buses[i].name == u.bus && LineAt(c, p.buses[i], u.line, e);
      assert BusFits(c, wired, p.buses[i]);
      var j :| 0 <= j < |p.buses[i].lines| && p.buses[i].lines[j].0 == u.line
               && Normalize(c, p.buses[i].lines[j].1, {"soc-gpio"}) == Ok(Some(e));
      assert Fits(c, wired, p.buses[i].lines[j].1, {"soc-gpio"});
    } else {
      assert SiteFits(c, wired, p.pins, u.site);
    }
  }

  lemma SoftHolder(c: Context, pin: string)
    requires OneSoft(c, pin)
    requires Holder(c.reservations, false, pin).Some? ==> Holder(c.reservations, false, pin).value.key in c.released
    ensures AllReleased(c, pin)
  {
    var soft := Holder(c.reservations, false, pin);
    if soft.Some? {
      var i :| 0 <= i < |c.reservations| && c.reservations[i] == soft.value;
      assert SoftAt(c, i, pin);
    }
  }

  /** Two soft reservations on one pin: releasing the second takes the pin from the first as well. */
  lemma SecondReservationHides(wired: map<Endpoint, Signal>)
    ensures var c := Context(map[], {"PA1"}, {"PA1"},
                             [Reserved("led", false, None, ["PA1"]), Reserved("swd", false, None, ["PA1"])],
                             {"swd"}, {});
            Refused(c, wired, Soc("PA1"), None, None).None? && !AllReleased(c, "PA1")
  {
    var first, second := Reserved("led", false, None, ["PA1"]), Reserved("swd", false, None, ["PA1"]);
    var c := Context(map[], {"PA1"}, {"PA1"}, [first, second], {"swd"}, {});
    assert "PA1" in first.pins && "PA1" in second.pins;
    assert "led" != "swd" by { assert "led"[0] != "swd"[0]; }
    assert SoftAt(c, 0, "PA1") && SoftAt(c, 1, "PA1") && c.reservations[0].key != c.reservations[1].key;
    assert Holder(c.reservations, false, "PA1") == Some(second);
    hide Refused;
    OverlookedRelease(c, wired, "PA1");
    assert c.(released := {"swd"}) == c;
  }

  // ---------------------------------------------------------------- exclusive endpoints

  /** What a wiring check without errors leaves. */
  ghost predicate Wired(c: Context, wired: map<Endpoint, Signal>, nets: map<string, Net>, p: Plan,
                        endpoints: map<Signal, Option<Endpoint>>, netOf: map<Signal, string>,
                        owners: map<Signal, Signal>) {
    && Legal(c, wired, p) && NetsAre(c, wired, p.nets, nets) && Keyed(p) && Coherent(p.pins)
    && Suited(c, nets, p.pins) && Owned(c, nets, p.pins) && Complete(c, nets, p, endpoints, netOf, owners)
  }

  /** The user through which a signal gets its endpoint: its net, or the site that feeds it. */
  ghost function UserOf(nets: map<string, Net>, pins: map<Signal, Assignment>, k: Signal): User
    requires k in pins && (InNet(nets, pins, k) || pins[k].site.Some?)
  {
    if InNet(nets, pins, k) then NetUse(pins[k].value.net) else SiteUse(pins[k].site.value)
  }

  /** A net with an endpoint asks for it. */
  lemma NetAsks(c: Context, wired: map<Endpoint, Signal>, p: Plan, nets: map<string, Net>, n: string)
    requires NetsAre(c, wired, p.nets, nets) && Keyed(p) && n in nets
    ensures Uses(c, p, NetUse(n), nets[n].endpoint)
    ensures nets[n].board == if nets[n].endpoint in wired then Some(wired[nets[n].endpoint]) else None
  {
    var i :| 0 <= i < |p.nets| && NetAt(c, p.nets[i], n, nets[n].endpoint);
    assert NetGiven(c, wired, p.nets[i], nets);
    hide Normalize;
  }

  /** A signal with an endpoint of its own asks for it through its net or its site. */
  lemma SignalAsks(c: Context, wired: map<Endpoint, Signal>, p: Plan, nets: map<string, Net>, k: Signal, e: Endpoint)
    requires NetsAre(c, wired, p.nets, nets) && Keyed(p) && Coherent(p.pins)
    requires k in p.pins && Final(c, nets, p.pins[k]) == Some(e)
    ensures InNet(nets, p.pins, k) || p.pins[k].site.Some?
    ensures Uses(c, p, UserOf(nets, p.pins, k), e)
  {
    hide NetsAre, Keyed;
    if InNet(nets, p.pins, k) {
      NetAsks(c, wired, p, nets, p.pins[k].value.net);
    } else {
      var s := p.pins[k].site.value;
      assert Direct(p.pins, s);
      hide Normalize;
    }
  }

  /** What the board wires are no signals of the project. */
  ghost predicate Apart(wired: map<Endpoint, Signal>, pins: map<Signal, Assignment>) {
    forall e :: e in wired ==> wired[e] !in pins
  }

  /** A signal ends with what it asked for, unless the board wires both its endpoint and the signal itself. */
  lemma EndsWith(c: Context, wired: map<Endpoint, Signal>, nets: map<string, Net>, p: Plan,
                 endpoints: map<Signal, Option<Endpoint>>,
                 netOf: map<Signal, string>, owners: map<Signal, Signal>, k: Signal)
    requires Wired(c, wired, nets, p, endpoints, netOf, owners) && k in p.pins
    ensures k in endpoints && k in owners
    ensures Apart(wired, p.pins) || (endpoints[k].Some? && endpoints[k].value !in wired) ==>
              && endpoints[k] == Final(c, nets, p.pins[k])
              && (k in netOf <==> InNet(nets, p.pins, k))
              && (k in netOf ==> netOf[k] == p.pins[k].value.net && netOf[k] in nets)
              && owners[k] == if k in netOf then nets[netOf[k]].owner else p.pins[k].owner
  {
    hide Legal, NetsAre, Keyed, Coherent, Suited, Owned, Final;
    var found :|
      && Resolved(c, nets, p.pins, found, Joined(nets, p.pins))
      && Driven(nets, p.pins, Joined(nets, p.pins), found, NetOrder(p.nets, nets), endpoints, netOf, owners);
    var joined, names := Joined(nets, p.pins), NetOrder(p.nets, nets);
    OrderNames(p.nets, nets);
    assert forall n :: n in nets ==> n in names by { NetsDeclared(c, wired, p, nets); }
    hide NetOrder;
    assert InNet(nets, p.pins, k) ==> k in joined && k in Members(nets, joined, joined[k]);
    assert InNet(nets, p.pins, k) ==>
      Final(c, nets, p.pins[k]) == Some(nets[joined[k]].endpoint) by { NetEndpoint(c, nets, p.pins, k); }
    if OnSome(nets, joined, names, k) {
      assert Shares(nets, joined, names, k, endpoints, netOf, owners);
      NetAsks(c, wired, p, nets, netOf[k]);
    } else {
      assert Keeps(p.pins, joined, found, k, endpoints, netOf, owners);
    }
  }

  lemma {:induction false} OrderNames(decls: seq<NetDecl>, nets: map<string, Net>)
    ensures forall n :: n in NetOrder(decls, nets) <==> n in nets && exists i :: 0 <= i < |decls| && decls[i].name == n
  {
    if decls != [] {
      var m := |decls| - 1;
      OrderNames(decls[..m], nets);
      assert forall i :: 0 <= i < m ==> decls[..m][i] == decls[i];
      forall n ensures n in NetOrder(decls, nets) <==> n in nets && exists i :: 0 <= i < |decls| && decls[i].name == n {
        if i :| 0 <= i < |decls| && decls[i].name == n {
          assert i < m ==> decls[..m][i].name == n;
        }
      }
    }
  }

  lemma NetsDeclared(c: Context, wired: map<Endpoint, Signal>, p: Plan, nets: map<string, Net>)
    requires NetsAre(c, wired, p.nets, nets)
    ensures forall n :: n in nets ==> n in NetOrder(p.nets, nets)
  {
    OrderNames(p.nets, nets);
    forall n | n in nets ensures n in NetOrder(p.nets, nets) {
      var i :| 0 <= i < |p.nets| && NetAt(c, p.nets[i], n, nets[n].endpoint);
    }
  }

  lemma NetEndpoint(c: Context, nets: map<string, Net>, pins: map<Signal, Assignment>, k: Signal)
    ensures InNet(nets, pins, k) ==> Final(c, nets, pins[k]) == Some(nets[pins[k].value.net].endpoint)
  {
  }

  /** The owner of what one site feeds is the same for all. */
  ghost predicate SitesOwn(pins: map<Signal, Assignment>) {
    forall k, j :: k in pins && j in pins && pins[k].site.Some? && pins[k].site == pins[j].site ==>
      pins[k].owner == pins[j].owner
  }

  /**
   Two signals on one endpoint that the board does not wire are on one net, or are both fed through
   one site; either way they have the same owner.
   */
  lemma SharedEndpoint(c: Context, wired: map<Endpoint, Signal>, nets: map<string, Net>, p: Plan,
                       endpoints: map<Signal, Option<Endpoint>>, netOf: map<Signal, string>,
                       owners: map<Signal, Signal>,
                       k: Signal, j: Signal, e: Endpoint)
    requires Wired(c, wired, nets, p, endpoints, netOf, owners) && SitesOwn(p.pins)
    requires k in p.pins && j in p.pins && k in endpoints && j in endpoints
    requires endpoints[k] == Some(e) && endpoints[j] == Some(e) && e !in wired
    ensures if k in netOf then j in netOf && netOf[k] == netOf[j]
            else j !in netOf && p.pins[k].site.Some? && p.pins[k].site == p.pins[j].site
    ensures k in owners && j in owners && owners[k] == owners[j]
  {
    hide Uses, NetsAre, Keyed, Coherent, Suited, Owned, Complete, Final, BusFits, NetFits, SiteFits;
    EndsWith(c, wired, nets, p, endpoints, netOf, owners, k);
    EndsWith(c, wired, nets, p, endpoints, netOf, owners, j);
    SignalAsks(c, wired, p, nets, k, e);
    SignalAsks(c, wired, p, nets, j, e);
    assert Exclusive(c, wired, p);
    assert UserOf(nets, p.pins, k) == UserOf(nets, p.pins, j);
  }

  /** An endpoint of a bus line is no signal's. */
  lemma BusLineIsAlone(c: Context, wired: map<Endpoint, Signal>, nets: map<string, Net>, p: Plan,
                       endpoints: map<Signal, Option<Endpoint>>, netOf: map<Signal, string>,
                       owners: map<Signal, Signal>,
                       bus: string, line: string, k: Signal, e: Endpoint)
    requires Wired(c, wired, nets, p, endpoints, netOf, owners)
    requires Uses(c, p, BusLine(bus, line), e) && k in p.pins && k in endpoints
    ensures endpoints[k] != Some(e) && e !in wired
  {
    hide Uses, NetsAre, Keyed, Coherent, Suited, Owned, Complete, Final, BusFits, NetFits, SiteFits;
    NotWired(c, wired, p, BusLine(bus, line), e);
    if endpoints[k] == Some(e) {
      EndsWith(c, wired, nets, p, endpoints, netOf, owners, k);
      SignalAsks(c, wired, p, nets, k, e);
    }
  }

  // ---------------------------------------------------------------- from the signal phase

  /** The pins the signal phase assigns are what the wiring check relies on. */
  lemma AssignedCoherent(nodes: Nodes, pins: map<Signal, Assignment>)
    requires Checked(nodes) && PresenceChecked(nodes) && Clean(nodes)
    requires forall k :: k in pins <==> Processed(nodes, k)
    requires forall k :: k in pins ==> Processed(nodes, k) && pins[k] == Assigned(nodes, k)
    ensures Coherent(pins) && SitesOwn(pins)
  {
    hide Checked, PresenceChecked, Clean, Leaf, Source, Processed;
    forall k | k in pins && pins[k].site.Some?
      ensures var s := pins[k].site.value;
              s in pins && pins[s].value == pins[k].value && (pins[s].site == Some(s) || pins[s].site.None?)
    {
      var s := pins[k].site.value;
      SourceProcessed(nodes, k, s);
      SourceIsItself(nodes, s);
      CleanInactive(nodes, s);
    }
  }

  lemma SourceIsItself(nodes: Nodes, s: Signal)
    requires s.path in nodes && s.name in nodes[s.path].pins
    ensures Source(nodes, s) == Some(s)
  {
  }

  lemma CleanInactive(nodes: Nodes, s: Signal)
    requires Clean(nodes) && Processed(nodes, s) && Source(nodes, s) == Some(s)
    ensures s.name in nodes[s.path].inactive ==> nodes[s.path].pins[s.name] == Unconnected
  {
    hide Source;
    assert Report(nodes, s).None?;
  }

  /** The site a signal gets its pin from is a signal of a present node of the project. */
  lemma {:induction false} SourceProcessed(nodes: Nodes, k: Signal, s: Signal)
    requires Checked(nodes) && PresenceChecked(nodes) && Processed(nodes, k) && Source(nodes, k) == Some(s)
    ensures Processed(nodes, s)
    decreases |k.path|
  {
    if k.name !in nodes[k.path].pins {
      var m := Above(nodes, k).value;
      assert Wires(nodes, m, k);
      SourceProcessed(nodes, m, s);
    }
  }
}
