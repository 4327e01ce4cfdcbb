/** The resolver from a checked device tree to one report over its signals and its wiring. */
module Resolver {
  import opened Outcomes
  import opened DeviceSignals
  import opened Presence
  import opened Wiring
  import opened WiringProperties
  import opened BoardOwners
  import opened BusDevices
  import opened WiringPhase

  /** One owner for every endpoint the board does not wire. */
  ghost predicate OneOwnerEach(wired: map<Endpoint, Signal>, pins: map<Signal, Assignment>,
                               endpoints: map<Signal, Option<Endpoint>>,
                               netOf: map<Signal, string>, owners: map<Signal, Signal>) {
    forall k, j :: k in pins && j in pins && k in endpoints && j in endpoints && endpoints[k].Some?
                   && endpoints[k] == endpoints[j] && endpoints[k].value !in wired ==>
      && k in owners && j in owners && owners[k] == owners[j]
      && (k in netOf <==> j in netOf) && (k in netOf ==> netOf[k] == netOf[j])
      && (k !in netOf ==> pins[k].site.Some? && pins[k].site == pins[j].site)
  }

  /**
   A device tree whose catalogue and presence are in order: the signal phase, and where it reports
   nothing the wiring phase. The report is empty exactly when every signal is clean, the assembly is
   legal, endpoints suit, nets are owned, and controllers, addresses, transports and chip selects fit.
   Then signals that meet off the board are on one net or under one module pin and have one owner, and
   all signals have, those of the board included, exactly when the nets there agree.
   */
  method Resolve(kinds: Kinds, declared: map<Path, string>, entries: map<Path, Entry>, required: set<Path>,
                 c: Context, paths: seq<Path>, keys: seq<Signal>,
                 uses: seq<(Endpoint, Signal)>, buses: seq<Bus>, decls: seq<NetDecl>,
                 target: string, cans: nat, board: seq<(string, nat)>, specs: seq<BusSpec>, devices: seq<Device>)
    returns (errors: seq<Code>, pins: map<Signal, Assignment>, endpoints: map<Signal, Option<Endpoint>>,
             netOf: map<Signal, string>, owners: map<Signal, Signal>, settings: map<Path, Settings>,
             wired: map<Endpoint, Signal>, nets: map<string, Net>)
    requires forall t :: t in kinds ==> Connects(kinds, kinds[t])
    requires Unfolded(kinds, declared) && Built(kinds, declared, entries, c.nodes)
    requires forall p :: p in declared ==> Stated(entries, required, p)
    requires forall p :: p in c.nodes <==> p in paths
    requires (forall k :: k in keys <==> Processed(c.nodes, k)) && Wiring.Once(keys)
    requires Keyed(Plan(buses, decls, map[]))
    requires forall i, j :: 0 <= i < j < |devices| ==> devices[i].path != devices[j].path
    ensures errors == [] <==>
              && Clean(c.nodes) && Known(c.nodes)
              && Legal(c, wired, Plan(buses, decls, pins)) && Suited(c, nets, pins) && Owned(c, nets, pins)
              && ControllersFit(cans, board, specs, devices)
                && TransportsFit(target, specs, WithSelects(endpoints, devices))
    ensures errors == [] ==> FirstUses(uses, wired) && NetsAre(c, wired, decls, nets)
    ensures errors == [] ==> forall k :: k in pins ==> Processed(c.nodes, k) && pins[k] == Assigned(c.nodes, k)
    ensures errors == [] ==> forall i :: 0 <= i < |devices| ==> Runs(specs, settings, devices[i])
    ensures errors == [] ==> OneOwnerEach(wired, pins, endpoints, netOf, owners)
    ensures errors == [] && Apart(wired, pins) ==>
              (NetsAgree(c, wired, Plan(buses, decls, pins)) <==> OneOwnerAll(endpoints, owners))
  {
    hide Connects, Unfolded, Built, Stated, Checked, PresenceChecked, Processed, Assigned, Clean, Known, Legal, Suited,
         Owned,
         Complete, Coherent, SitesOwn, NetsAre, FirstUses, Keyed, Wiring.Once, OneOwnerEach, NetsAgree, OneOwnerAll,
         Apart, ControllersFit, TransportsFit, Runs, WithSelects;
    SignalPhaseReady(kinds, declared, entries, required, c.nodes);
    endpoints, netOf, owners, settings, wired, nets := map[], map[], map[], map[], map[], map[];
    var signals := new SignalPhase(c.nodes);
    signals.Run(paths, keys);
    pins, errors := signals.pins, signals.errors;
    if errors != [] {
      return;
    }
    var p := Plan(buses, decls, pins);
    KeyedPins(buses, decls, pins);
    AssignedCoherent(c.nodes, pins);
    errors, endpoints, netOf, owners, settings, wired, nets :=
      WiringPhase.Run(c, uses, p, keys, target, cans, board, specs, devices);
    if errors == [] {
      OneOwner(c, wired, nets, p, endpoints, netOf, owners);
      if Apart(wired, pins) {
        OneOwnerExactly(c, wired, nets, p, endpoints, netOf, owners);
      }
    }
  }

  lemma KeyedPins(buses: seq<Bus>, decls: seq<NetDecl>, pins: map<Signal, Assignment>)
    requires Keyed(Plan(buses, decls, map[]))
    ensures Keyed(Plan(buses, decls, pins))
  {
  }

  lemma OneOwner(c: Context, wired: map<Endpoint, Signal>, nets: map<string, Net>, p: Plan,
                 endpoints: map<Signal, Option<Endpoint>>, netOf: map<Signal, string>, owners: map<Signal, Signal>)
    requires WiringProperties.Wired(c, wired, nets, p, endpoints, netOf, owners) && SitesOwn(p.pins)
    ensures OneOwnerEach(wired, p.pins, endpoints, netOf, owners)
  {
    hide WiringProperties.Wired, SitesOwn;
    forall k, j | k in p.pins && j in p.pins && k in endpoints && j in endpoints && endpoints[k].Some?
                  && endpoints[k] == endpoints[j] && endpoints[k].value !in wired
      ensures && k in owners && j in owners && owners[k] == owners[j]
              && (k in netOf <==> j in netOf) && (k in netOf ==> netOf[k] == netOf[j])
              && (k !in netOf ==> p.pins[k].site.Some? && p.pins[k].site == p.pins[j].site)
    {
      SharedEndpoint(c, wired, nets, p, endpoints, netOf, owners, k, j, endpoints[k].value);
    }
  }
}
