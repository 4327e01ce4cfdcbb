/** The wiring phase as a whole: endpoints, nets, controllers, addresses and transports in one report. */
module WiringPhase {
  import opened Outcomes
  import opened DeviceSignals
  import opened Wiring
  import opened BusDevices

  /** A device with the endpoint its chip select ended with. */
  function WithSelect(endpoints: map<Signal, Option<Endpoint>>, d: Device): Device {
    var cs := Signal(d.path, "cs");
    d.(cs := if cs in endpoints then endpoints[cs] else None)
  }

  function WithSelects(endpoints: map<Signal, Option<Endpoint>>, devices: seq<Device>): (r: seq<Device>)
    ensures |r| == |devices|
    ensures forall i :: 0 <= i < |devices| ==> r[i] == WithSelect(endpoints, devices[i]) && r[i].path == devices[i].path
  {
    seq(|devices|, i requires 0 <= i < |devices| => WithSelect(endpoints, devices[i]))
  }

  /** Controllers exist and differ, devices take what they are given, and addresses on a bus differ. */
  ghost predicate ControllersFit(cans: nat, board: seq<(string, nat)>, buses: seq<BusSpec>, devices: seq<Device>) {
    && Fair(cans, board + OfBuses(buses) + Given(devices)) && (forall d :: d in devices ==> Takes(d))
    && AddressesDiffer(devices)
  }

  /** Frames and settings suit, and chip selects on an SPI bus differ. */
  ghost predicate TransportsFit(target: string, buses: seq<BusSpec>, devices: seq<Device>) {
    && (forall i :: 0 <= i < |buses| ==> FrameFits(target, buses[i]))
    && (forall i :: 0 <= i < |devices| ==> Trouble(buses, devices[i]).None?) && SelectsDiffer(buses, devices)
  }

  /**
   The steps in their order, with one report. It is empty exactly when the assembly is legal, every
   endpoint suits its signal, nets are owned, and controllers, addresses, transports and chip selects fit.
   */
  method Run(c: Context, uses: seq<(Endpoint, Signal)>, p: Plan, keys: seq<Signal>,
             target: string, cans: nat, board: seq<(string, nat)>, specs: seq<BusSpec>, devices: seq<Device>)
    returns (errors: seq<Code>, endpoints: map<Signal, Option<Endpoint>>, netOf: map<Signal, string>,
             owners: map<Signal, Signal>, settings: map<Path, Settings>, wired: map<Endpoint, Signal>,
             nets: map<string, Net>)
    requires Keyed(p) && Coherent(p.pins) && (forall k :: k in keys <==> k in p.pins) && Wiring.Once(keys)
    requires forall i, j :: 0 <= i < j < |devices| ==> devices[i].path != devices[j].path
    ensures FirstUses(uses, wired) && (Legal(c, wired, p) ==> NetsAre(c, wired, p.nets, nets))
    ensures errors == [] <==>
              && Legal(c, wired, p) && Suited(c, nets, p.pins) && Owned(c, nets, p.pins)
              && ControllersFit(cans, board, specs, devices)
                && TransportsFit(target, specs, WithSelects(endpoints, devices))
    ensures errors == [] ==> Complete(c, nets, p, endpoints, netOf, owners)
    ensures errors == [] ==> forall i :: 0 <= i < |devices| ==> Runs(specs, settings, devices[i])
  {
    hide Legal, Suited, Owned, Complete, Keyed, Coherent, Wiring.Once, NetsAre, FirstUses, Fair, Takes,
         AddressesDiffer, Given, Trouble,
         SelectsDiffer, FrameFits, Runs, WithSelect;
    var wiring := new WiringCheck(c);
    endpoints, netOf, owners := wiring.Run(uses, p, keys);
    wired, nets := wiring.wired, wiring.nets;
    var controllers := new ControllerCheck(cans);
    controllers.Run(board, specs, devices);
    var selected := WithSelects(endpoints, devices);
    var transports: seq<Code>;
    settings, transports := Transports(target, specs, selected);
    errors := wiring.errors + controllers.errors + transports;
    assert errors == [] <==> wiring.errors == [] && controllers.errors == [] && transports == [];
    SelectsRun(endpoints, specs, settings, devices);
  }

  lemma SelectsRun(endpoints: map<Signal, Option<Endpoint>>, specs: seq<BusSpec>, settings: map<Path, Settings>,
                   devices: seq<Device>)
    ensures forall i :: 0 <= i < |devices| ==>
              (Runs(specs, settings, WithSelects(endpoints, devices)[i]) <==> Runs(specs, settings, devices[i]))
  {
    hide Find, Effective;
  }
}
