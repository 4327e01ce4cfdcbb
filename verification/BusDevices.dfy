/** Controllers, I2C addresses, transports and SPI chip selects of the devices of an assembly. */
module BusDevices {
  import opened Outcomes
  import opened DeviceSignals

  datatype Frame = Frame(dataBits: nat, parity: string)

  datatype BusSpec = BusSpec(name: string, kind: string, index: nat, frequency: nat, mode: nat, bitOrder: string,
                             frame: Frame)

  /** Settings an assembly gives a device, and the settings it ends with; a UART consumer has none. */
  datatype Settings = Settings(frequency: Option<nat>, mode: Option<nat>, bitOrder: Option<string>)

  const NOTHING := Settings(None, None, None)

  datatype Fixed = Fixed(frequency: Option<nat>, mode: nat, bitOrder: string)

  datatype Device = Device(
    path: Path,
    controller: Option<(string, nat)>,    // the controller its entry gives
    takesController: Option<string>,      // the kind of controller its type takes
    address: Option<nat>,
    bus: Option<string>,
    takesBus: Option<string>,             // the kind of bus its type takes
    limit: Option<nat>,                   // the highest frequency its type takes
    transport: Option<Settings>,
    fixed: Option<Fixed>,                 // the SPI settings its driver cannot change
    clockLimit: Option<nat>,              // the SPI clock its radio takes at most
    cs: Option<Endpoint>)                 // endpoint of its signal cs

  // ---------------------------------------------------------------- specification

  ghost predicate Distinct<T>(s: seq<T>) {
    forall i, j :: 0 <= i < j < |s| ==> s[i] != s[j]
  }

  function BusCount(kind: string, cans: nat): nat {
    if kind == "fdcan" then cans else if kind == "spi" || kind == "i2c" || kind == "uart" then 2 else 0
  }

  /** Every controller exists and has one user. */
  ghost predicate Fair(cans: nat, taken: seq<(string, nat)>) {
    (forall i :: 0 <= i < |taken| ==> taken[i].1 < BusCount(taken[i].0, cans)) && Distinct(taken)
  }

  /** The controllers that entries of devices give. */
  ghost function Given(devices: seq<Device>): seq<(string, nat)> {
    if devices == [] then []
    else
      var n := |devices| - 1;
      Given(devices[..n]) + if devices[n].controller.Some? then [devices[n].controller.value] else []
  }

  ghost function OfBuses(buses: seq<BusSpec>): seq<(string, nat)> {
    seq(|buses|, i requires 0 <= i < |buses| => (buses[i].kind, buses[i].index))
  }

  /** The device takes the controller and the address it is given. */
  ghost predicate Takes(d: Device) {
    && (d.controller.Some? ==> d.takesController == Some(d.controller.value.0))
    && (d.address.Some? ==> d.takesBus == Some("i2c"))
  }

  /** The address of a device on a bus. */
  function AddressOf(d: Device): Option<(string, nat)> {
    if d.address.Some? && d.bus.Some? && d.bus.value != "" then Some((d.bus.value, d.address.value)) else None
  }

  ghost predicate AddressesDiffer(devices: seq<Device>) {
    forall i, j :: 0 <= i < j < |devices| && AddressOf(devices[i]).Some? ==>
      AddressOf(devices[i]) != AddressOf(devices[j])
  }

  function Find(buses: seq<BusSpec>, name: string): (r: Option<BusSpec>)
    ensures r.Some? ==> r.value in buses && r.value.name == name
    ensures r.None? ==> forall b :: b in buses ==> b.name != name
  {
    if buses == [] then None
    else if buses[0].name == name then Some(buses[0])
    else Find(buses[1..], name)
  }

  /** The settings a device runs with, where its bus allows what it asks for. */
  function Effective(b: BusSpec, transport: Option<Settings>): Result<Settings, Code> {
    var t := if transport.Some? then transport.value else NOTHING;
    if b.kind == "uart" then
      if t != NOTHING then Err(Transport) else Ok(NOTHING)
    else if b.kind == "i2c" then
      if t.mode.Some? || t.bitOrder.Some? || (t.frequency.Some? && t.frequency.value != b.frequency) then Err(Transport)
      else Ok(Settings(Some(b.frequency), None, None))
    else
      Ok(Settings(
           if t.frequency.Some? then t.frequency else Some(b.frequency),
           if t.mode.Some? then t.mode else Some(b.mode),
           if t.bitOrder.Some? then t.bitOrder else Some(b.bitOrder)))
  }

  /** What is wrong with a device and its bus, if anything. */
  function Trouble(buses: seq<BusSpec>, d: Device): Option<Code> {
    if d.bus.None? then
      if d.transport.Some? then Some(Transport) else None
    else
      var b := Find(buses, d.bus.value);
      if b.None? then Some(Lookup)
      else if d.takesBus != Some(b.value.kind) then Some(Transport)
      else
        var s := Effective(b.value, d.transport);
        if s.Err? then Some(s.error)
        else if d.limit.Some? && s.value.frequency.None? then Some(Lookup)
        else if d.limit.Some? && s.value.frequency.value > d.limit.value then Some(Transport)
        else Unapplicable(d, s.value)
  }

  /** A setting that the driver of the device cannot apply. */
  function Unapplicable(d: Device, s: Settings): Option<Code> {
    if d.fixed.Some? && d.fixed.value.frequency.Some? && s.frequency != d.fixed.value.frequency then Some(Transport)
    else if d.fixed.Some? && (if s.mode.Some? then s.mode.value else 0) != d.fixed.value.mode then Some(Transport)
    else if d.fixed.Some?
      && (if s.bitOrder.Some? then s.bitOrder.value else "msb") != d.fixed.value.bitOrder then Some(Transport)
    else if d.clockLimit.Some? && s.frequency.None? then Some(Lookup)
    else if d.clockLimit.Some? && s.frequency.value > d.clockLimit.value then Some(Transport)
    else None
  }

  /** The frames the UART adapter of a target takes. */
  predicate FrameFits(target: string, b: BusSpec) {
    b.kind == "uart" && target == "stm32g474" ==>
      b.frame.dataBits != 5 && !(b.frame.dataBits == 6 && b.frame.parity == "none")
  }

  /** The chip select of a device on an SPI bus. */
  function Select(buses: seq<BusSpec>, d: Device): Option<(string, Endpoint)> {
    if d.bus.Some? && d.cs.Some? && Find(buses, d.bus.value).Some? && Find(buses, d.bus.value).value.kind == "spi" then
      Some((d.bus.value, d.cs.value))
    else None
  }

  ghost predicate SelectsDiffer(buses: seq<BusSpec>, devices: seq<Device>) {
    forall i, j :: 0 <= i < j < |devices| && Select(buses, devices[i]).Some? ==>
      Select(buses, devices[i]) != Select(buses, devices[j])
  }

  // ---------------------------------------------------------------- controllers

  class ControllerCheck {
    const cans: nat
    var used: set<(string, nat)>
    var errors: seq<Code>

    constructor (cans: nat)
      ensures this.cans == cans && used == {} && errors == []
    {
      this.cans := cans;
      used, errors := {}, [];
    }

    /** While there are no errors, the controllers taken so far are fair and in use. */
    ghost predicate Tracks(taken: seq<(string, nat)>)
      reads this
    {
      errors == [] ==> Fair(cans, taken) && used == set x | x in taken
    }

    /** Takes one controller: it must exist and be free. */
    method Take(kind: string, index: nat, ghost taken: seq<(string, nat)>)
      requires Tracks(taken)
      modifies this
      ensures Tracks(taken + [(kind, index)])
      ensures errors == [] <==> old(errors) == [] && Fair(cans, taken + [(kind, index)])
    {
      FairNext(cans, taken, (kind, index));
      if index >= BusCount(kind, cans) || (kind, index) in used {
        errors := errors + [ControllerUse];
      } else {
        used := used + {(kind, index)};
      }
    }

    method TakeAll(list: seq<(string, nat)>, ghost taken: seq<(string, nat)>)
      requires Tracks(taken)
      modifies this
      ensures Tracks(taken + list)
      ensures errors == [] <==> old(errors) == [] && Fair(cans, taken + list)
    {
      var i := 0;
      assert taken + list[..0] == taken;
      while i < |list|
        invariant i <= |list| && Tracks(taken + list[..i])
        invariant errors == [] <==> old(errors) == [] && Fair(cans, taken + list[..i])
      {
        assert taken + list[..i + 1] == taken + list[..i] + [list[i]];
        FairNext(cans, taken + list[..i], list[i]);
        Take(list[i].0, list[i].1, taken + list[..i]);
        i := i + 1;
      }
      assert list[..i] == list;
    }

    /** Controllers of the board, of the buses and of the devices, and the addresses of the devices. */
    method Run(board: seq<(string, nat)>, buses: seq<BusSpec>, devices: seq<Device>)
      requires used == {} && errors == []
      modifies this
      ensures errors == [] <==>
                && Fair(cans, board + OfBuses(buses) + Given(devices)) && (forall d :: d in devices ==> Takes(d))
                && AddressesDiffer(devices)
    {
      hide Fair, Takes, AddressesDiffer, AddressOf;
      FairStart(cans, board + OfBuses(buses));
      TakeAll(board, []);
      assert [] + board == board;
      var list := seq(|buses|, i requires 0 <= i < |buses| => (buses[i].kind, buses[i].index));
      assert list == OfBuses(buses);
      FairPrefix(cans, board, OfBuses(buses));
      FairPrefix(cans, board + OfBuses(buses), Given(devices));
      TakeAll(list, board);
      Controllers(devices, board + OfBuses(buses));
      Addresses(devices);
    }

    method Controllers(devices: seq<Device>, ghost taken: seq<(string, nat)>)
      requires Tracks(taken)
      modifies this
      ensures errors == [] <==>
                old(errors) == [] && Fair(cans, taken + Given(devices)) && forall d :: d in devices ==> Takes(d)
    {
      hide Fair;
      var i := 0;
      assert taken + Given(devices[..0]) == taken;
      while i < |devices|
        invariant i <= |devices| && Tracks(taken + Given(devices[..i]))
        invariant errors == [] <==>
                    && old(errors) == [] && Fair(cans, taken + Given(devices[..i]))
                    && forall j :: 0 <= j < i ==> Takes(devices[j])
      {
        var d := devices[i];
        GivenNext(devices, i, taken);
        FairPrefix(cans, taken + Given(devices[..i]), Given(devices[..i + 1])[|Given(devices[..i])|..]);
        if d.controller.Some? {
          if d.takesController != Some(d.controller.value.0) {
            errors := errors + [ControllerUse];
          } else {
            Take(d.controller.value.0, d.controller.value.1, taken + Given(devices[..i]));
          }
        }
        if d.address.Some? && d.takesBus != Some("i2c") {
          errors := errors + [AddressUse];
        }
        i := i + 1;
      }
      assert devices[..i] == devices;
    }

    method Addresses(devices: seq<Device>)
      modifies this`errors
      ensures errors == [] <==> old(errors) == [] && AddressesDiffer(devices)
    {
      var addresses: set<(string, nat)> := {};
      var i := 0;
      while i < |devices|
        invariant i <= |devices|
        invariant forall x :: x in addresses <==> exists j :: 0 <= j < i && AddressOf(devices[j]) == Some(x)
        invariant errors == [] <==> old(errors) == [] && AddressesDiffer(devices[..i])
      {
        hide AddressOf;
        var some := devices[..i];
        assert devices[..i + 1] == some + [devices[i]];
        assert forall j :: 0 <= j < i ==> some[j] == devices[j];
        AddressesNext(devices, i);
        var a := AddressOf(devices[i]);
        if a.Some? {
          if a.value in addresses {
            errors := errors + [AddressUse];
          } else {
            addresses := addresses + {a.value};
          }
        }
        i := i + 1;
      }
      assert devices[..i] == devices;
    }
  }

  lemma FairStart(cans: nat, taken: seq<(string, nat)>)
    ensures Fair(cans, [])
  {
  }

  lemma FairNext(cans: nat, taken: seq<(string, nat)>, x: (string, nat))
    ensures Fair(cans, taken + [x]) <==> Fair(cans, taken) && x.1 < BusCount(x.0, cans) && x !in taken
  {
    var more := taken + [x];
    assert more[|taken|] == x && forall i :: 0 <= i < |taken| ==> more[i] == taken[i];
  }

  lemma FairPrefix(cans: nat, taken: seq<(string, nat)>, more: seq<(string, nat)>)
    ensures Fair(cans, taken + more) ==> Fair(cans, taken)
  {
    assert forall i :: 0 <= i < |taken| ==> (taken + more)[i] == taken[i];
  }

  lemma GivenNext(devices: seq<Device>, i: nat, taken: seq<(string, nat)>)
    requires i < |devices|
    ensures Given(devices[..i + 1]) ==
            Given(devices[..i]) + if devices[i].controller.Some? then [devices[i].controller.value] else []
    ensures taken + Given(devices[..i + 1]) ==
            taken + Given(devices[..i]) + if devices[i].controller.Some? then [devices[i].controller.value] else []
    ensures devices[i].controller.None? ==> taken + Given(devices[..i + 1]) == taken + Given(devices[..i])
  {
    assert devices[..i + 1][..i] == devices[..i];
  }

  lemma AddressesNext(devices: seq<Device>, i: nat)
    requires i < |devices|
    ensures AddressesDiffer(devices[..i + 1]) <==>
              AddressesDiffer(devices[..i]) &&
              forall j :: 0 <= j < i && AddressOf(devices[i]).Some? ==> AddressOf(devices[j]) != AddressOf(devices[i])
  {
    hide AddressOf;
    var some, more := devices[..i], devices[..i + 1];
    assert more[i] == devices[i] && forall j :: 0 <= j < i ==> more[j] == some[j] == devices[j];
  }

  // ---------------------------------------------------------------- transports

  /** Settings of every device on its bus, and chip selects of the SPI buses. */
  method Transports(target: string, buses: seq<BusSpec>, devices: seq<Device>)
    returns (settings: map<Path, Settings>, errors: seq<Code>)
    requires forall i, j :: 0 <= i < j < |devices| ==> devices[i].path != devices[j].path
    ensures errors == [] <==>
              && (forall i :: 0 <= i < |buses| ==> FrameFits(target, buses[i]))
              && (forall i :: 0 <= i < |devices| ==> Trouble(buses, devices[i]).None?) && SelectsDiffer(buses, devices)
    ensures errors == [] ==> forall i :: 0 <= i < |devices| ==> Runs(buses, settings, devices[i])
  {
    hide Trouble, Select, Effective, SelectsDiffer, Runs, Find, FrameFits;
    errors := FrameErrors(target, buses);
    settings := map[];
    var selects: set<(string, Endpoint)> := {};
    ghost var framed := errors == [];
    SelectsStart(buses);
    var i := 0;
    assert devices[..0] == [];
    while i < |devices|
      invariant i <= |devices|
      invariant errors == [] ==>
                  forall x :: x in selects <==> exists j :: 0 <= j < i && Select(buses, devices[j]) == Some(x)
      invariant errors == [] <==>
                  && framed && (forall j :: 0 <= j < i ==>
                                  Trouble(buses, devices[j]).None?) && SelectsDiffer(buses, devices[..i])
      invariant errors == [] ==> forall j :: 0 <= j < i ==> Runs(buses, settings, devices[j])
      invariant forall path :: path in settings ==> exists j :: 0 <= j < i && devices[j].path == path
    {
      var d := devices[i];
      SelectsNext(buses, devices, i);
      SettingsOf(buses, settings, d);
      var t := Trouble(buses, d);
      if t.Some? {
        errors := errors + [t.value];
      } else if d.bus.Some? {
        var s := Effective(Find(buses, d.bus.value).value, d.transport);
        RunsStays(buses, settings, devices, i, s.value);
        settings := settings[d.path := s.value];
        var cs := Select(buses, d);
        if cs.Some? {
          if cs.value in selects {
            errors := errors + [PinConflict];
          }
          selects := selects + {cs.value};
        }
      }
      i := i + 1;
    }
    assert devices[..i] == devices;
  }

  /** A device on a bus has its settings; one without has none. */
  ghost predicate Runs(buses: seq<BusSpec>, settings: map<Path, Settings>, d: Device) {
    if d.bus.None? then d.path !in settings
    else
      Find(buses, d.bus.value).Some? && d.path in settings
      && Effective(Find(buses, d.bus.value).value, d.transport) == Ok(settings[d.path])
  }

  lemma SettingsOf(buses: seq<BusSpec>, settings: map<Path, Settings>, d: Device)
    ensures Trouble(buses, d).None? && d.bus.Some? ==>
              && Find(buses, d.bus.value).Some? && Effective(Find(buses, d.bus.value).value, d.transport).Ok?
              && Runs(buses, settings[d.path := Effective(Find(buses, d.bus.value).value, d.transport).value], d)
    ensures d.bus.None? ==> Select(buses, d).None? && (d.path !in settings ==> Runs(buses, settings, d))
  {
    hide Effective, Find;
  }

  lemma RunsStays(buses: seq<BusSpec>, settings: map<Path, Settings>, devices: seq<Device>, i: nat, s: Settings)
    requires i < |devices| && forall i, j :: 0 <= i < j < |devices| ==> devices[i].path != devices[j].path
    ensures forall j :: 0 <= j < i && Runs(buses, settings, devices[j]) ==>
              Runs(buses, settings[devices[i].path := s], devices[j])
  {
    hide Effective, Find;
  }

  lemma SelectsStart(buses: seq<BusSpec>)
    ensures SelectsDiffer(buses, [])
  {
  }

  lemma SelectsNext(buses: seq<BusSpec>, devices: seq<Device>, i: nat)
    requires i < |devices|
    ensures SelectsDiffer(buses, devices[..i + 1]) <==>
              SelectsDiffer(buses, devices[..i]) &&
              forall j :: 0 <= j < i && Select(buses, devices[i]).Some? ==>
                Select(buses, devices[j]) != Select(buses, devices[i])
  {
    hide Select;
    var some, more := devices[..i], devices[..i + 1];
    assert more[i] == devices[i] && forall j :: 0 <= j < i ==> more[j] == some[j] == devices[j];
  }

  method FrameErrors(target: string, buses: seq<BusSpec>) returns (errors: seq<Code>)
    ensures errors == [] <==> forall i :: 0 <= i < |buses| ==> FrameFits(target, buses[i])
  {
    errors := [];
    var i := 0;
    while i < |buses|
      invariant i <= |buses|
      invariant errors == [] <==> forall j :: 0 <= j < i ==> FrameFits(target, buses[j])
    {
      if !FrameFits(target, buses[i]) {
        errors := errors + [Transport];
      }
      i := i + 1;
    }
  }

  /** Devices on one I2C bus run at one rate; every other device keeps within its limit. */
  lemma RatesAgree(buses: seq<BusSpec>, settings: map<Path, Settings>, d: Device, e: Device)
    requires Trouble(buses, d).None? && Trouble(buses, e).None? && Runs(buses, settings, d) && Runs(buses, settings, e)
    requires d.bus.Some? && d.bus == e.bus && d.takesBus == Some("i2c")
    ensures settings[d.path] == settings[e.path]
    ensures d.limit.Some? ==> settings[d.path].frequency.Some? && settings[d.path].frequency.value <= d.limit.value
  {
    assert "i2c" != "uart" by { assert "i2c"[0] != "uart"[0]; }
  }

  // ---------------------------------------------------------------- settings, said without computing them

  /** A setting is the device's own where it gives one, and the one of its bus otherwise. */
  ghost predicate OwnOrBus<T>(own: Option<T>, bus: T, got: Option<T>) {
    if own.Some? then got == own else got == Some(bus)
  }

  /**
   What a device on a bus may ask for and what it gets: nothing on a UART, the rate of the bus on I2C,
   its own choices before those of the bus on SPI.
   */
  ghost predicate Settles(b: BusSpec, transport: Option<Settings>, s: Settings) {
    var own := if transport.Some? then transport.value else NOTHING;
    if b.kind == "uart" then own == NOTHING && s == NOTHING
    else if b.kind == "i2c" then
      && own.mode.None? && own.bitOrder.None? && own.frequency in {None, Some(b.frequency)}
      && s.frequency == Some(b.frequency) && s.mode.None? && s.bitOrder.None?
    else
      && OwnOrBus(own.frequency, b.frequency, s.frequency) && OwnOrBus(own.mode, b.mode, s.mode)
      && OwnOrBus(own.bitOrder, b.bitOrder, s.bitOrder)
  }

  ghost predicate AtMost(limit: Option<nat>, frequency: Option<nat>) {
    limit.Some? ==> frequency.Some? && frequency.value <= limit.value
  }

  /** The driver of the device can apply the settings; without any, SPI runs in mode 0, high bit first. */
  ghost predicate Applicable(d: Device, s: Settings) {
    && AtMost(d.limit, s.frequency) && AtMost(d.clockLimit, s.frequency)
    && (d.fixed.Some? ==>
          && (d.fixed.value.frequency.Some? ==> s.frequency == d.fixed.value.frequency)
          && (s.mode == Some(d.fixed.value.mode) || (s.mode.None? && d.fixed.value.mode == 0))
          && (s.bitOrder == Some(d.fixed.value.bitOrder) || (s.bitOrder.None? && d.fixed.value.bitOrder == "msb")))
  }

  /**
   A device on a bus gives no trouble and runs with these settings exactly when its bus is declared, is
   of its kind and settles on them, and its driver can apply them.
   */
  lemma SettingsExactly(buses: seq<BusSpec>, d: Device, s: Settings)
    requires d.bus.Some? && forall b, c :: b in buses && c in buses && b.name == c.name ==> b == c
    ensures (Trouble(buses, d).None? && Effective(Find(buses, d.bus.value).value, d.transport) == Ok(s)) <==>
              exists b :: b in buses && b.name == d.bus.value && d.takesBus == Some(b.kind)
                          && Settles(b, d.transport, s) && Applicable(d, s)
  {
    var found := Find(buses, d.bus.value);
    hide Find;
    if found.Some? {
      SettlesIs(found.value, d.transport, s);
      ApplicableIs(d, s);
      hide Effective, Settles, Unapplicable, Applicable;
    }
  }

  lemma SettlesIs(b: BusSpec, transport: Option<Settings>, s: Settings)
    ensures Effective(b, transport) == Ok(s) <==> Settles(b, transport, s)
  {
  }

  lemma ApplicableIs(d: Device, s: Settings)
    ensures Applicable(d, s) <==> AtMost(d.limit, s.frequency) && Unapplicable(d, s).None?
  {
  }
}
