/** Which pins a net may be on, by its owner: reservations, exposed pins and what the board wires. */
module NetPins {
  import opened Outcomes
  import opened DeviceSignals
  import opened Wiring

  // ---------------------------------------------------------------- endpoints

  /** What a pin value asks for, before any check; a pin of another domain of the board is the SoC's. */
  ghost predicate AsksFor(value: PinValue, allowed: set<string>, e: Endpoint) {
    match value
    case Unconnected => false
    case OnNet(_) => false
    case Gpio(pin) => "soc-gpio" in allowed && e == Soc(pin)
    case At(BoardPin(domain, _, id)) => domain in allowed && e == Soc(id)
    case At(x) => Domain(x) in allowed && e == x
  }

  /** The target has the pin, or a present node has the device pin. */
  ghost predicate Exists(c: Context, e: Endpoint) {
    match e
    case Soc(pin) => pin in c.valid
    case DevicePin(node, index) =>
      node in c.nodes && c.nodes[node].present && c.nodes[node].pinCount.Some? && index < c.nodes[node].pinCount.value
    case BoardPin(_, _, _) => false
  }

  /** A value gives an endpoint exactly when it asks for one that exists; only net references ask for none. */
  lemma NormalizeIs(c: Context, value: PinValue, allowed: set<string>)
    ensures forall e :: Normalize(c, value, allowed) == Ok(Some(e)) <==> AsksFor(value, allowed, e) && Exists(c, e)
    ensures Normalize(c, value, allowed) == Ok(None) <==> value.Unconnected? || value.OnNet?
    ensures Normalize(c, value, allowed) == Err(Presence) <==>
              exists node, index :: AsksFor(value, allowed, DevicePin(node, index))
                                    && (node !in c.nodes || !c.nodes[node].present)
    ensures Normalize(c, value, allowed).Err? ==> Normalize(c, value, allowed).error in {Presence, PinRange}
  {
    if value.At? && value.endpoint.DevicePin? {
      assert AsksFor(value, allowed, value.endpoint) <==> "device-pin" in allowed;
    }
  }

  // ---------------------------------------------------------------- owners of nets

  /** The i-th reservation has the pin, and no later one of its strength has it. */
  ghost predicate LastWith(reservations: seq<Reserved>, hard: bool, pin: string, i: int) {
    && 0 <= i < |reservations| && Has(reservations[i], hard, pin)
    && forall j :: i < j < |reservations| ==> !Has(reservations[j], hard, pin)
  }

  ghost predicate Has(r: Reserved, hard: bool, pin: string) {
    r.hard == hard && pin in r.pins
  }

  /** The reservation that counts for a pin: the last one listed. */
  ghost predicate Reserves(c: Context, hard: bool, pin: string, r: Reserved) {
    exists i :: LastWith(c.reservations, hard, pin, i) && c.reservations[i] == r
  }

  lemma {:induction false} HolderLast(reservations: seq<Reserved>, hard: bool, pin: string) returns (i: nat)
    requires Holder(reservations, hard, pin).Some?
    ensures LastWith(reservations, hard, pin, i) && Holder(reservations, hard, pin) == Some(reservations[i])
  {
    var n := |reservations| - 1;
    i := n;
    if !Has(reservations[n], hard, pin) {
      i := HolderLast(reservations[..n], hard, pin);
      assert forall j :: 0 <= j < n ==> reservations[..n][j] == reservations[j];
    }
  }

  lemma HolderIs(c: Context, hard: bool, pin: string)
    ensures forall r :: Holder(c.reservations, hard, pin) == Some(r) <==> Reserves(c, hard, pin, r)
  {
    if Holder(c.reservations, hard, pin).Some? {
      var n := HolderLast(c.reservations, hard, pin);
      forall r | Reserves(c, hard, pin, r) ensures r == c.reservations[n] {
        var i :| LastWith(c.reservations, hard, pin, i) && c.reservations[i] == r;
        assert i == n;
      }
    }
  }

  /** The net is owned by a board device: this one. */
  ghost predicate OwnedBy(d: NetDecl, device: Path) {
    d.owner.path == device && device != [] && device[0] == "board"
  }

  ghost predicate OwnedByProject(d: NetDecl) {
    d.owner.path == [] || d.owner.path[0] != "board"
  }

  /** The owner of a net is the board device the reservation is for. */
  ghost predicate ForOwner(d: NetDecl, r: Reserved) {
    r.device.Some? && OwnedBy(d, r.device.value)
  }

  /** A hard-reserved pin is for the board device of its reservation alone. */
  ghost predicate HardKept(c: Context, d: NetDecl, pin: string) {
    forall r :: Reserves(c, true, pin, r) ==> ForOwner(d, r)
  }

  /** A soft-reserved pin is for its board device, or released. */
  ghost predicate SoftKept(c: Context, d: NetDecl, pin: string) {
    forall r :: Reserves(c, false, pin, r) ==> r.key in c.released || ForOwner(d, r)
  }

  /**
   The owner reaches the pin: the board brings it out, or the board wires it to the device that owns
   the net, or to a signal of the name of the project signal that does.
   */
  ghost predicate Reachable(c: Context, wired: map<Endpoint, Signal>, d: NetDecl, pin: string) {
    || pin in c.exposed
    || exists s :: Soc(pin) in wired && wired[Soc(pin)] == s
                   && (OwnedBy(d, s.path) || (OwnedByProject(d) && d.owner.name == s.name))
  }

  ghost predicate HardReserved(c: Context, pin: string) {
    exists r :: Reserves(c, true, pin, r)
  }

  /** What is reported for the pin of a net, in the order of the checks, and when nothing is. */
  lemma NetPinIs(c: Context, wired: map<Endpoint, Signal>, d: NetDecl, pin: string)
    ensures var r := Refused(c, wired, Soc(pin), BoardOwner(d), Some(d.owner.name));
            && (r == Some(Reservation) <==>
                  !HardKept(c, d, pin) || (!HardReserved(c, pin) && !SoftKept(c, d, pin)))
            && (r == Some(PinRange) <==>
                  !HardReserved(c, pin) && SoftKept(c, d, pin) && !Reachable(c, wired, d, pin))
            && (r == None <==>
                  && HardKept(c, d, pin)
                  && (!HardReserved(c, pin) ==> SoftKept(c, d, pin) && Reachable(c, wired, d, pin)))
  {
    HolderIs(c, true, pin);
    HolderIs(c, false, pin);
    hide Reserves, Holder;
    var hard, soft := Holder(c.reservations, true, pin), Holder(c.reservations, false, pin);
    assert hard.Some? ==> Reserves(c, true, pin, hard.value);
    assert soft.Some? ==> Reserves(c, false, pin, soft.value);
    ForOwnerIs(d);
    assert hard.Some? ==> (HardKept(c, d, pin) <==> ForOwner(d, hard.value));
    assert soft.Some? ==> (SoftKept(c, d, pin) <==> soft.value.key in c.released || ForOwner(d, soft.value));
    hide ForOwner;
  }

  lemma ForOwnerIs(d: NetDecl)
    ensures forall r: Reserved :: ForOwner(d, r) <==> BoardOwner(d).Some? && BoardOwner(d) == r.device
  {
  }

  /**
   Nets of a legal assembly: on a hard-reserved pin the owner is the device of the reservation; on any
   other the soft reservation is released or for the owner, and a pin the board does not bring out is
   wired to the owner, or to a signal of the name of the project signal that owns the net.
   */
  lemma NetPinsAreReachable(c: Context, wired: map<Endpoint, Signal>, p: Plan, d: NetDecl, pin: string)
    requires Legal(c, wired, p) && d in p.nets && AsksFor(d.value, NET_DOMAINS, Soc(pin))
    ensures pin in c.valid && HardKept(c, d, pin)
    ensures !HardReserved(c, pin) ==> SoftKept(c, d, pin) && Reachable(c, wired, d, pin)
  {
    assert NetFits(c, wired, d) by {
      hide NetFits, Exclusive, BusFits, SiteFits;
    }
    hide Legal, Refused, HardKept, SoftKept, Reachable, HardReserved;
    NormalizeIs(c, d.value, NET_DOMAINS);
    NetPinIs(c, wired, d, pin);
  }

  /** A net is usable exactly when its endpoint exists, if it has one, and its owner may have the pin. */
  lemma NetFitsExactly(c: Context, wired: map<Endpoint, Signal>, d: NetDecl)
    ensures NetFits(c, wired, d) <==>
              || d.value.Unconnected? || d.value.OnNet?
              || exists e :: AsksFor(d.value, NET_DOMAINS, e) && Exists(c, e) && (e.Soc? ==>
                   && HardKept(c, d, e.pin)
                   && (!HardReserved(c, e.pin) ==> SoftKept(c, d, e.pin) && Reachable(c, wired, d, e.pin)))
  {
    NormalizeIs(c, d.value, NET_DOMAINS);
    hide Normalize, HardKept, SoftKept, Reachable, HardReserved, AsksFor, Exists;
    var e := Normalize(c, d.value, NET_DOMAINS);
    if e.Ok? && e.value.Some? && e.value.value.Soc? {
      NetPinIs(c, wired, d, e.value.value.pin);
    }
  }

  // ---------------------------------------------------------------- the pin of an LED

  /** A board whose pin GP16 is not brought out and goes to the data input of an addressable LED. */
  ghost function OnePixel(released: set<string>): Context {
    Context(map[], {"GP16"}, {}, [Reserved("pixel", false, Some(["board", "pixel"]), ["GP16"])], released, {})
  }

  /**
   With its reservation released, a net there may be owned by the LED or by a project signal `data`,
   and not by the `out` of an output; the release alone does not make the pin reachable.
   */
  lemma PixelTakesData(owner: Path, name: string)
    requires owner == [] || owner[0] != "board"
    ensures var c, wired := OnePixel({"pixel"}), map[Soc("GP16") := Signal(["board", "pixel"], "data")];
            var d := NetDecl("n", Gpio("GP16"), Signal(owner, name));
            && (Refused(c, wired, Soc("GP16"), BoardOwner(d), Some(name)) == None <==> name == "data")
            && (name != "data" ==> Refused(c, wired, Soc("GP16"), BoardOwner(d), Some(name)) == Some(PinRange))
            && Refused(OnePixel({}), wired, Soc("GP16"), BoardOwner(d), Some(name)) == Some(Reservation)
  {
    var pixel := Reserved("pixel", false, Some(["board", "pixel"]), ["GP16"]);
    var c, wired := OnePixel({"pixel"}), map[Soc("GP16") := Signal(["board", "pixel"], "data")];
    assert "GP16" in pixel.pins;
    assert Holder([pixel], false, "GP16") == Some(pixel) && Holder([pixel], true, "GP16").None?;
  }
}
