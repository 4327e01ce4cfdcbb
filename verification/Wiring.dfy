/**
 Allocation of physical endpoints: reservations and exposed pins, board claims, bus lines, nets and
 directly wired signals.
 */
module Wiring {
  import opened Outcomes
  import opened DeviceSignals

  // ---------------------------------------------------------------- the board

  /** A board reservation: hard or soft, its pins, and the board device that owns it, if any. */
  datatype Reserved = Reserved(key: string, hard: bool, device: Option<Path>, pins: seq<string>)

  datatype Context = Context(
    nodes: Nodes,
    valid: set<string>,          // pins of the target
    exposed: set<string>,        // pins the board brings out
    reservations: seq<Reserved>,
    released: set<string>,       // soft reservations the assembly releases
    zero: set<string>)           // pins the HAL encodes as 0

  /** The last listed reservation of a strength with a pin: what a dictionary by pin keeps. */
  function Holder(reservations: seq<Reserved>, hard: bool, pin: string): (r: Option<Reserved>)
    ensures r.Some? ==> r.value in reservations && r.value.hard == hard && pin in r.value.pins
    ensures r.None? ==> forall i :: 0 <= i < |reservations| && reservations[i].hard == hard ==>
              pin !in reservations[i].pins
  {
    if reservations == [] then None
    else
      var n := |reservations| - 1;
      assert forall i :: 0 <= i < n ==> reservations[..n][i] == reservations[i];
      if reservations[n].hard == hard && pin in reservations[n].pins then Some(reservations[n])
      else Holder(reservations[..n], hard, pin)
  }

  function Domain(e: Endpoint): string {
    match e
    case Soc(_) => "soc-gpio"
    case DevicePin(_, _) => "device-pin"
    case BoardPin(domain, _, _) => domain
  }

  /** The explicit endpoint of a pin, after domain, range and namespace checks. */
  function Normalize(c: Context, value: PinValue, allowed: set<string>): Result<Option<Endpoint>, Code> {
    match value
    case Unconnected => Ok(None)
    case OnNet(_) => Ok(None)
    case Gpio(pin) => NormalizeAt(c, Soc(pin), allowed)
    case At(e) => NormalizeAt(c, e, allowed)
  }

  function NormalizeAt(c: Context, e: Endpoint, allowed: set<string>): Result<Option<Endpoint>, Code> {
    if Domain(e) !in allowed then Err(PinRange)
    else
      match e
      case DevicePin(node, index) =>
        if node !in c.nodes || !c.nodes[node].present then Err(Presence)
        else if c.nodes[node].pinCount.None? || index >= c.nodes[node].pinCount.value then Err(PinRange)
        else Ok(Some(e))
      case Soc(pin) => if pin !in c.valid then Err(PinRange) else Ok(Some(Soc(pin)))
      case BoardPin(_, _, id) => if id !in c.valid then Err(PinRange) else Ok(Some(Soc(id)))
  }

  /**
   Why an endpoint cannot be used, if it cannot: hard reservation, then soft reservation, then
   exposure. `boardOwner` is the board device that owns the net there, `ownerSignal` the signal of
   the net's owner; a bus line or a direct signal has neither.
   */
  function Refused(c: Context, wired: map<Endpoint, Signal>, e: Endpoint, boardOwner: Option<Path>,
                   ownerSignal: Option<string>): Option<Code>
  {
    if !e.Soc? then None
    else
      var hard, soft := Holder(c.reservations, true, e.pin), Holder(c.reservations, false, e.pin);
      if hard.Some? then
        if boardOwner.None? || boardOwner != hard.value.device then Some(Reservation) else None
      else if soft.Some? && soft.value.key !in c.released && (boardOwner.None? || boardOwner != soft.value.device) then
        Some(Reservation)
      else if e.pin in c.exposed then None
      else if e !in wired then Some(PinRange)
      else if boardOwner == Some(wired[e].path) || (boardOwner.None? && ownerSignal == Some(wired[e].name)) then None
      else Some(PinRange)
  }

  /** What is reported for the pin of a user that may not share: its form, its use, or a conflict. */
  function TakeProblems(c: Context, wired: map<Endpoint, Signal>, claims: map<Endpoint, Claim>, value: PinValue,
                        allowed: set<string>): seq<Code>
  {
    var e := Normalize(c, value, allowed);
    if e.Err? then [e.error]
    else if e.value.None? then []
    else if Refused(c, wired, e.value.value, None, None).Some? then [Refused(c, wired, e.value.value, None, None).value]
    else if e.value.value in claims then [PinConflict]
    else []
  }

  // ---------------------------------------------------------------- users of endpoints

  datatype User =
    | BoardUse(signal: Signal)           // a board device or a clock source
    | BusLine(bus: string, line: string)
    | NetUse(net: string)
    | SiteUse(site: Signal)

  datatype Claim = Claim(user: User, net: Option<string>, board: bool)

  datatype Bus = Bus(name: string, kind: string, lines: seq<(string, PinValue)>)

  datatype NetDecl = NetDecl(name: string, value: PinValue, owner: Signal)

  /** A net with its endpoint, its owner and the signal the board wires there. */
  datatype Net = Net(endpoint: Endpoint, owner: Signal, board: Option<Signal>)

  function RequiredLines(kind: string): set<string> {
    if kind == "spi" then {"sck", "mosi", "miso"} else if kind == "i2c" then {"sda", "scl"} else {"tx", "rx"}
  }

  function OptionalLines(kind: string): set<string> {
    if kind == "uart" then {"cts", "rts"} else {}
  }

  function LineNames(bus: Bus): set<string> {
    set i | 0 <= i < |bus.lines| :: bus.lines[i].0
  }

  /** What an assembly asks for: its buses, its nets and the pins its signals were assigned. */
  datatype Plan = Plan(buses: seq<Bus>, nets: seq<NetDecl>, pins: map<Signal, Assignment>)

  // ---------------------------------------------------------------- what is asked for

  function BoardOwner(d: NetDecl): Option<Path> {
    if d.owner.path != [] && d.owner.path[0] == "board" then Some(d.owner.path) else None
  }

  ghost const NET_DOMAINS := {"soc-gpio", "device-pin"}

  /** A direct site: the pin is given for the signal itself, and not as a net. */
  predicate Direct(pins: map<Signal, Assignment>, k: Signal) {
    k in pins && !pins[k].value.OnNet? && pins[k].site == Some(k)
  }

  function Domains(nodes: Nodes, k: Signal): set<string> {
    if k.path in nodes && k.name in nodes[k.path].domains then nodes[k.path].domains[k.name] else {}
  }

  ghost predicate LineAt(c: Context, b: Bus, line: string, e: Endpoint) {
    exists i :: 0 <= i < |b.lines| && b.lines[i].0 == line && Normalize(c, b.lines[i].1, {"soc-gpio"}) == Ok(Some(e))
  }

  /** The user asks for the endpoint. */
  ghost predicate Uses(c: Context, p: Plan, u: User, e: Endpoint) {
    match u
    case BoardUse(_) => false
    case BusLine(bus, line) => exists i :: 0 <= i < |p.buses| && p.buses[i].name == bus
                                           && LineAt(c, p.buses[i], line, e)
    case NetUse(net) => exists i :: 0 <= i < |p.nets| && NetAt(c, p.nets[i], net, e)
    case SiteUse(k) => Direct(p.pins, k) && Normalize(c, p.pins[k].value, Domains(c.nodes, k)) == Ok(Some(e))
  }

  /** Only nets share an endpoint with the board, and nothing else is shared. */
  ghost predicate Exclusive(c: Context, wired: map<Endpoint, Signal>, p: Plan) {
    && (forall u, e :: Uses(c, p, u, e) && e in wired ==> u.NetUse?)
    && (forall u, v, e :: Uses(c, p, u, e) && Uses(c, p, v, e) && e !in wired ==> u == v)
  }

  /** A pin of a user that may not share is well formed and usable. */
  ghost predicate Fits(c: Context, wired: map<Endpoint, Signal>, value: PinValue, allowed: set<string>) {
    && Normalize(c, value, allowed).Ok?
    && var e := Normalize(c, value, allowed).value;
       e.Some? ==> Refused(c, wired, e.value, None, None).None?
  }

  ghost predicate BusFits(c: Context, wired: map<Endpoint, Signal>, b: Bus) {
    && RequiredLines(b.kind) <= LineNames(b) <= RequiredLines(b.kind) + OptionalLines(b.kind)
    && forall i :: 0 <= i < |b.lines| ==> !b.lines[i].1.OnNet? && Fits(c, wired, b.lines[i].1, {"soc-gpio"})
  }

  ghost predicate NetFits(c: Context, wired: map<Endpoint, Signal>, d: NetDecl) {
    && Normalize(c, d.value, NET_DOMAINS).Ok?
    && var e := Normalize(c, d.value, NET_DOMAINS).value;
       e.Some? ==> Refused(c, wired, e.value, BoardOwner(d), Some(d.owner.name)).None?
  }

  ghost predicate SiteFits(c: Context, wired: map<Endpoint, Signal>, pins: map<Signal, Assignment>, k: Signal) {
    Direct(pins, k) ==> Fits(c, wired, pins[k].value, Domains(c.nodes, k))
  }

  /** Everything asked for is usable and nothing collides. */
  ghost predicate Legal(c: Context, wired: map<Endpoint, Signal>, p: Plan) {
    && Exclusive(c, wired, p)
    && (forall i :: 0 <= i < |p.buses| ==> BusFits(c, wired, p.buses[i]))
    && (forall i :: 0 <= i < |p.nets| ==> NetFits(c, wired, p.nets[i]))
    && (forall k :: k in p.pins ==> SiteFits(c, wired, p.pins, k))
  }

  /** Names are unique, as keys of dictionaries are. */
  ghost predicate Keyed(p: Plan) {
    && (forall i, j :: 0 <= i < j < |p.buses| ==> p.buses[i].name != p.buses[j].name)
    && (forall b :: b in p.buses ==> KeyedLines(b))
    && (forall i, j :: 0 <= i < j < |p.nets| ==> p.nets[i].name != p.nets[j].name)
  }

  ghost predicate KeyedLines(b: Bus) {
    forall i, j :: 0 <= i < j < |b.lines| ==> b.lines[i].0 != b.lines[j].0
  }

  // ---------------------------------------------------------------- what the claims say

  ghost predicate Grows(before: map<Endpoint, Claim>, after: map<Endpoint, Claim>) {
    forall e :: e in before ==> e in after && after[e] == before[e]
  }

  /**
   The board's claims are what it wires; every other claim is of a user seen so far, for an endpoint
   it asked for, and names a net exactly for a net.
   */
  ghost predicate Orderly(c: Context, wired: map<Endpoint, Signal>, p: Plan, claims: map<Endpoint, Claim>,
                          seen: iset<User>) {
    && (forall e :: e in wired <==> e in claims && claims[e].board)
    && (forall e :: e in claims && claims[e].board ==> claims[e].net.None?)
    && (forall e :: e in claims && !claims[e].board ==>
          && claims[e].user in seen && Uses(c, p, claims[e].user, e)
          && claims[e].net == if claims[e].user.NetUse? then Some(claims[e].user.net) else None)
  }

  /** The claim of an endpoint is this user's. */
  ghost predicate Holds(claims: map<Endpoint, Claim>, u: User, e: Endpoint) {
    e in claims && !claims[e].board && claims[e].user == u
  }

  /** Everything a user asked for is its own claim; a net may instead be on an endpoint of the board. */
  ghost predicate Served(c: Context, wired: map<Endpoint, Signal>, p: Plan, claims: map<Endpoint, Claim>, u: User) {
    forall e :: Uses(c, p, u, e) ==> Holds(claims, u, e) || (u.NetUse? && e in wired)
  }

  lemma ServedStays(c: Context, wired: map<Endpoint, Signal>, p: Plan, before: map<Endpoint, Claim>,
                    after: map<Endpoint, Claim>)
    requires Grows(before, after)
    ensures forall u :: Served(c, wired, p, before, u) ==> Served(c, wired, p, after, u)
  {
    hide Uses;
  }

  lemma OrderlyWidens(c: Context, wired: map<Endpoint, Signal>, p: Plan, claims: map<Endpoint, Claim>,
                      seen: iset<User>, more: iset<User>)
    requires Orderly(c, wired, p, claims, seen) && seen <= more
    ensures Orderly(c, wired, p, claims, more)
  {
    hide Uses;
  }

  /** A claim on a free endpoint keeps the claims in order. */
  lemma OrderlyClaims(c: Context, wired: map<Endpoint, Signal>, p: Plan, claims: map<Endpoint, Claim>, seen: iset<User>,
                      u: User, e: Endpoint)
    requires Orderly(c, wired, p, claims, seen) && e !in claims && Uses(c, p, u, e)
    ensures Orderly(c, wired, p, claims[e := Claim(u, if u.NetUse? then Some(u.net) else None, false)], seen + iset{u})
  {
    hide Uses;
  }

  /** Where nothing collides, a user not seen before finds its endpoint free or the board's. */
  lemma FindsFree(c: Context, wired: map<Endpoint, Signal>, p: Plan, claims: map<Endpoint, Claim>, seen: iset<User>,
                  u: User, e: Endpoint)
    requires Orderly(c, wired, p, claims, seen) && u !in seen && Uses(c, p, u, e) && Exclusive(c, wired, p)
    ensures e !in claims || (u.NetUse? && claims[e].board)
  {
    hide Uses;
  }

  /** When every user is served, nothing collides. */
  lemma ServedIsExclusive(c: Context, wired: map<Endpoint, Signal>, p: Plan, claims: map<Endpoint, Claim>,
                          seen: iset<User>)
    requires Orderly(c, wired, p, claims, seen) && forall u :: Served(c, wired, p, claims, u)
    ensures Exclusive(c, wired, p)
  {
    hide Uses;
    forall u, e | Uses(c, p, u, e) ensures Holds(claims, u, e) || (u.NetUse? && e in wired) {
      assert Served(c, wired, p, claims, u);
    }
  }

  // ---------------------------------------------------------------- endpoints of signals

  /** What the signal phase leaves: sites are signals too and give their value to all they feed. */
  ghost predicate Coherent(pins: map<Signal, Assignment>) {
    forall k :: k in pins ==>
      if pins[k].site.None? then pins[k].value.Unconnected?
      else
        var s := pins[k].site.value;
        s in pins && pins[s].value == pins[k].value && (pins[s].site == Some(s) || pins[s].site.None?)
  }

  /** The nets that have an endpoint. */
  ghost predicate NetsAre(c: Context, wired: map<Endpoint, Signal>, decls: seq<NetDecl>, nets: map<string, Net>) {
    && (forall i :: 0 <= i < |decls| ==> NetGiven(c, wired, decls[i], nets))
    && (forall n :: n in nets ==> exists i :: 0 <= i < |decls| && NetAt(c, decls[i], n, nets[n].endpoint))
  }

  /** The net with this name has this endpoint. */
  ghost predicate NetAt(c: Context, d: NetDecl, name: string, e: Endpoint) {
    d.name == name && Normalize(c, d.value, NET_DOMAINS) == Ok(Some(e))
  }

  ghost predicate NetGiven(c: Context, wired: map<Endpoint, Signal>, d: NetDecl, nets: map<string, Net>) {
    forall e :: NetAt(c, d, d.name, e) ==>
      d.name in nets && nets[d.name] == Net(e, d.owner, if e in wired then Some(wired[e]) else None)
  }

  /** The endpoint a signal ends up with: that of its net, or that of its site. */
  ghost function Final(c: Context, nets: map<string, Net>, a: Assignment): Option<Endpoint> {
    if a.value.OnNet? then
      if a.value.net in nets then Some(nets[a.value.net].endpoint) else None
    else if a.site.None? then None
    else
      var e := Normalize(c, a.value, Domains(c.nodes, a.site.value));
      if e.Ok? then e.value else None
  }

  predicate InNet(nets: map<string, Net>, pins: map<Signal, Assignment>, k: Signal) {
    k in pins && pins[k].value.OnNet? && pins[k].value.net in nets
  }

  /** The signals looked at so far have their endpoints and nets. */
  ghost predicate Resolves(c: Context, nets: map<string, Net>, pins: map<Signal, Assignment>, keys: seq<Signal>,
                           endpoints: map<Signal, Option<Endpoint>>, netOf: map<Signal, string>) {
    && (forall k :: k in endpoints ==> k in pins && endpoints[k] == Final(c, nets, pins[k]))
    && (forall k :: k in keys && (InNet(nets, pins, k) || Direct(pins, k)) ==> k in endpoints)
    && (forall k :: k in netOf <==> k in keys && InNet(nets, pins, k))
    && (forall k :: k in netOf ==> netOf[k] == pins[k].value.net && k in endpoints)
  }

  lemma ResolvesStart(c: Context, nets: map<string, Net>, pins: map<Signal, Assignment>)
    ensures Resolves(c, nets, pins, [], map[], map[])
  {
  }

  lemma ResolvesNext(c: Context, nets: map<string, Net>, pins: map<Signal, Assignment>, keys: seq<Signal>,
                     endpoints: map<Signal, Option<Endpoint>>, netOf: map<Signal, string>, k: Signal)
    requires Resolves(c, nets, pins, keys, endpoints, netOf) && k in pins
    ensures InNet(nets, pins, k) ==>
              var n := pins[k].value.net;
              Resolves(c, nets, pins, keys + [k], endpoints[k := Some(nets[n].endpoint)], netOf[k := n])
    ensures !InNet(nets, pins, k) ==>
              Resolves(c, nets, pins, keys + [k], endpoints[k := Final(c, nets, pins[k])], netOf)
    ensures !InNet(nets, pins, k) && !Direct(pins, k) ==> Resolves(c, nets, pins, keys + [k], endpoints, netOf)
  {
    assert InNet(nets, pins, k) ==> Final(c, nets, pins[k]) == Some(nets[pins[k].value.net].endpoint);
    hide Normalize, Domains, Final;
    assert forall j :: j in keys + [k] <==> j in keys || j == k;
  }

  // ---------------------------------------------------------------- the check

  class WiringCheck {
    const c: Context
    var claims: map<Endpoint, Claim>
    var wired: map<Endpoint, Signal>     // endpoints of the board and what it wires there
    var nets: map<string, Net>
    var errors: seq<Code>

    constructor (c: Context)
      ensures this.c == c && claims == map[] && wired == map[] && nets == map[] && errors == []
    {
      this.c := c;
      claims, wired, nets, errors := map[], map[], map[], [];
    }

    /** Claims an endpoint for a board device or a clock source; an earlier claim stays. */
    method ClaimForBoard(e: Endpoint, signal: Signal)
      modifies this`claims, this`wired
      ensures claims == if e in old(claims) then old(claims) else old(claims)[e := Claim(BoardUse(signal), None, true)]
      ensures wired == if e in old(claims) then old(wired) else old(wired)[e := signal]
    {
      if e !in claims {
        claims := claims[e := Claim(BoardUse(signal), None, true)];
        wired := wired[e := signal];
      }
    }

    /** Claims an endpoint; a net may join itself or the board, anything else is a conflict. */
    method ClaimFor(e: Endpoint, user: User, net: Option<string>)
      modifies this`claims, this`errors
      ensures e !in old(claims) ==> claims == old(claims)[e := Claim(user, net, false)] && errors == old(errors)
      ensures e in old(claims) ==> claims == old(claims)
      ensures e in old(claims) ==>
                errors == if net.Some? && (old(claims)[e].net == net || old(claims)[e].board) then old(errors)
                          else old(errors) + [PinConflict]
    {
      if e !in claims {
        claims := claims[e := Claim(user, net, false)];
        return;
      }
      if net.Some? && (claims[e].net == net || claims[e].board) {
        return;
      }
      errors := errors + [PinConflict];
    }

    /** Board devices and the selected clock sources claim their endpoints first. */
    method BoardClaims(uses: seq<(Endpoint, Signal)>, ghost p: Plan)
      requires claims == map[] && wired == map[]
      modifies this`claims, this`wired
      ensures FirstUses(uses, wired) && Orderly(c, wired, p, claims, iset{})
    {
      var i := 0;
      while i < |uses|
        invariant i <= |uses|
        invariant claims.Keys == wired.Keys && FirstUses(uses[..i], wired)
        invariant forall e :: e in claims ==> claims[e].board && claims[e].net.None?
      {
        FirstUsesNext(uses, i, wired);
        ClaimForBoard(uses[i].0, uses[i].1);
        i := i + 1;
      }
      assert uses[..i] == uses;
    }

    /** Checks and claims the pin of a user that may not share. */
    method Take(user: User, value: PinValue, allowed: set<string>, ghost p: Plan, ghost seen: iset<User>)
      returns (e: Option<Endpoint>)
      requires Orderly(c, wired, p, claims, seen) && user !in seen && !user.NetUse?
      requires forall e :: Normalize(c, value, allowed) == Ok(Some(e)) <==> Uses(c, p, user, e)
      modifies this`claims, this`errors
      ensures errors == old(errors) + TakeProblems(c, wired, old(claims), value, allowed)
      ensures Orderly(c, wired, p, claims, seen + iset{user})
      ensures Grows(old(claims), claims) && old(errors) <= errors
      ensures errors == [] ==> Fits(c, wired, value, allowed) && Served(c, wired, p, claims, user)
      ensures errors == [] ==> Normalize(c, value, allowed) == Ok(e)
      ensures old(errors) == [] && Exclusive(c, wired, p) && Fits(c, wired, value, allowed) ==> errors == []
    {
      hide Normalize, Refused, Uses, Orderly, Exclusive;
      OrderlyWidens(c, wired, p, claims, seen, seen + iset{user});
      var n := Normalize(c, value, allowed);
      if n.Err? {
        errors := errors + [n.error];
        return None;
      }
      e := n.value;
      if e.Some? {
        var refused := Refused(c, wired, e.value, None, None);
        if refused.Some? {
          errors := errors + [refused.value];
        } else {
          if Exclusive(c, wired, p) {
            FindsFree(c, wired, p, claims, seen, user, e.value);
          }
          if e.value !in claims {
            OrderlyClaims(c, wired, p, claims, seen, user, e.value);
          }
          ClaimFor(e.value, user, None);
        }
      }
    }

    method Buses(ghost p: Plan, buses: seq<Bus>)
      requires Keyed(p) && buses == p.buses && Orderly(c, wired, p, claims, iset{})
      modifies this`claims, this`errors
      ensures Orderly(c, wired, p, claims, iset u: User | u.BusLine?)
      ensures Grows(old(claims), claims) && old(errors) <= errors
      ensures errors == [] ==> BusesDone(c, wired, p, claims, |buses|)
      ensures old(errors) == [] && Legal(c, wired, p) ==> errors == []
    {
      hide Orderly, BusFits, Served, Exclusive, NetFits, SiteFits, Uses, Fits;
      var i := 0;
      OrderlyWidens(c, wired, p, claims, iset{}, BusesSeen(p, 0));
      while i < |buses|
        invariant i <= |buses| && Grows(old(claims), claims) && old(errors) <= errors
        invariant Orderly(c, wired, p, claims, BusesSeen(p, i))
        invariant errors == [] ==> BusesDone(c, wired, p, claims, i)
        invariant old(errors) == [] && Legal(c, wired, p) ==> errors == []
      {
        ghost var before := claims;
        assert buses[i] in p.buses;
        OneBus(p, i, buses[i], BusesSeen(p, i));
        OrderlyWidens(c, wired, p, claims, BusesSeen(p, i) + OfBus(buses[i]), BusesSeen(p, i + 1));
        ServedStays(c, wired, p, before, claims);
        i := i + 1;
      }
      OrderlyWidens(c, wired, p, claims, BusesSeen(p, i), iset u: User | u.BusLine?);
    }

    method OneBus(ghost p: Plan, ghost n: nat, b: Bus, ghost seen: iset<User>)
      requires Keyed(p) && n < |p.buses| && p.buses[n] == b
      requires Orderly(c, wired, p, claims, seen) && forall u :: u in seen ==> u !in OfBus(b)
      modifies this`claims, this`errors
      ensures Orderly(c, wired, p, claims, seen + OfBus(b))
      ensures Grows(old(claims), claims) && old(errors) <= errors
      ensures errors == [] ==> BusFits(c, wired, b) && forall u :: u in OfBus(b) ==> Served(c, wired, p, claims, u)
      ensures old(errors) == [] && Exclusive(c, wired, p) && BusFits(c, wired, b) ==> errors == []
    {
      hide Fits, Orderly, Served, Exclusive, Normalize, Uses, TakeProblems;
      var required, optional := RequiredLines(b.kind), OptionalLines(b.kind);
      if !(LineNames(b) <= required + optional) || !(required <= LineNames(b)) {
        errors := errors + [Transport];
      }
      ghost var start := errors;
      var i := 0;
      OrderlyWidens(c, wired, p, claims, seen, seen + LinesSeen(b, 0));
      while i < |b.lines|
        invariant i <= |b.lines| && Grows(old(claims), claims) && start <= errors && old(errors) <= errors
        invariant Orderly(c, wired, p, claims, seen + LinesSeen(b, i))
        invariant errors == [] ==> LinesDone(c, wired, p, claims, b, i)
        invariant old(errors) == [] && Exclusive(c, wired, p) && BusFits(c, wired, b) ==> errors == []
      {
        ghost var before := claims;
        ghost var user := BusLine(b.name, b.lines[i].0);
        LineUse(c, p, n, i);
        LinesSeenNext(b, i);
        assert seen + LinesSeen(b, i) + iset{user} == seen + LinesSeen(b, i + 1);
        if b.lines[i].1.OnNet? {
          errors := errors + [NetOwner];
          OrderlyWidens(c, wired, p, claims, seen + LinesSeen(b, i), seen + LinesSeen(b, i + 1));
        } else {
          var e := Take(BusLine(b.name, b.lines[i].0), b.lines[i].1, {"soc-gpio"}, p, seen + LinesSeen(b, i));
          ServedStays(c, wired, p, before, claims);
        }
        i := i + 1;
      }
      OrderlyWidens(c, wired, p, claims, seen + LinesSeen(b, i), seen + OfBus(b));
      if errors == [] {
        LinesServe(c, wired, p, claims, n);
      }
    }

    method NetEndpoints(ghost p: Plan, decls: seq<NetDecl>)
      requires Keyed(p) && decls == p.nets && nets == map[] && Orderly(c, wired, p, claims, NetsSeen(p, 0))
      modifies this`claims, this`errors, this`nets
      ensures Orderly(c, wired, p, claims, NetsSeen(p, |decls|))
      ensures Grows(old(claims), claims) && old(errors) <= errors
      ensures forall n :: n in nets ==> exists i :: 0 <= i < |decls| && decls[i].name == n
      ensures errors == [] ==> NetsDone(c, wired, p, claims, |decls|) && NetsAre(c, wired, decls, nets)
      ensures old(errors) == [] && Legal(c, wired, p) ==> errors == []
    {
      hide Orderly, Served, Exclusive, NetFits, NetsAre, Uses, BusFits, SiteFits, Fits;
      var i := 0;
      assert decls[..0] == [] && NetsAre(c, wired, decls[..0], map[]) by { NetsStart(c, wired); }
      while i < |decls|
        invariant i <= |decls| && Grows(old(claims), claims) && old(errors) <= errors
        invariant Orderly(c, wired, p, claims, NetsSeen(p, i))
        invariant forall n :: n in nets ==> exists j :: 0 <= j < i && decls[j].name == n
        invariant errors == [] ==> NetsDone(c, wired, p, claims, i) && NetsAre(c, wired, decls[..i], nets)
        invariant old(errors) == [] && Legal(c, wired, p) ==> errors == []
      {
        ghost var before, known := claims, nets;
        OneNet(p, i, decls[i], NetsSeen(p, i));
        assert NetsSeen(p, i) + iset{NetUse(decls[i].name)} == NetsSeen(p, i + 1);
        ServedStays(c, wired, p, before, claims);
        if errors == [] {
          NetsAreNext(c, wired, decls, i, known);
        }
        i := i + 1;
      }
      assert decls[..i] == decls;
    }

    method OneNet(ghost p: Plan, ghost n: nat, d: NetDecl, ghost seen: iset<User>)
      requires Keyed(p) && n < |p.nets| && p.nets[n] == d
      requires Orderly(c, wired, p, claims, seen) && NetUse(d.name) !in seen
      modifies this`claims, this`errors, this`nets
      ensures Orderly(c, wired, p, claims, seen + iset{NetUse(d.name)})
      ensures Grows(old(claims), claims) && old(errors) <= errors
      ensures errors == [] ==> NetFits(c, wired, d) && Served(c, wired, p, claims, NetUse(d.name))
      ensures errors == [] ==> nets == NetAdded(c, wired, d, old(nets))
      ensures forall n :: n in nets ==> n in old(nets) || n == d.name
      ensures old(errors) == [] && Exclusive(c, wired, p) && NetFits(c, wired, d) ==> errors == []
    {
      hide Normalize, Refused, Uses, Orderly, Exclusive;
      ghost var u := NetUse(d.name);
      NetUseIs(c, p, n);
      OrderlyWidens(c, wired, p, claims, seen, seen + iset{u});
      var point := Normalize(c, d.value, {"soc-gpio", "device-pin"});
      if point.Err? {
        errors := errors + [point.error];
        return;
      }
      if point.value.None? {
        return;
      }
      var e := point.value.value;
      var refused := Refused(c, wired, e, BoardOwner(d), Some(d.owner.name));
      if refused.Some? {
        errors := errors + [refused.value];
        return;
      }
      nets := nets[d.name := Net(e, d.owner, if e in wired then Some(wired[e]) else None)];
      if Exclusive(c, wired, p) {
        FindsFree(c, wired, p, claims, seen, u, e);
      }
      if e !in claims {
        OrderlyClaims(c, wired, p, claims, seen, u, e);
      } else {
        JoinsBoard(c, wired, p, claims, seen, d.name, e);
      }
      ClaimFor(e, NetUse(d.name), Some(d.name));
    }

    /** Endpoints of the signals wired directly, and of the members of nets. */
    method NodeEndpoints(ghost p: Plan, keys: seq<Signal>, pins: map<Signal, Assignment>)
      returns (endpoints: map<Signal, Option<Endpoint>>, netOf: map<Signal, string>)
      requires pins == p.pins && (forall k :: k in keys <==> k in pins) && Once(keys)
      requires Orderly(c, wired, p, claims, SitesSeen(keys, 0))
      modifies this`claims, this`errors
      ensures exists seen :: Orderly(c, wired, p, claims, seen)
      ensures Grows(old(claims), claims) && old(errors) <= errors
      ensures errors == [] ==> forall k :: k in pins ==>
                SiteFits(c, wired, pins, k) && Served(c, wired, p, claims, SiteUse(k))
      ensures errors == [] ==> Resolves(c, nets, pins, keys, endpoints, netOf)
      ensures old(errors) == [] && Legal(c, wired, p) ==> errors == []
    {
      hide Normalize, Refused, Resolves, Uses, Orderly, Served, Exclusive, Fits, Legal, Final, Once, TakeProblems;
      endpoints, netOf := map[], map[];
      var i := 0;
      assert keys[..0] == [];
      ResolvesStart(c, nets, pins);
      while i < |keys|
        invariant i <= |keys| && Grows(old(claims), claims) && old(errors) <= errors
        invariant Orderly(c, wired, p, claims, SitesSeen(keys, i))
        invariant errors == [] ==> forall j :: 0 <= j < i ==>
                    SiteFits(c, wired, pins, keys[j]) && Served(c, wired, p, claims, SiteUse(keys[j]))
        invariant errors == [] ==> Resolves(c, nets, pins, keys[..i], endpoints, netOf)
        invariant old(errors) == [] && Legal(c, wired, p) ==> errors == []
      {
        assert keys[i] in keys;
        assert keys[..i + 1] == keys[..i] + [keys[i]];
        ghost var before := claims;
        SitesNext(keys, i);
        endpoints, netOf := OneSignal(p, keys[i], pins, endpoints, netOf, keys[..i], SitesSeen(keys, i));
        ServedStays(c, wired, p, before, claims);
        i := i + 1;
      }
      assert keys[..i] == keys;
      assert forall k :: k in pins ==> exists j :: 0 <= j < |keys| && keys[j] == k;
    }

    /** One signal: a member of a net, a direct site, or wired through its module. */
    method OneSignal(ghost p: Plan, k: Signal, pins: map<Signal, Assignment>, found: map<Signal, Option<Endpoint>>,
                     joined: map<Signal, string>, ghost done: seq<Signal>, ghost seen: iset<User>)
      returns (endpoints: map<Signal, Option<Endpoint>>, netOf: map<Signal, string>)
      requires pins == p.pins && k in pins && SiteUse(k) !in seen && Orderly(c, wired, p, claims, seen)
      requires errors == [] ==> Resolves(c, nets, pins, done, found, joined)
      modifies this`claims, this`errors
      ensures Orderly(c, wired, p, claims, seen + iset{SiteUse(k)})
      ensures Grows(old(claims), claims) && old(errors) <= errors
      ensures errors == [] ==> SiteFits(c, wired, pins, k) && Served(c, wired, p, claims, SiteUse(k))
      ensures errors == [] ==> Resolves(c, nets, pins, done + [k], endpoints, netOf)
      ensures old(errors) == [] && Legal(c, wired, p) ==> errors == []
    {
      hide Normalize, Refused, Resolves, Uses, Orderly, Served, Exclusive, Fits, Legal, Final, TakeProblems, Grows;
      endpoints, netOf := found, joined;
      if errors == [] {
        ResolvesNext(c, nets, pins, done, found, joined, k);
      }
      SiteUseIs(c, wired, p, k);
      GrowsItself(claims);
      if pins[k].value.OnNet? {
        var n := pins[k].value.net;
        if n in nets {
          endpoints, netOf := endpoints[k := Some(nets[n].endpoint)], netOf[k := n];
        }
        SiteIdle(c, wired, p, claims, k);
        OrderlyWidens(c, wired, p, claims, seen, seen + iset{SiteUse(k)});
      } else if pins[k].site == Some(k) {
        var e := Take(SiteUse(k), pins[k].value, Domains(c.nodes, k), p, seen);
        FinalOfSite(c, nets, pins[k], k);
        endpoints := endpoints[k := e];
      } else {
        SiteIdle(c, wired, p, claims, k);
        OrderlyWidens(c, wired, p, claims, seen, seen + iset{SiteUse(k)});
      }
    }

    /** Signals wired through a module signal take the endpoint found for it. */
    method Inherit(keys: seq<Signal>, pins: map<Signal, Assignment>,
                   found: map<Signal, Option<Endpoint>>, joined: map<Signal, string>)
      returns (endpoints: map<Signal, Option<Endpoint>>, netOf: map<Signal, string>)
      requires Coherent(pins) && (forall k :: k in keys <==> k in pins)
      requires errors == [] ==> Resolves(c, nets, pins, keys, found, joined)
      ensures errors == [] ==> Resolved(c, nets, pins, endpoints, netOf)
    {
      hide Resolves, Coherent, Final, InNet;
      endpoints, netOf := found, joined;
      var i := 0;
      while i < |keys|
        invariant i <= |keys|
        invariant errors == [] ==> Resolves(c, nets, pins, keys, endpoints, netOf)
        invariant errors == [] ==> forall j :: 0 <= j < i ==> keys[j] in endpoints
      {
        var k := keys[i];
        assert k in keys;
        if errors == [] {
          InheritNext(c, nets, pins, keys, endpoints, netOf, k);
        }
        if pins[k].site.Some? && pins[k].site.value != k && k !in endpoints {
          var site := pins[k].site.value;
          endpoints := endpoints[k := if site in endpoints then endpoints[site] else None];
          if site in netOf {
            netOf := netOf[k := netOf[site]];
          }
        }
        if k !in endpoints {
          endpoints := endpoints[k := None];
        }
        i := i + 1;
      }
      if errors == [] {
        ResolvesAll(c, nets, pins, keys, endpoints, netOf);
      }
    }

    /** An endpoint handed over by a net or a module must suit the signal itself. */
    method DomainChecks(keys: seq<Signal>, pins: map<Signal, Assignment>, endpoints: map<Signal, Option<Endpoint>>)
      requires forall k :: k in keys <==> k in pins
      modifies this`errors
      ensures old(errors) <= errors
      ensures errors == [] <==> old(errors) == [] && forall k :: k in pins ==> Suits(c, endpoints, k)
    {
      var i := 0;
      while i < |keys|
        invariant i <= |keys| && old(errors) <= errors
        invariant errors == [] <==> old(errors) == [] && forall j :: 0 <= j < i ==> Suits(c, endpoints, keys[j])
      {
        var k := keys[i];
        if k in endpoints && endpoints[k].Some? {
          if Domain(endpoints[k].value) !in Domains(c.nodes, k) {
            errors := errors + [PinRange];
          } else if ReadAsDefault(c, k, endpoints[k].value) {
            errors := errors + [PinRange];
          }
        }
        i := i + 1;
      }
      assert forall j :: 0 <= j < |keys| ==> keys[j] in keys;
    }

    /** Every member of a net, and the board signal on it, gets the net's owner and endpoint. */
    method NetOwners(names: seq<string>, pins: map<Signal, Assignment>, found: map<Signal, Option<Endpoint>>,
                     joined: map<Signal, string>)
      returns (endpoints: map<Signal, Option<Endpoint>>, netOf: map<Signal, string>, owners: map<Signal, Signal>)
      requires forall n :: n in names <==> n in nets
      modifies this`errors
      ensures old(errors) <= errors
      ensures errors == [] <==> old(errors) == [] && forall n :: n in nets ==> OwnerFits(c, nets, joined, n)
      ensures errors == [] ==> Driven(nets, pins, joined, found, names, endpoints, netOf, owners)
    {
      hide OwnerFits, Members, Driven, OnePolarity;
      endpoints, netOf, owners := found, joined, map k | k in pins :: pins[k].owner;
      var i := 0;
      assert names[..0] == [];
      DrivenStart(nets, pins, joined, found, owners);
      while i < |names|
        invariant i <= |names| && old(errors) <= errors
        invariant errors == [] <==> old(errors) == [] && forall j :: 0 <= j < i ==> OwnerFits(c, nets, joined, names[j])
        invariant errors == [] ==> Driven(nets, pins, joined, found, names[..i], endpoints, netOf, owners)
      {
        var n := names[i];
        assert n in names;
        var net := nets[n];
        var members := Members(nets, joined, n);
        OwnerFitsIs(c, nets, joined, n);
        assert names[..i + 1] == names[..i] + [n];
        if errors == [] && OwnerFits(c, nets, joined, n) {
          DrivenNext(nets, pins, joined, found, names[..i], endpoints, netOf, owners, n);
        }
        if net.owner.path !in c.nodes || net.owner.name !in c.nodes[net.owner.path].signals || net.owner !in members {
          errors := errors + [NetOwner];
        } else {
          if net.board.Some?
             && (net.board.value.path !in c.nodes || net.board.value.name !in c.nodes[net.board.value.path].signals) {
            errors := errors + [Lookup];
          }
          var opposed := Polarity(members);
          errors := errors + opposed;
          owners := Overlaid(owners, members, net.owner);
          netOf := Overlaid(netOf, members, n);
          endpoints := Overlaid(endpoints, members, Some(net.endpoint));
        }
        i := i + 1;
      }
      assert names[..i] == names;
      assert forall j :: 0 <= j < |names| ==> names[j] in names;
    }

    /** One problem for every output of a net that is not active at the level of the first. */
    method Polarity(members: set<Signal>) returns (problems: seq<Code>)
      ensures problems == [] <==> OnePolarity(c, members)
    {
      problems := [];
      var first: Option<bool> := None;
      var left := members;
      while left != {}
        invariant left <= members
        invariant first.Some? ==>
                    exists a :: a in members && a !in left && Drives(c, a) && c.nodes[a.path].activeLow == first
        invariant first.None? ==> forall a :: a in members && a !in left ==> !Drives(c, a)
        invariant problems == [] <==> forall a :: a in members && a !in left && Drives(c, a) ==>
                    c.nodes[a.path].activeLow == first
        decreases left
      {
        var k :| k in left;
        if Drives(c, k) {
          if first.None? {
            first := c.nodes[k.path].activeLow;
          } else if c.nodes[k.path].activeLow != first {
            problems := problems + [NetOwner];
          }
        }
        left := left - {k};
      }
    }

    /** Names of the nets with an endpoint, in their order. */
    method NetNames(decls: seq<NetDecl>) returns (names: seq<string>)
      requires forall n :: n in nets ==> exists i :: 0 <= i < |decls| && decls[i].name == n
      ensures names == NetOrder(decls, nets) && forall n :: n in names <==> n in nets
    {
      names := [];
      var i := 0;
      assert decls[..0] == [];
      while i < |decls|
        invariant i <= |decls| && names == NetOrder(decls[..i], nets)
        invariant forall n :: n in names <==> n in nets && exists j :: 0 <= j < i && decls[j].name == n
      {
        assert decls[..i + 1][..i] == decls[..i];
        if decls[i].name in nets {
          names := names + [decls[i].name];
        }
        i := i + 1;
      }
      assert decls[..i] == decls;
    }

    /**
     The wiring steps in their order. Nothing is reported exactly when everything asked for is usable
     and nothing collides, every endpoint handed over suits its signal, every net has its owner on it and
     its outputs agree.
     */
    method Run(uses: seq<(Endpoint, Signal)>, p: Plan, keys: seq<Signal>)
      returns (endpoints: map<Signal, Option<Endpoint>>, netOf: map<Signal, string>, owners: map<Signal, Signal>)
      requires claims == map[] && wired == map[] && nets == map[] && errors == []
      requires Keyed(p) && Coherent(p.pins) && (forall k :: k in keys <==> k in p.pins) && Once(keys)
      modifies this
      ensures FirstUses(uses, wired)
      ensures Legal(c, wired, p) ==> NetsAre(c, wired, p.nets, nets)
      ensures errors == [] <==> Legal(c, wired, p) && Suited(c, nets, p.pins) && Owned(c, nets, p.pins)
      ensures errors == [] ==> Complete(c, nets, p, endpoints, netOf, owners)
    {
      hide Legal, Orderly, Served, FirstUses, NetsAre, Resolves, Resolved, Driven, Coherent, Keyed, Once, OwnerFits,
           Suits,
           NetsDone, BusesDone, SiteFits, Suited, Owned, Complete;
      BoardClaims(uses, p);
      Buses(p, p.buses);
      OrderlyWidens(c, wired, p, claims, (iset u: User | u.BusLine?), NetsSeen(p, 0));
      ghost var g1 := claims;
      NetEndpoints(p, p.nets);
      OrderlyWidens(c, wired, p, claims, NetsSeen(p, |p.nets|), SitesSeen(keys, 0));
      ghost var g2 := claims;
      var found, joined := NodeEndpoints(p, keys, p.pins);
      ghost var served := errors == [];
      if served {
        ServedLegal(c, wired, p, g1, g2, claims);
      }
      assert served <==> Legal(c, wired, p);
      found, joined := Inherit(keys, p.pins, found, joined);
      DomainChecks(keys, p.pins, found);
      var names := NetNames(p.nets);
      endpoints, netOf, owners := NetOwners(names, p.pins, found, joined);
      if served {
        Outcome(c, nets, p, found, joined, endpoints, netOf, owners);
      }
    }
  }

  /** The board wires each endpoint to its first use. */
  ghost predicate FirstUses(uses: seq<(Endpoint, Signal)>, wired: map<Endpoint, Signal>) {
    && (forall i :: 0 <= i < |uses| ==> uses[i].0 in wired)
    && (forall e :: e in wired ==>
          exists i :: 0 <= i < |uses| && uses[i] == (e, wired[e]) && forall j :: 0 <= j < i ==> uses[j].0 != e)
  }

  lemma FirstUsesNext(uses: seq<(Endpoint, Signal)>, i: nat, wired: map<Endpoint, Signal>)
    requires i < |uses| && FirstUses(uses[..i], wired)
    ensures FirstUses(uses[..i + 1], if uses[i].0 in wired then wired else wired[uses[i].0 := uses[i].1])
  {
    var some, more := uses[..i], uses[..i + 1];
    var after := if uses[i].0 in wired then wired else wired[uses[i].0 := uses[i].1];
    assert forall j :: 0 <= j < i ==> more[j] == some[j];
    forall e | e in after
      ensures exists j :: 0 <= j < |more| && more[j] == (e, after[e]) && forall h :: 0 <= h < j ==> more[h].0 != e
    {
      if e in wired {
        var j :| 0 <= j < |some| && some[j] == (e, wired[e]) && forall h :: 0 <= h < j ==> some[h].0 != e;
        assert more[j] == (e, after[e]);
      } else {
        assert more[i] == (e, after[e]);
      }
    }
  }

  // ---------------------------------------------------------------- buses

  ghost function OfBus(b: Bus): iset<User> {
    iset u: User | u.BusLine? && u.bus == b.name
  }

  ghost function BusesSeen(p: Plan, n: nat): iset<User>
    requires n <= |p.buses|
  {
    iset u: User | u.BusLine? && exists i :: 0 <= i < n && p.buses[i].name == u.bus
  }

  ghost function LinesSeen(b: Bus, n: nat): iset<User>
    requires n <= |b.lines|
  {
    iset u: User | u.BusLine? && u.bus == b.name && exists i :: 0 <= i < n && b.lines[i].0 == u.line
  }

  ghost predicate BusesDone(c: Context, wired: map<Endpoint, Signal>, p: Plan, claims: map<Endpoint, Claim>, n: nat)
    requires n <= |p.buses|
  {
    forall i :: 0 <= i < n ==>
      BusFits(c, wired, p.buses[i]) && forall u :: u in OfBus(p.buses[i]) ==> Served(c, wired, p, claims, u)
  }

  ghost predicate LinesDone(c: Context, wired: map<Endpoint, Signal>, p: Plan, claims: map<Endpoint, Claim>, b: Bus,
                            n: nat)
    requires n <= |b.lines|
  {
    forall i :: 0 <= i < n ==>
      && !b.lines[i].1.OnNet? && Fits(c, wired, b.lines[i].1, {"soc-gpio"})
      && Served(c, wired, p, claims, BusLine(b.name, b.lines[i].0))
  }

  lemma LinesSeenNext(b: Bus, i: nat)
    requires i < |b.lines| && KeyedLines(b)
    ensures LinesSeen(b, i + 1) == LinesSeen(b, i) + iset{BusLine(b.name, b.lines[i].0)}
    ensures BusLine(b.name, b.lines[i].0) !in LinesSeen(b, i)
  {
  }

  lemma LineUse(c: Context, p: Plan, n: nat, i: nat)
    requires Keyed(p) && n < |p.buses| && i < |p.buses[n].lines|
    ensures forall e :: Normalize(c, p.buses[n].lines[i].1, {"soc-gpio"}) == Ok(Some(e)) <==>
                        Uses(c, p, BusLine(p.buses[n].name, p.buses[n].lines[i].0), e)
  {
    hide Normalize;
    var b := p.buses[n];
    assert b in p.buses;
    forall e ensures LineAt(c, b, b.lines[i].0, e) <==> Normalize(c, b.lines[i].1, {"soc-gpio"}) == Ok(Some(e)) {
    }
  }

  /** A line the bus does not have asks for nothing. */
  lemma LinesServe(c: Context, wired: map<Endpoint, Signal>, p: Plan, claims: map<Endpoint, Claim>, n: nat)
    requires Keyed(p) && n < |p.buses| && LinesDone(c, wired, p, claims, p.buses[n], |p.buses[n].lines|)
    ensures forall u :: u in OfBus(p.buses[n]) ==> Served(c, wired, p, claims, u)
  {
    hide Normalize, Fits;
    var b := p.buses[n];
    forall u, e | u in OfBus(b) && Uses(c, p, u, e) ensures Holds(claims, u, e) {
      var i :| 0 <= i < |p.buses| && p.buses[i].name == u.bus && LineAt(c, p.buses[i], u.line, e);
      assert i == n;
      var j :| 0 <= j < |b.lines| && b.lines[j].0 == u.line;
      assert u == BusLine(b.name, b.lines[j].0);
      assert Served(c, wired, p, claims, BusLine(b.name, b.lines[j].0));
    }
  }

  // ---------------------------------------------------------------- nets

  ghost function NetsSeen(p: Plan, n: nat): iset<User>
    requires n <= |p.nets|
  {
    iset u: User | u.BusLine? || (u.NetUse? && exists i :: 0 <= i < n && p.nets[i].name == u.net)
  }

  ghost predicate NetsDone(c: Context, wired: map<Endpoint, Signal>, p: Plan, claims: map<Endpoint, Claim>, n: nat)
    requires n <= |p.nets|
  {
    forall i :: 0 <= i < n ==> NetFits(c, wired, p.nets[i]) && Served(c, wired, p, claims, NetUse(p.nets[i].name))
  }

  ghost function NetAdded(c: Context, wired: map<Endpoint, Signal>, d: NetDecl,
                          nets: map<string, Net>): map<string, Net> {
    var e := Normalize(c, d.value, NET_DOMAINS);
    if e.Err? || e.value.None? then nets
    else nets[d.name := Net(e.value.value, d.owner,
                            if e.value.value in wired then Some(wired[e.value.value]) else None)]
  }

  lemma NetsStart(c: Context, wired: map<Endpoint, Signal>)
    ensures NetsAre(c, wired, [], map[])
  {
  }

  lemma NetsAreNext(c: Context, wired: map<Endpoint, Signal>, decls: seq<NetDecl>, n: nat, nets: map<string, Net>)
    requires n < |decls| && (forall i, j :: 0 <= i < j < |decls| ==> decls[i].name != decls[j].name)
    requires NetsAre(c, wired, decls[..n], nets)
    ensures NetsAre(c, wired, decls[..n + 1], NetAdded(c, wired, decls[n], nets))
  {
    var some, more, after := decls[..n], decls[..n + 1], NetAdded(c, wired, decls[n], nets);
    assert forall i :: 0 <= i < n ==> more[i] == some[i];
    assert more[n] == decls[n];
    NetAddedIs(c, wired, decls[n], nets);
    hide NetAt, NetAdded;
    forall i | 0 <= i < n ensures NetGiven(c, wired, more[i], after) {
      assert NetGiven(c, wired, some[i], nets);
      NetGivenStays(c, wired, some[i], decls[n], nets);
    }
    forall m | m in after ensures exists i :: 0 <= i < |more| && NetAt(c, more[i], m, after[m].endpoint) {
      if m !in nets || after[m] != nets[m] {
        assert NetAt(c, more[n], m, after[m].endpoint);
      } else {
        var i :| 0 <= i < |some| && NetAt(c, some[i], m, nets[m].endpoint);
        assert NetAt(c, more[i], m, after[m].endpoint);
      }
    }
  }

  lemma NetAddedIs(c: Context, wired: map<Endpoint, Signal>, d: NetDecl, nets: map<string, Net>)
    ensures NetGiven(c, wired, d, NetAdded(c, wired, d, nets))
    ensures var after := NetAdded(c, wired, d, nets);
            forall m :: m in after ==> (m in nets && after[m] == nets[m]) || NetAt(c, d, m, after[m].endpoint)
  {
    hide Normalize;
  }

  lemma NetGivenStays(c: Context, wired: map<Endpoint, Signal>, d: NetDecl, other: NetDecl, nets: map<string, Net>)
    requires NetGiven(c, wired, d, nets) && d.name != other.name
    ensures NetGiven(c, wired, d, NetAdded(c, wired, other, nets))
  {
    hide Normalize;
  }

  lemma NetUseIs(c: Context, p: Plan, n: nat)
    requires Keyed(p) && n < |p.nets|
    ensures forall e :: Normalize(c, p.nets[n].value, NET_DOMAINS) == Ok(Some(e)) <==>
              Uses(c, p, NetUse(p.nets[n].name), e)
  {
    hide Normalize;
  }

  /** A net whose endpoint is taken joins the board or collides. */
  lemma JoinsBoard(c: Context, wired: map<Endpoint, Signal>, p: Plan, claims: map<Endpoint, Claim>, seen: iset<User>,
                   net: string, e: Endpoint)
    requires Orderly(c, wired, p, claims, seen) && NetUse(net) !in seen && e in claims
    ensures claims[e].net != Some(net) && (claims[e].board ==> e in wired)
  {
    hide Uses;
  }

  // ---------------------------------------------------------------- sites

  ghost predicate Once(keys: seq<Signal>) {
    forall i, j :: 0 <= i < j < |keys| ==> keys[i] != keys[j]
  }

  ghost function SitesSeen(keys: seq<Signal>, n: nat): iset<User>
    requires n <= |keys|
  {
    iset u: User | u.BusLine? || u.NetUse? || (u.SiteUse? && exists i :: 0 <= i < n && keys[i] == u.site)
  }

  lemma SitesNext(keys: seq<Signal>, i: nat)
    requires i < |keys| && Once(keys)
    ensures SiteUse(keys[i]) !in SitesSeen(keys, i)
    ensures SitesSeen(keys, i + 1) == SitesSeen(keys, i) + iset{SiteUse(keys[i])}
  {
  }

  lemma SiteUseIs(c: Context, wired: map<Endpoint, Signal>, p: Plan, k: Signal)
    requires k in p.pins
    ensures Direct(p.pins, k) ==>
              forall e :: Normalize(c, p.pins[k].value, Domains(c.nodes, k)) == Ok(Some(e)) <==>
                Uses(c, p, SiteUse(k), e)
    ensures Legal(c, wired, p) ==> SiteFits(c, wired, p.pins, k) && Exclusive(c, wired, p)
  {
    hide Normalize, Refused, Exclusive, Fits, BusFits, NetFits, Domains;
  }

  lemma SiteIdle(c: Context, wired: map<Endpoint, Signal>, p: Plan, claims: map<Endpoint, Claim>, k: Signal)
    requires !Direct(p.pins, k)
    ensures Served(c, wired, p, claims, SiteUse(k))
  {
    hide Normalize;
  }

  lemma GrowsItself(claims: map<Endpoint, Claim>)
    ensures Grows(claims, claims)
  {
  }

  lemma FinalOfSite(c: Context, nets: map<string, Net>, a: Assignment, k: Signal)
    requires !a.value.OnNet? && a.site == Some(k)
    ensures Normalize(c, a.value, Domains(c.nodes, k)).Ok? ==>
              Final(c, nets, a) == Normalize(c, a.value, Domains(c.nodes, k)).value
  {
  }

  // ---------------------------------------------------------------- handed-over endpoints

  /** Every signal has its endpoint, and its net if it is in one. */
  ghost predicate Resolved(c: Context, nets: map<string, Net>, pins: map<Signal, Assignment>,
                           endpoints: map<Signal, Option<Endpoint>>, netOf: map<Signal, string>) {
    && endpoints.Keys == pins.Keys && (forall k :: k in pins ==> endpoints[k] == Final(c, nets, pins[k]))
    && (forall k :: k in netOf <==> InNet(nets, pins, k))
    && (forall k :: k in netOf ==> netOf[k] == pins[k].value.net)
  }

  ghost predicate Suits(c: Context, endpoints: map<Signal, Option<Endpoint>>, k: Signal) {
    k in endpoints && endpoints[k].Some? ==> SuitsSignal(c, k, endpoints[k].value)
  }

  /** The HAL would read this pin of the signal as the default pin of its controller. */
  predicate ReadAsDefault(c: Context, k: Signal, e: Endpoint) {
    e.Soc? && e.pin in c.zero && k.path in c.nodes && k.name in c.nodes[k.path].zeroIsDefault
  }

  /** The signal takes the endpoint: its domain, and not a pin that stands for the default. */
  ghost predicate SuitsSignal(c: Context, k: Signal, e: Endpoint) {
    Domain(e) in Domains(c.nodes, k) && !ReadAsDefault(c, k, e)
  }

  lemma InheritNext(c: Context, nets: map<string, Net>, pins: map<Signal, Assignment>, keys: seq<Signal>,
                    endpoints: map<Signal, Option<Endpoint>>, netOf: map<Signal, string>, k: Signal)
    requires Resolves(c, nets, pins, keys, endpoints, netOf) && Coherent(pins) && k in pins
    requires forall k :: k in keys <==> k in pins
    ensures k !in endpoints && pins[k].site.Some? && pins[k].site.value != k ==>
              var s := pins[k].site.value;
              s !in netOf
                && Resolves(c, nets, pins, keys, endpoints[k := if s in endpoints then endpoints[s] else None], netOf)
    ensures k !in endpoints && (pins[k].site.None? || pins[k].site.value == k) ==>
              Resolves(c, nets, pins, keys, endpoints[k := None], netOf)
  {
    if k !in endpoints {
      assert !InNet(nets, pins, k) && !Direct(pins, k);
      HandedOver(c, nets, pins, k);
      hide Final, InNet, Direct;
    }
  }

  /** What is not in a net and not a site itself ends with what its site has. */
  lemma HandedOver(c: Context, nets: map<string, Net>, pins: map<Signal, Assignment>, k: Signal)
    requires Coherent(pins) && k in pins && !InNet(nets, pins, k) && !Direct(pins, k)
    ensures pins[k].site.None? || pins[k].site.value == k ==> Final(c, nets, pins[k]) == None
    ensures pins[k].site.Some? ==>
              var s := pins[k].site.value;
              && s in pins && !InNet(nets, pins, s) && Final(c, nets, pins[s]) == Final(c, nets, pins[k])
              && (!Direct(pins, s) ==> Final(c, nets, pins[s]) == None)
  {
  }

  lemma ResolvesAll(c: Context, nets: map<string, Net>, pins: map<Signal, Assignment>, keys: seq<Signal>,
                    endpoints: map<Signal, Option<Endpoint>>, netOf: map<Signal, string>)
    requires Resolves(c, nets, pins, keys, endpoints, netOf)
    requires (forall k :: k in keys <==> k in pins) && forall j :: 0 <= j < |keys| ==> keys[j] in endpoints
    ensures Resolved(c, nets, pins, endpoints, netOf)
  {
    hide Final;
  }

  // ---------------------------------------------------------------- owners of nets

  /** The signals on a net, with the signal the board wires there. */
  function Members(nets: map<string, Net>, joined: map<Signal, string>, n: string): (members: set<Signal>)
    requires n in nets
  {
    (set k | k in joined && joined[k] == n) + (if nets[n].board.Some? then {nets[n].board.value} else {})
  }

  ghost predicate IsSignal(c: Context, k: Signal) {
    k.path in c.nodes && k.name in c.nodes[k.path].signals
  }

  /** The owner of a net is a signal on it, and its outputs agree on their active level. */
  ghost predicate OwnerFits(c: Context, nets: map<string, Net>, joined: map<Signal, string>, n: string)
    requires n in nets
  {
    && IsSignal(c, nets[n].owner) && nets[n].owner in Members(nets, joined, n)
    && (nets[n].board.Some? ==> IsSignal(c, nets[n].board.value))
    && OnePolarity(c, Members(nets, joined, n))
  }

  /** An output with a stated active level. */
  predicate Drives(c: Context, k: Signal) {
    k.path in c.nodes && k.name in c.nodes[k.path].outputs && c.nodes[k.path].activeLow.Some?
  }

  /** Outputs that share a line are active at one level. */
  ghost predicate OnePolarity(c: Context, members: set<Signal>) {
    forall a, b :: a in members && b in members && Drives(c, a) && Drives(c, b) ==>
      c.nodes[a.path].activeLow == c.nodes[b.path].activeLow
  }

  lemma OwnerFitsIs(c: Context, nets: map<string, Net>, joined: map<Signal, string>, n: string)
    requires n in nets
    ensures OwnerFits(c, nets, joined, n) <==>
              && nets[n].owner.path in c.nodes && nets[n].owner.name in c.nodes[nets[n].owner.path].signals
              && nets[n].owner in Members(nets, joined, n)
              && !(nets[n].board.Some?
                   && (nets[n].board.value.path !in c.nodes
                       || nets[n].board.value.name !in c.nodes[nets[n].board.value.path].signals))
              && OnePolarity(c, Members(nets, joined, n))
  {
    hide Members, OnePolarity;
  }

  /** The last of these nets that a signal is on. */
  ghost function LastOn(nets: map<string, Net>, joined: map<Signal, string>, names: seq<string>,
                        k: Signal): (r: Option<string>)
    ensures r.Some? ==> r.value in names && r.value in nets && k in Members(nets, joined, r.value)
    ensures r.None? ==> forall n :: n in names && n in nets ==> k !in Members(nets, joined, n)
  {
    if names == [] then None
    else
      var last := names[|names| - 1];
      if last in nets
         && k in Members(nets, joined, last) then Some(last) else LastOn(nets, joined, names[..|names| - 1], k)
  }

  /** The signal is on one of these nets. */
  ghost predicate OnSome(nets: map<string, Net>, joined: map<Signal, string>, names: seq<string>, k: Signal) {
    LastOn(nets, joined, names, k).Some?
  }

  /** The signal has the last net it is on, with that net's owner and endpoint. */
  ghost predicate Shares(nets: map<string, Net>, joined: map<Signal, string>, names: seq<string>, k: Signal,
                         endpoints: map<Signal, Option<Endpoint>>, netOf: map<Signal, string>,
                         owners: map<Signal, Signal>) {
    && k in netOf && LastOn(nets, joined, names, k) == Some(netOf[k])
    && k in owners && owners[k] == nets[netOf[k]].owner
    && k in endpoints && endpoints[k] == Some(nets[netOf[k]].endpoint)
  }

  /** The signal keeps the endpoint and the owner it was assigned. */
  ghost predicate Keeps(pins: map<Signal, Assignment>, joined: map<Signal, string>,
                        found: map<Signal, Option<Endpoint>>, k: Signal,
                        endpoints: map<Signal, Option<Endpoint>>, netOf: map<Signal, string>,
                        owners: map<Signal, Signal>) {
    && (k in owners <==> k in pins) && (k in pins ==> owners[k] == pins[k].owner)
    && (k in endpoints <==> k in found) && (k in found ==> endpoints[k] == found[k])
    && (k in netOf <==> k in joined) && (k in joined ==> netOf[k] == joined[k])
  }

  /** Signals on these nets have the owner and the endpoint of their net, the others keep their own. */
  ghost predicate Driven(nets: map<string, Net>, pins: map<Signal, Assignment>, joined: map<Signal, string>,
                         found: map<Signal, Option<Endpoint>>, names: seq<string>,
                         endpoints: map<Signal, Option<Endpoint>>,
                         netOf: map<Signal, string>, owners: map<Signal, Signal>) {
    forall k ::
      if OnSome(nets, joined, names, k) then Shares(nets, joined, names, k, endpoints, netOf, owners)
      else Keeps(pins, joined, found, k, endpoints, netOf, owners)
  }

  lemma DrivenStart(nets: map<string, Net>, pins: map<Signal, Assignment>, joined: map<Signal, string>,
                    found: map<Signal, Option<Endpoint>>, owners: map<Signal, Signal>)
    requires owners == map k | k in pins :: pins[k].owner
    ensures Driven(nets, pins, joined, found, [], found, joined, owners)
  {
    hide Members;
  }

  lemma OnSomeNext(nets: map<string, Net>, joined: map<Signal, string>, names: seq<string>, n: string, k: Signal)
    requires n in nets
    ensures LastOn(nets, joined, names + [n], k) ==
            if k in Members(nets, joined, n) then Some(n) else LastOn(nets, joined, names, k)
  {
    hide Members;
    assert (names + [n])[..|names|] == names;
  }

  /** The map with one value for all the keys of a set. */
  function Overlaid<V>(m: map<Signal, V>, keys: set<Signal>, v: V): (r: map<Signal, V>)
    ensures forall k :: k in r <==> k in m || k in keys
    ensures forall k :: k in r ==> r[k] == if k in keys then v else m[k]
  {
    m + map k | k in keys :: v
  }

  lemma DrivenNext(nets: map<string, Net>, pins: map<Signal, Assignment>, joined: map<Signal, string>,
                   found: map<Signal, Option<Endpoint>>, names: seq<string>, endpoints: map<Signal, Option<Endpoint>>,
                   netOf: map<Signal, string>, owners: map<Signal, Signal>, n: string)
    requires Driven(nets, pins, joined, found, names, endpoints, netOf, owners) && n in nets
    ensures var members := Members(nets, joined, n);
            Driven(nets, pins, joined, found, names + [n], Overlaid(endpoints, members, Some(nets[n].endpoint)),
                   Overlaid(netOf, members, n), Overlaid(owners, members, nets[n].owner))
  {
    hide LastOn, Members, Overlaid, Shares, Keeps;
    var members := Members(nets, joined, n);
    var endpoints' := Overlaid(endpoints, members, Some(nets[n].endpoint));
    var netOf', owners' := Overlaid(netOf, members, n), Overlaid(owners, members, nets[n].owner);
    forall k ensures if OnSome(nets, joined, names + [n], k)
                     then Shares(nets, joined, names + [n], k, endpoints', netOf', owners')
                     else Keeps(pins, joined, found, k, endpoints', netOf', owners')
    {
      OnSomeNext(nets, joined, names, n, k);
      if k in members {
        SharesNow(nets, joined, names, k, endpoints, netOf, owners, n);
      } else {
        KeptNow(nets, pins, joined, found, names, k, endpoints, netOf, owners, n);
      }
    }
  }

  lemma SharesNow(nets: map<string, Net>, joined: map<Signal, string>, names: seq<string>, k: Signal,
                  endpoints: map<Signal, Option<Endpoint>>, netOf: map<Signal, string>, owners: map<Signal, Signal>,
                  n: string)
    requires n in nets && k in Members(nets, joined, n)
    ensures var members := Members(nets, joined, n);
            Shares(nets, joined, names + [n], k, Overlaid(endpoints, members, Some(nets[n].endpoint)),
                   Overlaid(netOf, members, n), Overlaid(owners, members, nets[n].owner))
  {
    OnSomeNext(nets, joined, names, n, k);
    hide Members, Overlaid, LastOn;
  }

  lemma KeptNow(nets: map<string, Net>, pins: map<Signal, Assignment>, joined: map<Signal, string>,
                found: map<Signal, Option<Endpoint>>, names: seq<string>, k: Signal,
                endpoints: map<Signal, Option<Endpoint>>, netOf: map<Signal, string>, owners: map<Signal, Signal>,
                n: string)
    requires n in nets && k !in Members(nets, joined, n)
    ensures var members := Members(nets, joined, n);
            var endpoints' := Overlaid(endpoints, members, Some(nets[n].endpoint));
            var netOf', owners' := Overlaid(netOf, members, n), Overlaid(owners, members, nets[n].owner);
            && (Shares(nets, joined, names, k, endpoints, netOf, owners) ==>
                  Shares(nets, joined, names + [n], k, endpoints', netOf', owners'))
            && (Keeps(pins, joined, found, k, endpoints, netOf, owners) ==>
                  Keeps(pins, joined, found, k, endpoints', netOf', owners'))
  {
    OnSomeNext(nets, joined, names, n, k);
    hide Members, Overlaid, LastOn;
  }

  // ---------------------------------------------------------------- the whole check

  /** The endpoint every signal ends with is one the signal takes. */
  ghost predicate Suited(c: Context, nets: map<string, Net>, pins: map<Signal, Assignment>) {
    forall k :: k in pins && Final(c, nets, pins[k]).Some? ==> SuitsSignal(c, k, Final(c, nets, pins[k]).value)
  }

  ghost function Joined(nets: map<string, Net>, pins: map<Signal, Assignment>): map<Signal, string> {
    map k | k in pins && InNet(nets, pins, k) :: pins[k].value.net
  }

  /** The owner of every net is a signal on it. */
  ghost predicate Owned(c: Context, nets: map<string, Net>, pins: map<Signal, Assignment>) {
    forall n :: n in nets ==> OwnerFits(c, nets, Joined(nets, pins), n)
  }

  /** The nets that have an endpoint, in the order they are declared. */
  function NetOrder(decls: seq<NetDecl>, nets: map<string, Net>): seq<string> {
    if decls == [] then []
    else
      var n := |decls| - 1;
      NetOrder(decls[..n], nets) + if decls[n].name in nets then [decls[n].name] else []
  }

  /** The endpoint, the net and the owner of every signal. */
  ghost predicate Complete(c: Context, nets: map<string, Net>, p: Plan, endpoints: map<Signal, Option<Endpoint>>,
                           netOf: map<Signal, string>, owners: map<Signal, Signal>) {
    exists found ::
      && Resolved(c, nets, p.pins, found, Joined(nets, p.pins))
      && Driven(nets, p.pins, Joined(nets, p.pins), found, NetOrder(p.nets, nets), endpoints, netOf, owners)
  }

  lemma ServedLegal(c: Context, wired: map<Endpoint, Signal>, p: Plan, g1: map<Endpoint, Claim>,
                    g2: map<Endpoint, Claim>,
                    claims: map<Endpoint, Claim>)
    requires BusesDone(c, wired, p, g1, |p.buses|) && NetsDone(c, wired, p, g2, |p.nets|)
    requires forall k :: k in p.pins ==> SiteFits(c, wired, p.pins, k) && Served(c, wired, p, claims, SiteUse(k))
    requires Grows(g1, g2) && Grows(g2, claims) && exists seen :: Orderly(c, wired, p, claims, seen)
    ensures Legal(c, wired, p)
  {
    hide Orderly, BusFits, NetFits, SiteFits, Exclusive, Grows;
    GrowsOn(g1, g2, claims);
    ServedStays(c, wired, p, g1, claims);
    ServedStays(c, wired, p, g2, claims);
    forall u ensures Served(c, wired, p, claims, u) {
      EveryUser(c, wired, p, claims, u);
    }
    var seen :| Orderly(c, wired, p, claims, seen);
    ServedIsExclusive(c, wired, p, claims, seen);
  }

  lemma GrowsOn(g1: map<Endpoint, Claim>, g2: map<Endpoint, Claim>, g3: map<Endpoint, Claim>)
    requires Grows(g1, g2) && Grows(g2, g3)
    ensures Grows(g1, g3)
  {
  }

  /** Every user with an endpoint to ask for is a line of a bus, a net or a site. */
  lemma EveryUser(c: Context, wired: map<Endpoint, Signal>, p: Plan, claims: map<Endpoint, Claim>, u: User)
    requires forall i :: 0 <= i < |p.buses| ==> forall u :: u in OfBus(p.buses[i]) ==> Served(c, wired, p, claims, u)
    requires forall i :: 0 <= i < |p.nets| ==> Served(c, wired, p, claims, NetUse(p.nets[i].name))
    requires forall k :: k in p.pins ==> Served(c, wired, p, claims, SiteUse(k))
    ensures Served(c, wired, p, claims, u)
  {
    hide Normalize, LineAt;
    if e :| Uses(c, p, u, e) {
      if u.BusLine? {
        var i :| 0 <= i < |p.buses| && p.buses[i].name == u.bus && LineAt(c, p.buses[i], u.line, e);
        assert u in OfBus(p.buses[i]);
      } else if u.NetUse? {
        var i :| 0 <= i < |p.nets| && NetAt(c, p.nets[i], u.net, e);
        assert u == NetUse(p.nets[i].name);
      } else {
        assert u == SiteUse(u.site);
      }
    }
  }

  lemma Outcome(c: Context, nets: map<string, Net>, p: Plan, found: map<Signal, Option<Endpoint>>,
                joined: map<Signal, string>, endpoints: map<Signal, Option<Endpoint>>,
                netOf: map<Signal, string>, owners: map<Signal, Signal>)
    requires Resolved(c, nets, p.pins, found, joined)
    ensures (forall k :: k in p.pins ==> Suits(c, found, k)) <==> Suited(c, nets, p.pins)
    ensures (forall n :: n in nets ==> OwnerFits(c, nets, joined, n)) <==> Owned(c, nets, p.pins)
    ensures Driven(nets, p.pins, joined, found, NetOrder(p.nets, nets), endpoints, netOf, owners) ==>
              Complete(c, nets, p, endpoints, netOf, owners)
  {
    hide Final, SuitsSignal, OwnerFits, Driven, NetOrder;
    assert joined == Joined(nets, p.pins);
  }
}
