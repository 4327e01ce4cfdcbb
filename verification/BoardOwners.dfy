/** Owners of the endpoints a board wires, where nets may meet each other and the board's own signal. */
module BoardOwners {
  import opened Outcomes
  import opened DeviceSignals
  import opened Wiring
  import opened WiringProperties

  // ---------------------------------------------------------------- endpoints of the board

  /** Some signal of the project is on the net. */
  ghost predicate HasMember(pins: map<Signal, Assignment>, net: string) {
    exists k :: k in pins && pins[k].value == OnNet(net)
  }

  /** The net is on an endpoint where the board wires this signal. */
  ghost predicate OnBoardSignal(c: Context, wired: map<Endpoint, Signal>, d: NetDecl, k: Signal) {
    exists e :: NetAt(c, d, d.name, e) && e in wired && wired[e] == k
  }

  /** The last net declared on the endpoints where the board wires this signal. */
  ghost predicate LastDecl(c: Context, wired: map<Endpoint, Signal>, p: Plan, k: Signal, l: int) {
    && 0 <= l < |p.nets| && OnBoardSignal(c, wired, p.nets[l], k)
    && forall j :: l < j < |p.nets| ==> !OnBoardSignal(c, wired, p.nets[j], k)
  }

  /** Nets that have members and one endpoint have one owner. */
  ghost predicate MembersAgree(c: Context, p: Plan) {
    forall i, j, e :: 0 <= i < |p.nets| && 0 <= j < |p.nets| && HasMember(p.pins, p.nets[i].name)
                      && HasMember(p.pins, p.nets[j].name)
                      && NetAt(c, p.nets[i], p.nets[i].name, e) && NetAt(c, p.nets[j], p.nets[j].name, e) ==>
      p.nets[i].owner == p.nets[j].owner
  }

  /** The last net of a board signal has the owner of every net there that has members. */
  ghost predicate LastAgrees(c: Context, wired: map<Endpoint, Signal>, p: Plan) {
    forall i, k, l, e :: 0 <= i < |p.nets| && 0 <= l < |p.nets| && LastDecl(c, wired, p, k, l)
                         && HasMember(p.pins, p.nets[i].name)
                         && NetAt(c, p.nets[i], p.nets[i].name, e) && NetAt(c, p.nets[l], p.nets[l].name, e) ==>
      p.nets[i].owner == p.nets[l].owner
  }

  /** What a caller can check on the declarations: nets on one endpoint agree on the owner that counts. */
  ghost predicate NetsAgree(c: Context, wired: map<Endpoint, Signal>, p: Plan) {
    MembersAgree(c, p) && LastAgrees(c, wired, p)
  }

  /** Signals on one endpoint have one owner, the board's signal there included. */
  ghost predicate OneOwnerAll(endpoints: map<Signal, Option<Endpoint>>, owners: map<Signal, Signal>) {
    forall k, j :: k in owners && j in owners && k in endpoints && j in endpoints && endpoints[k].Some?
                   && endpoints[k] == endpoints[j] ==>
      owners[k] == owners[j]
  }

  /** Every endpoint has one owner exactly when the nets on it agree. */
  lemma OneOwnerExactly(c: Context, wired: map<Endpoint, Signal>, nets: map<string, Net>, p: Plan,
                        endpoints: map<Signal, Option<Endpoint>>, netOf: map<Signal, string>,
                        owners: map<Signal, Signal>)
    requires Wired(c, wired, nets, p, endpoints, netOf, owners) && SitesOwn(p.pins) && Apart(wired, p.pins)
    ensures NetsAgree(c, wired, p) <==> OneOwnerAll(endpoints, owners)
  {
    hide Wired, SitesOwn, Apart, NetAt, MembersAgree, LastAgrees;
    if NetsAgree(c, wired, p) {
      forall k, j | k in owners && j in owners && k in endpoints && j in endpoints && endpoints[k].Some?
                    && endpoints[k] == endpoints[j]
        ensures owners[k] == owners[j]
      {
        OwnersAgree(c, wired, nets, p, endpoints, netOf, owners, k, j);
      }
    }
    if OneOwnerAll(endpoints, owners) {
      OwnersMembers(c, wired, nets, p, endpoints, netOf, owners);
      OwnersLast(c, wired, nets, p, endpoints, netOf, owners);
    }
  }

  lemma OwnersAgree(c: Context, wired: map<Endpoint, Signal>, nets: map<string, Net>, p: Plan,
                    endpoints: map<Signal, Option<Endpoint>>, netOf: map<Signal, string>, owners: map<Signal, Signal>,
                    k: Signal, j: Signal)
    requires Wired(c, wired, nets, p, endpoints, netOf, owners) && SitesOwn(p.pins) && Apart(wired, p.pins)
    requires NetsAgree(c, wired, p) && k in owners && j in owners && k in endpoints && j in endpoints
    requires endpoints[k].Some? && endpoints[k] == endpoints[j]
    ensures owners[k] == owners[j]
  {
    hide Wired, SitesOwn, Apart, MembersAgree, LastAgrees;
    if k in p.pins && j in p.pins {
      if endpoints[k].value in wired {
        BoardOwners(c, wired, nets, p, endpoints, netOf, owners, k, j);
      } else {
        SharedEndpoint(c, wired, nets, p, endpoints, netOf, owners, k, j, endpoints[k].value);
      }
    } else if k in p.pins {
      MixedOwners(c, wired, nets, p, endpoints, netOf, owners, k, j);
    } else if j in p.pins {
      MixedOwners(c, wired, nets, p, endpoints, netOf, owners, j, k);
    } else {
      var a := BoardEnds(c, wired, nets, p, endpoints, netOf, owners, k);
      var b := BoardEnds(c, wired, nets, p, endpoints, netOf, owners, j);
    }
  }

  /** A signal of the project and the board's signal on one endpoint have one owner. */
  lemma MixedOwners(c: Context, wired: map<Endpoint, Signal>, nets: map<string, Net>, p: Plan,
                    endpoints: map<Signal, Option<Endpoint>>, netOf: map<Signal, string>, owners: map<Signal, Signal>,
                    k: Signal, j: Signal)
    requires Wired(c, wired, nets, p, endpoints, netOf, owners) && Apart(wired, p.pins) && LastAgrees(c, wired, p)
    requires k in p.pins && j !in p.pins && k in owners && j in owners && k in endpoints && j in endpoints
    requires endpoints[k].Some? && endpoints[k] == endpoints[j]
    ensures owners[k] == owners[j]
  {
    hide Wired, Apart, LastAgrees, NetAt, LastDecl;
    var e := endpoints[k].value;
    var l := BoardEnds(c, wired, nets, p, endpoints, netOf, owners, j);
    var i := BoardMember(c, wired, nets, p, endpoints, netOf, owners, k, e);
    LastAt(c, wired, p, i, j, l, e);
  }

  lemma LastAt(c: Context, wired: map<Endpoint, Signal>, p: Plan, i: nat, k: Signal, l: int, e: Endpoint)
    requires LastAgrees(c, wired, p) && i < |p.nets| && 0 <= l < |p.nets| && LastDecl(c, wired, p, k, l)
    requires HasMember(p.pins, p.nets[i].name)
    requires NetAt(c, p.nets[i], p.nets[i].name, e) && NetAt(c, p.nets[l], p.nets[l].name, e)
    ensures p.nets[i].owner == p.nets[l].owner
  {
    hide NetAt, HasMember, LastDecl;
  }

  lemma OwnersMembers(c: Context, wired: map<Endpoint, Signal>, nets: map<string, Net>, p: Plan,
                      endpoints: map<Signal, Option<Endpoint>>, netOf: map<Signal, string>, owners: map<Signal, Signal>)
    requires Wired(c, wired, nets, p, endpoints, netOf, owners) && Apart(wired, p.pins)
    requires OneOwnerAll(endpoints, owners)
    ensures MembersAgree(c, p)
  {
    hide Wired, Apart, NetAt;
    forall i, j, e | 0 <= i < |p.nets| && 0 <= j < |p.nets| && HasMember(p.pins, p.nets[i].name)
                     && HasMember(p.pins, p.nets[j].name)
                     && NetAt(c, p.nets[i], p.nets[i].name, e) && NetAt(c, p.nets[j], p.nets[j].name, e)
      ensures p.nets[i].owner == p.nets[j].owner
    {
      var k :| k in p.pins && p.pins[k].value == OnNet(p.nets[i].name);
      var l :| l in p.pins && p.pins[l].value == OnNet(p.nets[j].name);
      MemberEnds(c, wired, nets, p, endpoints, netOf, owners, i, k, e);
      MemberEnds(c, wired, nets, p, endpoints, netOf, owners, j, l, e);
    }
  }

  lemma OwnersLast(c: Context, wired: map<Endpoint, Signal>, nets: map<string, Net>, p: Plan,
                   endpoints: map<Signal, Option<Endpoint>>, netOf: map<Signal, string>, owners: map<Signal, Signal>)
    requires Wired(c, wired, nets, p, endpoints, netOf, owners) && Apart(wired, p.pins)
    requires OneOwnerAll(endpoints, owners)
    ensures LastAgrees(c, wired, p)
  {
    hide Wired, Apart, NetAt, LastDecl;
    forall i, k, l, e | 0 <= i < |p.nets| && 0 <= l < |p.nets| && LastDecl(c, wired, p, k, l)
                        && HasMember(p.pins, p.nets[i].name)
                        && NetAt(c, p.nets[i], p.nets[i].name, e) && NetAt(c, p.nets[l], p.nets[l].name, e)
      ensures p.nets[i].owner == p.nets[l].owner
    {
      var m :| m in p.pins && p.pins[m].value == OnNet(p.nets[i].name);
      MemberEnds(c, wired, nets, p, endpoints, netOf, owners, i, m, e);
      LastEnds(c, wired, nets, p, endpoints, netOf, owners, k, l, e);
    }
  }

  /** Whether a declared net has the board's signal, in terms of the nets the check keeps. */
  lemma BoardSignalIs(c: Context, wired: map<Endpoint, Signal>, nets: map<string, Net>, p: Plan, l: nat, k: Signal)
    requires NetsAre(c, wired, p.nets, nets) && Keyed(p) && l < |p.nets| && k !in p.pins
    ensures OnBoardSignal(c, wired, p.nets[l], k) <==>
              p.nets[l].name in nets && k in Members(nets, Joined(nets, p.pins), p.nets[l].name)
    ensures p.nets[l].name in nets ==> NetAt(c, p.nets[l], p.nets[l].name, nets[p.nets[l].name].endpoint)
                                       && nets[p.nets[l].name].owner == p.nets[l].owner
  {
    var d := p.nets[l];
    assert NetGiven(c, wired, d, nets);
    hide Normalize, Final;
    if d.name in nets {
      NetAsks(c, wired, p, nets, d.name);
      var i :| 0 <= i < |p.nets| && NetAt(c, p.nets[i], d.name, nets[d.name].endpoint);
      assert i == l;
    }
  }

  /** The last of the first n nets declared on the endpoints where the board wires this signal. */
  ghost predicate LastBefore(c: Context, wired: map<Endpoint, Signal>, p: Plan, n: nat, k: Signal, l: int)
    requires n <= |p.nets|
  {
    0 <= l < n && OnBoardSignal(c, wired, p.nets[l], k) && forall j :: l < j < n ==>
      !OnBoardSignal(c, wired, p.nets[j], k)
  }

  ghost predicate NoneBefore(c: Context, wired: map<Endpoint, Signal>, p: Plan, n: nat, k: Signal)
    requires n <= |p.nets|
  {
    forall l :: 0 <= l < n ==> !OnBoardSignal(c, wired, p.nets[l], k)
  }

  lemma LastBeforeNext(c: Context, wired: map<Endpoint, Signal>, p: Plan, n: nat, k: Signal, l: int)
    requires 0 < n <= |p.nets|
    ensures OnBoardSignal(c, wired, p.nets[n - 1], k) ==> LastBefore(c, wired, p, n, k, n - 1)
    ensures !OnBoardSignal(c, wired, p.nets[n - 1], k) && LastBefore(c, wired, p, n - 1, k, l) ==>
              LastBefore(c, wired, p, n, k, l)
    ensures !OnBoardSignal(c, wired, p.nets[n - 1], k) && NoneBefore(c, wired, p, n - 1, k) ==>
              NoneBefore(c, wired, p, n, k)
  {
    hide OnBoardSignal;
  }

  /** The last net of the declarations that has the board's signal is the one the check comes to last. */
  lemma {:induction false} LastDeclared(c: Context, wired: map<Endpoint, Signal>, nets: map<string, Net>, p: Plan,
                                        n: nat, k: Signal)
    returns (l: int)
    requires NetsAre(c, wired, p.nets, nets) && Keyed(p) && n <= |p.nets| && k !in p.pins
    ensures var last := LastOn(nets, Joined(nets, p.pins), NetOrder(p.nets[..n], nets), k);
            if last.None? then NoneBefore(c, wired, p, n, k)
            else LastBefore(c, wired, p, n, k, l) && p.nets[l].name == last.value
  {
    l := 0;
    if n > 0 {
      var d, order, joined := p.nets[n - 1], NetOrder(p.nets[..n - 1], nets), Joined(nets, p.pins);
      l := LastDeclared(c, wired, nets, p, n - 1, k);
      BoardSignalIs(c, wired, nets, p, n - 1, k);
      OrderNext(p.nets, n, nets);
      hide NetsAre, Keyed, OnBoardSignal, Members, NetOrder;
      LastBeforeNext(c, wired, p, n, k, l);
      if d.name in nets {
        OnSomeNext(nets, joined, order, d.name, k);
      }
      hide LastOn, LastBefore, NoneBefore;
      if d.name in nets && k in Members(nets, joined, d.name) {
        l := n - 1;
      }
    }
  }

  lemma OrderNext(decls: seq<NetDecl>, n: nat, nets: map<string, Net>)
    requires 0 < n <= |decls|
    ensures NetOrder(decls[..n], nets) ==
            if decls[n - 1].name in nets then NetOrder(decls[..n - 1], nets) + [decls[n - 1].name]
            else NetOrder(decls[..n - 1], nets)
  {
    assert decls[..n][..n - 1] == decls[..n - 1];
  }

  /** A signal of the board that has an owner ends with the last net on it. */
  lemma BoardEnds(c: Context, wired: map<Endpoint, Signal>, nets: map<string, Net>, p: Plan,
                  endpoints: map<Signal, Option<Endpoint>>, netOf: map<Signal, string>, owners: map<Signal, Signal>,
                  k: Signal) returns (l: int)
    requires Wired(c, wired, nets, p, endpoints, netOf, owners) && k in owners && k !in p.pins
    ensures LastDecl(c, wired, p, k, l) && 0 <= l < |p.nets| && k in endpoints && endpoints[k].Some?
    ensures var e := endpoints[k].value;
            NetAt(c, p.nets[l], p.nets[l].name, e) && e in wired && wired[e] == k && owners[k] == p.nets[l].owner
  {
    l := LastDeclared(c, wired, nets, p, |p.nets|, k);
    assert p.nets[..|p.nets|] == p.nets;
    BoardDriven(c, wired, nets, p, endpoints, netOf, owners, k);
    hide Legal, Coherent, Suited, Owned, Complete, OnBoardSignal, NetAt, NetsAre, Keyed;
    BoardSignalIs(c, wired, nets, p, l, k);
    OneEndpoint(c, wired, p.nets[l], k, nets[netOf[k]].endpoint);
  }

  lemma OneEndpoint(c: Context, wired: map<Endpoint, Signal>, d: NetDecl, k: Signal, e: Endpoint)
    requires OnBoardSignal(c, wired, d, k) && NetAt(c, d, d.name, e)
    ensures e in wired && wired[e] == k
  {
    hide Normalize;
  }

  /** What the owner step did with a signal that is none of the project's. */
  lemma BoardDriven(c: Context, wired: map<Endpoint, Signal>, nets: map<string, Net>, p: Plan,
                    endpoints: map<Signal, Option<Endpoint>>, netOf: map<Signal, string>, owners: map<Signal, Signal>,
                    k: Signal)
    requires Wired(c, wired, nets, p, endpoints, netOf, owners) && k !in p.pins
    ensures var last := LastOn(nets, Joined(nets, p.pins), NetOrder(p.nets, nets), k);
            && (k in owners <==> last.Some?)
            && (last.Some? ==> k in netOf && last == Some(netOf[k]) && k in endpoints
                               && endpoints[k] == Some(nets[netOf[k]].endpoint) && owners[k] == nets[netOf[k]].owner)
  {
    hide Legal, NetsAre, Keyed, Coherent, Suited, Owned, Final, LastOn, NetOrder;
    var found :|
      && Resolved(c, nets, p.pins, found, Joined(nets, p.pins))
      && Driven(nets, p.pins, Joined(nets, p.pins), found, NetOrder(p.nets, nets), endpoints, netOf, owners);
    assert if OnSome(nets, Joined(nets, p.pins), NetOrder(p.nets, nets), k)
           then Shares(nets, Joined(nets, p.pins), NetOrder(p.nets, nets), k, endpoints, netOf, owners)
           else Keeps(p.pins, Joined(nets, p.pins), found, k, endpoints, netOf, owners);
  }

  /** The board's signal ends with the owner of the last net declared on it. */
  lemma LastEnds(c: Context, wired: map<Endpoint, Signal>, nets: map<string, Net>, p: Plan,
                 endpoints: map<Signal, Option<Endpoint>>, netOf: map<Signal, string>, owners: map<Signal, Signal>,
                 k: Signal, l: int, e: Endpoint)
    requires Wired(c, wired, nets, p, endpoints, netOf, owners) && Apart(wired, p.pins)
    requires LastDecl(c, wired, p, k, l) && 0 <= l < |p.nets| && NetAt(c, p.nets[l], p.nets[l].name, e)
    ensures k in owners && k in endpoints && endpoints[k] == Some(e) && owners[k] == p.nets[l].owner
  {
    assert k !in p.pins;
    HasLast(c, wired, nets, p, endpoints, netOf, owners, k, l);
    hide Wired, OnBoardSignal, NetAt;
    var m := BoardEnds(c, wired, nets, p, endpoints, netOf, owners, k);
    assert m == l;
    SameAt(c, p.nets[l], endpoints[k].value, e);
  }

  lemma HasLast(c: Context, wired: map<Endpoint, Signal>, nets: map<string, Net>, p: Plan,
                endpoints: map<Signal, Option<Endpoint>>, netOf: map<Signal, string>, owners: map<Signal, Signal>,
                k: Signal, l: int)
    requires Wired(c, wired, nets, p, endpoints, netOf, owners) && k !in p.pins && LastDecl(c, wired, p, k, l)
    ensures k in owners
  {
    BoardDriven(c, wired, nets, p, endpoints, netOf, owners, k);
    assert NetsAre(c, wired, p.nets, nets) && Keyed(p);
    hide Wired, OnBoardSignal, NetAt, NetsAre, Keyed, LastOn, NetOrder, Joined;
    var o := LastDeclared(c, wired, nets, p, |p.nets|, k);
    assert p.nets[..|p.nets|] == p.nets;
  }

  lemma SameAt(c: Context, d: NetDecl, e: Endpoint, f: Endpoint)
    requires NetAt(c, d, d.name, e) && NetAt(c, d, d.name, f)
    ensures e == f
  {
    hide Normalize;
  }

  /** A member of a declared net ends with its endpoint and its owner. */
  lemma MemberEnds(c: Context, wired: map<Endpoint, Signal>, nets: map<string, Net>, p: Plan,
                   endpoints: map<Signal, Option<Endpoint>>, netOf: map<Signal, string>, owners: map<Signal, Signal>,
                   i: nat, k: Signal, e: Endpoint)
    requires Wired(c, wired, nets, p, endpoints, netOf, owners) && Apart(wired, p.pins)
    requires i < |p.nets| && NetAt(c, p.nets[i], p.nets[i].name, e) && k in p.pins
    requires p.pins[k].value == OnNet(p.nets[i].name)
    ensures k in endpoints && k in owners && endpoints[k] == Some(e) && owners[k] == p.nets[i].owner
  {
    EndsWith(c, wired, nets, p, endpoints, netOf, owners, k);
    NetEndpoint(c, nets, p.pins, k);
    hide Legal, Keyed, Coherent, Suited, Owned, Complete, NetAt, Final;
    assert NetGiven(c, wired, p.nets[i], nets);
  }

  /** Signals on an endpoint the board wires are on nets, and have the owners of these. */
  lemma BoardOwners(c: Context, wired: map<Endpoint, Signal>, nets: map<string, Net>, p: Plan,
                    endpoints: map<Signal, Option<Endpoint>>, netOf: map<Signal, string>, owners: map<Signal, Signal>,
                    k: Signal, j: Signal)
    requires Wired(c, wired, nets, p, endpoints, netOf, owners) && Apart(wired, p.pins) && MembersAgree(c, p)
    requires k in p.pins && j in p.pins && k in endpoints && j in endpoints
    requires endpoints[k].Some? && endpoints[k] == endpoints[j] && endpoints[k].value in wired
    ensures k in owners && j in owners && owners[k] == owners[j]
  {
    hide MembersAgree;
    var e := endpoints[k].value;
    var a := BoardMember(c, wired, nets, p, endpoints, netOf, owners, k, e);
    var b := BoardMember(c, wired, nets, p, endpoints, netOf, owners, j, e);
    AgreeAt(c, p, a, b, e);
  }

  lemma AgreeAt(c: Context, p: Plan, a: nat, b: nat, e: Endpoint)
    requires MembersAgree(c, p) && a < |p.nets| && b < |p.nets| && HasMember(p.pins, p.nets[a].name)
    requires HasMember(p.pins, p.nets[b].name)
    requires NetAt(c, p.nets[a], p.nets[a].name, e) && NetAt(c, p.nets[b], p.nets[b].name, e)
    ensures p.nets[a].owner == p.nets[b].owner
  {
    hide NetAt, HasMember;
  }

  /** A signal on an endpoint of the board is a member of a declared net there. */
  lemma BoardMember(c: Context, wired: map<Endpoint, Signal>, nets: map<string, Net>, p: Plan,
                    endpoints: map<Signal, Option<Endpoint>>, netOf: map<Signal, string>, owners: map<Signal, Signal>,
                    k: Signal, e: Endpoint) returns (i: nat)
    requires Wired(c, wired, nets, p, endpoints, netOf, owners) && Apart(wired, p.pins)
    requires k in p.pins && k in endpoints && endpoints[k] == Some(e) && e in wired
    ensures i < |p.nets| && NetAt(c, p.nets[i], p.nets[i].name, e) && HasMember(p.pins, p.nets[i].name)
    ensures k in owners && owners[k] == p.nets[i].owner
  {
    EndsWith(c, wired, nets, p, endpoints, netOf, owners, k);
    SignalAsks(c, wired, p, nets, k, e);
    NetEndpoint(c, nets, p.pins, k);
    hide Uses, Keyed, Coherent, Suited, Owned, Complete, Final, BusFits, NetFits, SiteFits, NetAt;
    assert Exclusive(c, wired, p);
    assert InNet(nets, p.pins, k);
    var n := p.pins[k].value.net;
    i :| 0 <= i < |p.nets| && NetAt(c, p.nets[i], n, nets[n].endpoint);
    DeclName(c, p.nets[i], n, nets[n].endpoint);
    assert NetGiven(c, wired, p.nets[i], nets);
  }

  lemma DeclName(c: Context, d: NetDecl, name: string, e: Endpoint)
    ensures NetAt(c, d, name, e) <==> d.name == name && NetAt(c, d, d.name, e)
  {
  }

  // ---------------------------------------------------------------- what the check does not exclude

  const LED := Signal(["board", "led"], "out")
  const MINE := Signal(["a"], "out")
  const YOURS := Signal(["b"], "out")

  /** A node with one output on a SoC pin. */
  function Output(board: bool): Node {
    Node(true, board, map[], map["out" := true], {}, map[], map["out" := {"soc-gpio"}], None, {"out"}, Some(false), {})
  }

  /** A board with an LED on an exposed pin, and two outputs of the project. */
  function TwoOutputs(): Context {
    Context(map[LED.path := Output(true), MINE.path := Output(false), YOURS.path := Output(false)],
            {"PA5"}, {"PA5"}, [], {}, {})
  }

  /** Two nets on the LED's pin, each with an output of its own as member and owner. */
  function Meeting(): Plan {
    Plan([], [NetDecl("a", Gpio("PA5"), MINE), NetDecl("b", Gpio("PA5"), YOURS)],
         map[MINE := Assignment(OnNet("a"), Some(MINE), MINE), YOURS := Assignment(OnNet("b"), Some(YOURS), YOURS)])
  }

  function MeetingNets(): map<string, Net> {
    map["a" := Net(Soc("PA5"), MINE, Some(LED)), "b" := Net(Soc("PA5"), YOURS, Some(LED))]
  }

  /**
   Two nets on an endpoint the board wires: the check reports nothing and leaves both outputs on the
   pin, each its own owner.
   */
  lemma NetsMeetOnBoard()
    ensures var c, wired, p, nets := TwoOutputs(), map[Soc("PA5") := LED], Meeting(), MeetingNets();
            && Legal(c, wired, p) && Keyed(p) && Coherent(p.pins) && NetsAre(c, wired, p.nets, nets)
            && Suited(c, nets, p.pins) && Owned(c, nets, p.pins) && !NetsAgree(c, wired, p)
            && forall endpoints, netOf, owners :: Complete(c, nets, p, endpoints, netOf, owners) ==>
                 && MINE in endpoints && YOURS in endpoints && endpoints[MINE] == Some(Soc("PA5")) == endpoints[YOURS]
                 && MINE in owners && YOURS in owners && owners[MINE] == MINE && owners[YOURS] == YOURS
  {
    var c, wired, p, nets, e := TwoOutputs(), map[Soc("PA5") := LED], Meeting(), MeetingNets(), Soc("PA5");
    MeetingNames();
    MeetingLegal();
    MeetingOwned();
    MeetingSuited();
    MeetingDisagrees();
    hide Legal, Keyed, NetsAre, Suited, Owned, Complete, NetsAgree, Meeting, MeetingNets, TwoOutputs, MINE, YOURS, LED;
    forall endpoints, netOf, owners | Complete(c, nets, p, endpoints, netOf, owners)
      ensures MINE in endpoints && YOURS in endpoints && endpoints[MINE] == Some(e) == endpoints[YOURS]
      ensures MINE in owners && YOURS in owners && owners[MINE] == MINE && owners[YOURS] == YOURS
    {
      MeetingOwners(endpoints, netOf, owners);
    }
  }

  lemma MeetingOwners(endpoints: map<Signal, Option<Endpoint>>, netOf: map<Signal, string>, owners: map<Signal, Signal>)
    requires Complete(TwoOutputs(), MeetingNets(), Meeting(), endpoints, netOf, owners)
    ensures MINE in endpoints && YOURS in endpoints && endpoints[MINE] == Some(Soc("PA5")) == endpoints[YOURS]
    ensures MINE in owners && YOURS in owners && owners[MINE] == MINE && owners[YOURS] == YOURS
  {
    var c, wired, p, nets, e := TwoOutputs(), map[Soc("PA5") := LED], Meeting(), MeetingNets(), Soc("PA5");
    MeetingNames();
    MeetingLegal();
    MeetingOwned();
    MeetingSuited();
    MeetingDeclares();
    hide Legal, Keyed, NetsAre, Suited, Owned, Complete, NetAt, Apart, Coherent;
    MemberEnds(c, wired, nets, p, endpoints, netOf, owners, 0, MINE, e);
    MemberEnds(c, wired, nets, p, endpoints, netOf, owners, 1, YOURS, e);
  }

  lemma MeetingDeclares()
    ensures NetAt(TwoOutputs(), Meeting().nets[0], "a", Soc("PA5"))
    ensures NetAt(TwoOutputs(), Meeting().nets[1], "b", Soc("PA5"))
    ensures Meeting().pins[MINE].value == OnNet("a") && Meeting().pins[YOURS].value == OnNet("b")
  {
    MeetingNames();
    assert Domain(Soc("PA5")) in NET_DOMAINS;
  }

  lemma MeetingDisagrees()
    ensures forall wired :: !NetsAgree(TwoOutputs(), wired, Meeting())
  {
    MeetingNames();
    MeetingDeclares();
    var p := Meeting();
    hide NetAt;
    assert MINE in p.pins && YOURS in p.pins;
    assert HasMember(p.pins, "a") && HasMember(p.pins, "b");
    assert p.nets[0].owner != p.nets[1].owner;
    assert !MembersAgree(TwoOutputs(), p);
  }

  lemma MeetingNames()
    ensures "a" != "b" && MINE != YOURS && LED != MINE && LED != YOURS && LED.path != MINE.path
    ensures LED.path != YOURS.path && MINE.path != YOURS.path
    ensures Apart(map[Soc("PA5") := LED], Meeting().pins) && Coherent(Meeting().pins)
  {
    assert "a"[0] != "b"[0];
    assert MINE.path[0] == "a" && YOURS.path[0] == "b" && |LED.path| == 2;
  }

  lemma MeetingLegal()
    ensures var c, wired, p := TwoOutputs(), map[Soc("PA5") := LED], Meeting();
            Legal(c, wired, p) && Keyed(p) && NetsAre(c, wired, p.nets, MeetingNets())
  {
    var c, wired, p, e := TwoOutputs(), map[Soc("PA5") := LED], Meeting(), Soc("PA5");
    MeetingNames();
    assert Domain(e) in NET_DOMAINS;
    assert NetAt(c, p.nets[0], "a", e) && NetAt(c, p.nets[1], "b", e);
    assert Holder([], true, "PA5").None? && Holder([], false, "PA5").None?;
    assert NetFits(c, wired, p.nets[0]) && NetFits(c, wired, p.nets[1]);
    hide Refused, NetFits;
    forall u, e | Uses(c, p, u, e) ensures u.NetUse? && e in wired {
      assert u.NetUse?;
      var i :| 0 <= i < |p.nets| && NetAt(c, p.nets[i], u.net, e);
    }
    hide Uses, NetAt;
    assert Exclusive(c, wired, p);
  }

  lemma MeetingOwned()
    ensures Owned(TwoOutputs(), MeetingNets(), Meeting().pins)
  {
    MeetingNames();
    var c, nets := TwoOutputs(), MeetingNets();
    var joined := Joined(nets, Meeting().pins);
    assert IsSignal(c, LED) && IsSignal(c, MINE) && IsSignal(c, YOURS);
    assert MINE in joined && joined[MINE] == "a" && YOURS in joined && joined[YOURS] == "b";
    assert forall p :: p in c.nodes ==> c.nodes[p].activeLow == Some(false);
    hide IsSignal, TwoOutputs;
    assert OwnerFits(c, nets, joined, "a") && OwnerFits(c, nets, joined, "b");
  }

  lemma MeetingSuited()
    ensures Suited(TwoOutputs(), MeetingNets(), Meeting().pins)
  {
    MeetingNames();
    var c := TwoOutputs();
    assert SuitsSignal(c, MINE, Soc("PA5")) && SuitsSignal(c, YOURS, Soc("PA5"));
    hide SuitsSignal;
  }

  /** A net with an output of the project, and after it one without members that the board's signal owns. */
  function Claimed(): Plan {
    Plan([], [NetDecl("a", Gpio("PA5"), MINE), NetDecl("b", Gpio("PA5"), LED)],
         map[MINE := Assignment(OnNet("a"), Some(MINE), MINE)])
  }

  function ClaimedNets(): map<string, Net> {
    map["a" := Net(Soc("PA5"), MINE, Some(LED)), "b" := Net(Soc("PA5"), LED, Some(LED))]
  }

  /** The check reports nothing and leaves the project's output and the board's on the pin, each its own owner. */
  lemma BoardOwnsLater()
    ensures var c, wired, p, nets := TwoOutputs(), map[Soc("PA5") := LED], Claimed(), ClaimedNets();
            && Legal(c, wired, p) && Keyed(p) && Coherent(p.pins) && NetsAre(c, wired, p.nets, nets)
            && Suited(c, nets, p.pins) && Owned(c, nets, p.pins) && MembersAgree(c, p) && !NetsAgree(c, wired, p)
            && forall endpoints, netOf, owners :: Complete(c, nets, p, endpoints, netOf, owners) ==>
                 && MINE in endpoints && LED in endpoints && endpoints[MINE] == Some(Soc("PA5")) == endpoints[LED]
                 && MINE in owners && LED in owners && owners[MINE] == MINE && owners[LED] == LED
  {
    var c, wired, p, nets, e := TwoOutputs(), map[Soc("PA5") := LED], Claimed(), ClaimedNets(), Soc("PA5");
    MeetingNames();
    ClaimedLegal();
    ClaimedOwned();
    ClaimedAgree();
    hide Legal, Keyed, NetsAre, Suited, Owned, Complete, NetsAgree, MembersAgree, Claimed, ClaimedNets, TwoOutputs,
         MINE, LED;
    forall endpoints, netOf, owners | Complete(c, nets, p, endpoints, netOf, owners)
      ensures MINE in endpoints && LED in endpoints && endpoints[MINE] == Some(e) == endpoints[LED]
      ensures MINE in owners && LED in owners && owners[MINE] == MINE && owners[LED] == LED
    {
      ClaimedOwners(endpoints, netOf, owners);
    }
  }

  lemma ClaimedOwners(endpoints: map<Signal, Option<Endpoint>>, netOf: map<Signal, string>, owners: map<Signal, Signal>)
    requires Complete(TwoOutputs(), ClaimedNets(), Claimed(), endpoints, netOf, owners)
    ensures MINE in endpoints && LED in endpoints && endpoints[MINE] == Some(Soc("PA5")) == endpoints[LED]
    ensures MINE in owners && LED in owners && owners[MINE] == MINE && owners[LED] == LED
  {
    var c, wired, p, nets, e := TwoOutputs(), map[Soc("PA5") := LED], Claimed(), ClaimedNets(), Soc("PA5");
    MeetingNames();
    ClaimedLegal();
    ClaimedOwned();
    ClaimedDeclares();
    hide Legal, Keyed, NetsAre, Suited, Owned, Complete, NetAt, Coherent;
    MemberEnds(c, wired, nets, p, endpoints, netOf, owners, 0, MINE, e);
    LastEnds(c, wired, nets, p, endpoints, netOf, owners, LED, 1, e);
  }

  lemma ClaimedDeclares()
    ensures NetAt(TwoOutputs(), Claimed().nets[0], "a", Soc("PA5"))
    ensures NetAt(TwoOutputs(), Claimed().nets[1], "b", Soc("PA5"))
    ensures Claimed().pins[MINE].value == OnNet("a") && HasMember(Claimed().pins, "a")
    ensures !HasMember(Claimed().pins, "b")
    ensures LastDecl(TwoOutputs(), map[Soc("PA5") := LED], Claimed(), LED, 1)
    ensures Apart(map[Soc("PA5") := LED], Claimed().pins) && Coherent(Claimed().pins)
  {
    MeetingNames();
    assert Domain(Soc("PA5")) in NET_DOMAINS;
    assert MINE in Claimed().pins;
    assert NetAt(TwoOutputs(), Claimed().nets[1], Claimed().nets[1].name, Soc("PA5"));
    assert OnBoardSignal(TwoOutputs(), map[Soc("PA5") := LED], Claimed().nets[1], LED);
  }

  lemma ClaimedAgree()
    ensures var c, wired, p := TwoOutputs(), map[Soc("PA5") := LED], Claimed();
            MembersAgree(c, p) && !NetsAgree(c, wired, p) && Coherent(p.pins)
  {
    MeetingNames();
    ClaimedDeclares();
    var c, wired, p := TwoOutputs(), map[Soc("PA5") := LED], Claimed();
    hide NetAt, LastDecl;
    assert p.nets[0].owner == MINE && p.nets[1].owner == LED;
    assert !LastAgrees(c, wired, p);
  }

  lemma ClaimedLegal()
    ensures var c, wired, p := TwoOutputs(), map[Soc("PA5") := LED], Claimed();
            Legal(c, wired, p) && Keyed(p) && NetsAre(c, wired, p.nets, ClaimedNets())
  {
    var c, wired, p, e := TwoOutputs(), map[Soc("PA5") := LED], Claimed(), Soc("PA5");
    MeetingNames();
    assert Domain(e) in NET_DOMAINS;
    assert NetAt(c, p.nets[0], "a", e) && NetAt(c, p.nets[1], "b", e);
    assert Holder([], true, "PA5").None? && Holder([], false, "PA5").None?;
    assert NetFits(c, wired, p.nets[0]) && NetFits(c, wired, p.nets[1]);
    hide Refused, NetFits;
    forall u, e | Uses(c, p, u, e) ensures u.NetUse? && e in wired {
      assert u.NetUse?;
      var i :| 0 <= i < |p.nets| && NetAt(c, p.nets[i], u.net, e);
    }
    hide Uses, NetAt;
    assert Exclusive(c, wired, p);
  }

  lemma ClaimedOwned()
    ensures Owned(TwoOutputs(), ClaimedNets(), Claimed().pins) && Suited(TwoOutputs(), ClaimedNets(), Claimed().pins)
  {
    MeetingNames();
    var c, nets := TwoOutputs(), ClaimedNets();
    var joined := Joined(nets, Claimed().pins);
    assert IsSignal(c, LED) && IsSignal(c, MINE) && SuitsSignal(c, MINE, Soc("PA5"));
    assert MINE in joined && joined[MINE] == "a" && LED in Members(nets, joined, "b");
    assert forall p :: p in c.nodes ==> c.nodes[p].activeLow == Some(false);
    hide IsSignal, TwoOutputs, SuitsSignal;
    assert OwnerFits(c, nets, joined, "a") && OwnerFits(c, nets, joined, "b");
  }
}
