/**
 One discovery round as a function of the two lists, and what holds after every round of
 every run.
 */
module RouteRounds {
  import opened Basics
  import opened Routes
  import opened RoutePruning
  import IpSettings

  /** A gateway of the discovery data, and whether parsing accepts it. */
  datatype Entry = Entry(gw: Gateway, valid: bool)

  datatype Discovery =
    | FetchFailed                 // the bus call failed
    | Unparsable                  // not JSON
    | NoGatewayField              // JSON without xmediagateways
    | Listed(entries: seq<Entry>)

  datatype Routing = Routing(gateways: seq<Gateway>, routes: seq<Route>, commands: seq<Command>)

  function Accepted(entries: seq<Entry>): seq<Gateway> {
    if entries == [] then []
    else
      var n := |entries| - 1;
      Accepted(entries[..n]) + if entries[n].valid then [entries[n].gw] else []
  }

  function Cleared(st: Routing): Routing {
    st.(routes := [], commands := st.commands + AllButSecond(st.routes))
  }

  function Pruned(st: Routing): Routing {
    var p := Prune(st.routes, st.gateways, 0);
    st.(routes := p.0, commands := st.commands + p.1)
  }

  function WithRoutes(st: Routing, status: nat -> int): Routing {
    st.(routes := TrackAll(st.routes, NewRoutes(st.gateways, status)),
        commands := st.commands + Setups(st.gateways))
  }

  /** The result of checkExistingRouteValid: nothing was dropped, or everything was. */
  predicate AllOrNone(before: nat, after: nat) {
    after == 0 || after == before
  }

  /** One pass of the route thread. `status(i)` is the exit status of the i-th setup script. */
  function RoundSpec(st: Routing, d: Discovery, status: nat -> int): Routing {
    match d
    case FetchFailed => Cleared(st)
    case Unparsable => Cleared(st.(gateways := []))
    case NoGatewayField => Cleared(Pruned(st.(gateways := [])))
    case Listed(entries) =>
      var found := st.(gateways := Accepted(entries));
      if found.gateways == [] then Cleared(Cleared(found))
      else
        var kept := Pruned(found);
        if AllOrNone(|st.routes|, |kept.routes|) then WithRoutes(kept, status) else kept
  }

  // ---------- failed and empty discoveries ----------

  /** Whatever was tracked, a failed or empty discovery leaves nothing tracked. */
  lemma FailureForgetsEverything(st: Routing, d: Discovery, status: nat -> int)
    requires d.Listed? ==> Accepted(d.entries) == []
    ensures RoundSpec(st, d, status).routes == []
  {
  }

  /** Which routes delRouteList really deletes: all of them exactly when there is at most one,
      since the second of two or more is forgotten without a deletion. */
  lemma {:induction false} SecondRouteLeaks(rs: seq<Route>, i: nat)
    requires Distinct(rs) && i < |rs|
    ensures Delete(rs[i].ip, rs[i].isIPv4) in AllButSecond(rs) <==> |rs| == 1 || i != 1
  {
    var cs := if |rs| == 1 then rs else rs[..1] + rs[2..];
    DeletesMembers(cs, Delete(rs[i].ip, rs[i].isIPv4));
    if |rs| == 1 || i != 1 {
      var k := if i == 0 then 0 else i - 1;
      assert cs[k] == rs[i];
    }
  }

  lemma {:induction false} DeletesMembers(rs: seq<Route>, c: Command)
    ensures c in Deletes(rs) <==> exists k :: 0 <= k < |rs| && c == Delete(rs[k].ip, rs[k].isIPv4)
  {
    if rs != [] {
      var n := |rs| - 1;
      DeletesMembers(rs[..n], c);
      if k :| 0 <= k < |rs| && c == Delete(rs[k].ip, rs[k].isIPv4) {
        assert k < n ==> rs[..n][k] == rs[k];
      }
    }
  }

  /** A discovery without the gateway field deletes every tracked route first, so there
      nothing leaks. */
  lemma MissingFieldDeletesAll(st: Routing, status: nat -> int)
    ensures RoundSpec(st, NoGatewayField, status).commands == st.commands + Deletes(st.routes)
  {
    PruneDeletesTheStale(st.routes, [], 0);
    EverythingIsStale(st.routes);
    assert st.routes[0..] == st.routes;
    assert st.commands + Deletes(st.routes) + [] == st.commands + Deletes(st.routes);
  }

  lemma {:induction false} EverythingIsStale(rs: seq<Route>)
    ensures StaleOnes(rs, []) == rs
  {
    if rs != [] {
      EverythingIsStale(rs[1..]);
    }
  }

  // ---------- every round of every run ----------

  /** Gateways announcing the same IPv6 address announce the same prefix. */
  predicate OnePrefixPerAddress(gs: seq<Gateway>) {
    forall i, j :: 0 <= i < |gs| && 0 <= j < |gs| &&
                   V6Mode(gs[i].prefix) && V6Mode(gs[j].prefix) && gs[i].v6 == gs[j].v6
      ==> gs[i].prefix == gs[j].prefix
  }

  /** IPv4 fields come from `v4s`; IPv6 addresses of gateways with an IPv6 prefix do not. */
  predicate Separated(gs: seq<Gateway>, v4s: set<string>) {
    forall i :: 0 <= i < |gs| ==> gs[i].v4 in v4s && (V6Mode(gs[i].prefix) ==> gs[i].v6 !in v4s)
  }

  predicate InFamily(r: Route, v4s: set<string>) {
    if r.isIPv4 then r.ip in v4s else r.ip !in v4s && V6Mode(r.prefix)
  }

  predicate Families(rs: seq<Route>, v4s: set<string>) {
    forall i :: 0 <= i < |rs| ==> InFamily(rs[i], v4s)
  }

  lemma {:induction false} NewRoutesComeFromGateways(gs: seq<Gateway>, status: nat -> int)
    ensures forall r :: r in NewRoutes(gs, status) ==> exists i :: 0 <= i < |gs| && r == RouteOf(gs[i])
  {
    if gs != [] {
      var n := |gs| - 1;
      NewRoutesComeFromGateways(gs[..n], status);
      forall r | r in NewRoutes(gs, status)
        ensures exists i :: 0 <= i < |gs| && r == RouteOf(gs[i])
      {
        if r in NewRoutes(gs[..n], status) {
          var i :| 0 <= i < n && r == RouteOf(gs[..n][i]);
          assert r == RouteOf(gs[i]);
        }
      }
    }
  }

  lemma {:induction false} TrackAllMembers(rs: seq<Route>, keys: seq<Route>)
    ensures forall r :: r in TrackAll(rs, keys) ==> r in rs || r in keys
  {
    if keys != [] {
      TrackAllMembers(rs, keys[..|keys| - 1]);
    }
  }

  /** A kept IPv6 route and a gateway with the same IPv6 address agree on the prefix. */
  lemma KeptRoutesAgree(r: Route, g: Gateway, gs: seq<Gateway>, v4s: set<string>)
    requires Separated(gs, v4s) && OnePrefixPerAddress(gs)
    requires InFamily(r, v4s) && !Stale(r, gs)
    requires g in gs && V6Mode(g.prefix) && r.ip == g.v6
    ensures r.prefix == g.prefix
  {
    var i := GatewayIndex(gs, r.ip);
    var j :| 0 <= j < |gs| && gs[j] == g;
    assert gs[j].v6 !in v4s;
    assert gs[i].v4 in v4s;
  }

  lemma NoClashes(kept: seq<Route>, gs: seq<Gateway>, status: nat -> int, v4s: set<string>)
    requires Separated(gs, v4s) && OnePrefixPerAddress(gs) && Families(kept, v4s)
    requires forall r :: r in kept ==> !Stale(r, gs)
    ensures NoPrefixClash(kept, NewRoutes(gs, status))
  {
    var keys := NewRoutes(gs, status);
    NewRoutesComeFromGateways(gs, status);
    forall k | 0 <= k < |keys|
      ensures AgreesWithFirst(kept, keys, k)
    {
      assert keys[k] in keys;
      var seen := kept + keys[..k];
      var f := RouteIndex(seen, keys[k].ip);
      if !keys[k].isIPv4 && f < |seen| {
        var j :| 0 <= j < |gs| && keys[k] == RouteOf(gs[j]);
        if f < |kept| {
          assert seen[f] == kept[f] && kept[f] in kept;
          KeptRoutesAgree(kept[f], gs[j], gs, v4s);
        } else {
          assert seen[f] == keys[f - |kept|] && seen[f] in keys;
          var m :| 0 <= m < |gs| && seen[f] == RouteOf(gs[m]);
          NewRoutesAgree(gs, j, m, v4s);
        }
      }
    }
  }

  /** Two routes set for the same IPv6 address agree on the prefix. */
  lemma NewRoutesAgree(gs: seq<Gateway>, j: nat, m: nat, v4s: set<string>)
    requires Separated(gs, v4s) && OnePrefixPerAddress(gs) && j < |gs| && m < |gs|
    requires !RouteOf(gs[j]).isIPv4 && RouteOf(gs[j]).ip == RouteOf(gs[m]).ip
    ensures RouteOf(gs[j]).prefix == RouteOf(gs[m]).prefix
  {
    assert gs[m].v4 in v4s && gs[j].v6 !in v4s;
  }

  /** Setting routes keeps addresses distinct if the surviving routes and the gateways do not
      clash. */
  lemma SetupKeepsDistinct(kept: Routing, status: nat -> int, v4s: set<string>)
    requires Separated(kept.gateways, v4s) && OnePrefixPerAddress(kept.gateways)
    requires Distinct(kept.routes) && Families(kept.routes, v4s)
    requires forall r :: r in kept.routes ==> !Stale(r, kept.gateways)
    ensures Distinct(WithRoutes(kept, status).routes) && Families(WithRoutes(kept, status).routes, v4s)
  {
    var gs := kept.gateways;
    var keys := NewRoutes(gs, status);
    NoClashes(kept.routes, gs, status, v4s);
    DistinctIffNoClash(kept.routes, keys);
    var rs := TrackAll(kept.routes, keys);
    forall i | 0 <= i < |rs|
      ensures InFamily(rs[i], v4s)
    {
      TrackAllMembers(kept.routes, keys);
      assert rs[i] in rs;
      if rs[i] in keys && rs[i] !in kept.routes {
        NewRoutesComeFromGateways(gs, status);
        var j :| 0 <= j < |gs| && rs[i] == RouteOf(gs[j]);
      }
    }
  }

  lemma PruneKeepsDistinct(st: Routing, v4s: set<string>)
    requires Distinct(st.routes) && Families(st.routes, v4s)
    ensures var kept := Pruned(st);
            && Distinct(kept.routes) && Families(kept.routes, v4s)
            && forall r :: r in kept.routes ==> !Stale(r, st.gateways)
  {
    var rs := st.routes;
    PruneKeepsTheFresh(rs, st.gateways, 0);
    assert rs[0..] == rs && rs[..0] == [];
    FreshOnesAreFresh(rs, st.gateways);
    FreshOnesDistinct(rs, st.gateways);
    var kept := Pruned(st).routes;
    assert kept == FreshOnes(rs, st.gateways);
    forall i | 0 <= i < |kept|
      ensures InFamily(kept[i], v4s)
    {
      assert kept[i] in kept;
    }
  }

  datatype Round = Round(d: Discovery, status: nat -> int)

  /** What a discovery may announce: nothing, or gateways whose addresses do not clash. */
  predicate Plausible(d: Discovery, v4s: set<string>) {
    d.Listed? ==> Separated(Accepted(d.entries), v4s) && OnePrefixPerAddress(Accepted(d.entries))
  }

  lemma RoundKeepsDistinct(st: Routing, r: Round, v4s: set<string>)
    requires Distinct(st.routes) && Families(st.routes, v4s) && Plausible(r.d, v4s)
    ensures Distinct(RoundSpec(st, r.d, r.status).routes) && Families(RoundSpec(st, r.d, r.status).routes, v4s)
  {
    if r.d.Listed? && Accepted(r.d.entries) != [] {
      var found := st.(gateways := Accepted(r.d.entries));
      PruneKeepsDistinct(found, v4s);
      if AllOrNone(|st.routes|, |Pruned(found).routes|) {
        SetupKeepsDistinct(Pruned(found), r.status, v4s);
      }
    }
  }

  /** Exactly when one round that finds gateways keeps tracked addresses distinct, for any
      addresses at all: it sets no routes, or no route it sets disagrees on the prefix with the
      first mention of its address among the surviving routes and those set before it. */
  lemma DistinctAfterRoundIff(st: Routing, entries: seq<Entry>, status: nat -> int)
    requires Distinct(st.routes) && Accepted(entries) != []
    ensures var gs := Accepted(entries);
            var kept := FreshOnes(st.routes, gs);
            Distinct(RoundSpec(st, Listed(entries), status).routes) <==>
              !AllOrNone(|st.routes|, |kept|) || NoPrefixClash(kept, NewRoutes(gs, status))
  {
    var gs := Accepted(entries);
    PruneKeepsTheFresh(st.routes, gs, 0);
    assert st.routes[0..] == st.routes && st.routes[..0] + FreshOnes(st.routes, gs) == FreshOnes(st.routes, gs);
    FreshOnesDistinct(st.routes, gs);
    DistinctIffNoClash(FreshOnes(st.routes, gs), NewRoutes(gs, status));
  }

  ghost function RunRounds(rounds: seq<Round>): Routing {
    if rounds == [] then Routing([], [], [])
    else
      var n := |rounds| - 1;
      RoundSpec(RunRounds(rounds[..n]), rounds[n].d, rounds[n].status)
  }

  /** After every round of every run whose addresses keep their roles, no address is tracked
      twice, whatever the scripts report. */
  lemma {:induction false} AlwaysDistinct(rounds: seq<Round>, v4s: set<string>)
    requires forall k :: 0 <= k < |rounds| ==> Plausible(rounds[k].d, v4s)
    ensures Distinct(RunRounds(rounds).routes) && Families(RunRounds(rounds).routes, v4s)
  {
    if rounds != [] {
      var n := |rounds| - 1;
      AlwaysDistinct(rounds[..n], v4s);
      RoundKeepsDistinct(RunRounds(rounds[..n]), rounds[n], v4s);
    }
  }

  /** A round, seen before it happens, sets no route that disagrees on the prefix with the first
      mention of its address. */
  predicate Agrees(rs: seq<Route>, r: Round) {
    r.d.Listed? && Accepted(r.d.entries) != [] ==>
      var gs := Accepted(r.d.entries);
      var kept := FreshOnes(rs, gs);
      !AllOrNone(|rs|, |kept|) || NoPrefixClash(kept, NewRoutes(gs, r.status))
  }

  lemma RoundIsDistinctIff(st: Routing, r: Round)
    requires Distinct(st.routes)
    ensures Distinct(RoundSpec(st, r.d, r.status).routes) <==> Agrees(st.routes, r)
  {
    if r.d.Listed? && Accepted(r.d.entries) != [] {
      DistinctAfterRoundIff(st, r.d.entries, r.status);
    }
  }

  lemma RunStep(rounds: seq<Round>, k: nat)
    requires k < |rounds|
    ensures RunRounds(rounds[..k + 1]) == RoundSpec(RunRounds(rounds[..k]), rounds[k].d, rounds[k].status)
  {
    assert rounds[..k + 1][..k] == rounds[..k];
  }

  /** The tracked routes after `k` rounds are distinct. */
  ghost predicate DistinctAt(rounds: seq<Round>, k: nat) {
    k <= |rounds| ==> Distinct(RunRounds(rounds[..k]).routes)
  }

  /** Round `k` agrees with what is tracked when it starts. */
  ghost predicate AgreesAt(rounds: seq<Round>, k: nat) {
    k < |rounds| ==> Agrees(RunRounds(rounds[..k]).routes, rounds[k])
  }

  lemma StaysDistinctIff(rounds: seq<Round>, k: nat)
    requires k < |rounds|
    ensures DistinctAt(rounds, k) ==> (DistinctAt(rounds, k + 1) <==> AgreesAt(rounds, k))
  {
    RunStep(rounds, k);
    if DistinctAt(rounds, k) {
      RoundIsDistinctIff(RunRounds(rounds[..k]), rounds[k]);
    }
  }

  /** Something true at first holds throughout exactly when every step that starts from it
      keeps it. */
  lemma {:induction false} ThroughoutIff(p: nat -> bool, q: nat -> bool, n: nat)
    requires p(0) && forall k :: 0 <= k < n ==> p(k) ==> (p(k + 1) <==> q(k))
    ensures (forall k :: 0 <= k <= n ==> p(k)) <==> (forall k :: 0 <= k < n ==> q(k))
  {
    if n > 0 {
      ThroughoutIff(p, q, n - 1);
      assert p(n - 1) ==> (p(n - 1 + 1) <==> q(n - 1));
      if forall k :: 0 <= k < n ==> q(k) {
        assert forall k :: 0 <= k < n ==> p(k);
      }
    }
  }

  /** With no assumption on addresses: addresses are distinct after every round of a run if and
      only if each round agrees with what is tracked when it starts. */
  lemma DistinctThroughoutIff(rounds: seq<Round>)
    ensures (forall k :: 0 <= k <= |rounds| ==> DistinctAt(rounds, k)) <==>
            (forall k :: 0 <= k < |rounds| ==> AgreesAt(rounds, k))
  {
    var p, q := (k: nat) => DistinctAt(rounds, k), (k: nat) => AgreesAt(rounds, k);
    assert rounds[..0] == [];
    forall k | 0 <= k < |rounds|
      ensures p(k) ==> (p(k + 1) <==> q(k))
    {
      StaysDistinctIff(rounds, k);
    }
    ThroughoutIff(p, q, |rounds|);
    assert forall k :: 0 <= k <= |rounds| ==> p(k) == DistinctAt(rounds, k);
    assert forall k :: 0 <= k < |rounds| ==> q(k) == AgreesAt(rounds, k);
  }

  // ---------- tracked addresses belong to current gateways ----------

  predicate Belongs(r: Route, gs: seq<Gateway>) {
    GatewayIndex(gs, r.ip) < |gs|
  }

  /** Every tracked address belongs to a gateway of the current list. */
  predicate AllBelong(st: Routing) {
    forall r :: r in st.routes ==> Belongs(r, st.gateways)
  }

  lemma GatewayRouteBelongs(gs: seq<Gateway>, i: nat)
    requires i < |gs|
    ensures Belongs(RouteOf(gs[i]), gs)
  {
    assert Matches(gs[i], RouteOf(gs[i]).ip);
  }

  /** Pruning any list, with duplicates or not, leaves only routes of current gateways. */
  lemma PruneBelongs(st: Routing)
    ensures AllBelong(Pruned(st))
  {
    forall r | r in Pruned(st).routes
      ensures Belongs(r, st.gateways)
    {
      ToMembers(Pruned(st).routes, r.ip, r);
      if !Belongs(r, st.gateways) {
        PruneDropsTheHomeless(st.routes, st.gateways, r.ip);
      }
    }
  }

  lemma SetupBelongs(kept: Routing, status: nat -> int)
    requires AllBelong(kept)
    ensures AllBelong(WithRoutes(kept, status))
  {
    var gs := kept.gateways;
    var keys := NewRoutes(gs, status);
    TrackAllMembers(kept.routes, keys);
    NewRoutesComeFromGateways(gs, status);
    forall r | r in TrackAll(kept.routes, keys)
      ensures Belongs(r, gs)
    {
      if r in keys {
        var j :| 0 <= j < |gs| && r == RouteOf(gs[j]);
        GatewayRouteBelongs(gs, j);
      }
    }
  }

  /** One round from any state, reconciled or not, leaves only routes of current gateways. */
  lemma RoundBelongs(st: Routing, r: Round)
    ensures AllBelong(RoundSpec(st, r.d, r.status))
  {
    if r.d.Listed? && Accepted(r.d.entries) != [] {
      var found := st.(gateways := Accepted(r.d.entries));
      PruneBelongs(found);
      SetupBelongs(Pruned(found), r.status);
    }
  }

  /** After every round of every run, whatever is discovered and whatever the scripts report,
      every tracked address belongs to a gateway of the current list. */
  lemma AlwaysBelongs(rounds: seq<Round>)
    ensures AllBelong(RunRounds(rounds))
  {
    if rounds != [] {
      var n := |rounds| - 1;
      RoundBelongs(RunRounds(rounds[..n]), rounds[n]);
    }
  }

  // ---------- why the whole run matters ----------

  /** No address is shared between two gateways or between the two fields of one. */
  predicate NothingShared(gs: seq<Gateway>) {
    && (forall i :: 0 <= i < |gs| ==> gs[i].v4 != gs[i].v6)
    && forall i, j :: 0 <= i < j < |gs| ==> !Matches(gs[j], gs[i].v4) && !Matches(gs[j], gs[i].v6)
  }

  /** Two rounds track one address twice whenever the IPv4 address of the first gateway becomes
      the IPv6 address of the second. */
  lemma RolesMustNotSwap(g1: Gateway, g2: Gateway, always: nat -> int)
    requires forall i :: always(i) == ROUTE_SET
    requires !V6Mode(g1.prefix) && V6Mode(g2.prefix) && g1.v4 == g2.v6
    ensures !Distinct(RunRounds([Finds(g1, always)] + [Finds(g2, always)]).routes)
  {
    var r1 := Finds(g1, always);
    SecondMention(RouteOf(g1), RouteOf(g2), g2);
    OneMore([], g1, always);
    assert [] + [r1] == [r1];
    OneMore([r1], g2, always);
  }

  predicate AllFresh(rs: seq<Route>, gs: seq<Gateway>) {
    forall j :: 0 <= j < |rs| ==> !Stale(rs[j], gs)
  }

  lemma OneMore(rounds: seq<Round>, g: Gateway, always: nat -> int)
    requires forall i :: always(i) == ROUTE_SET
    requires AllFresh(RunRounds(rounds).routes, [g])
    ensures RunRounds(rounds + [Finds(g, always)]).routes == Track(RunRounds(rounds).routes, RouteOf(g))
  {
    OneGateway(RunRounds(rounds), g, always);
    assert (rounds + [Finds(g, always)])[..|rounds|] == rounds;
  }

  lemma SecondMention(t1: Route, t2: Route, g: Gateway)
    requires t1.isIPv4 && !t2.isIPv4 && t1.ip == t2.ip == g.v6 && t1.prefix != t2.prefix
    ensures Track([], t1) == [t1] && !Stale(t1, [g]) && !Distinct(Track([t1], t2))
  {
    assert Matches([g][0], t1.ip);
    assert Track([t1], t2) == [t2, t1];
    assert [t2, t1][0].ip == [t2, t1][1].ip;
  }

  function Finds(g: Gateway, status: nat -> int): Round {
    Round(Listed([Entry(g, true)]), status)
  }

  /** A round that finds gateways supporting every tracked route sets the routes of all. */
  lemma RoundSetsAll(st: Routing, entries: seq<Entry>, status: nat -> int)
    requires Accepted(entries) != [] && AllFresh(st.routes, Accepted(entries))
    ensures var gs := Accepted(entries);
            var st' := RoundSpec(st, Listed(entries), status);
            st'.gateways == gs && st'.routes == TrackAll(st.routes, NewRoutes(gs, status))
  {
    PruneNothing(st.routes, Accepted(entries), 0);
  }

  lemma OneAccepted(g: Gateway)
    ensures Accepted([Entry(g, true)]) == [g]
  {
    assert [Entry(g, true)][..0] == [];
  }

  lemma OneNewRoute(g: Gateway, status: nat -> int)
    requires status(0) == ROUTE_SET
    ensures NewRoutes([g], status) == [RouteOf(g)]
  {
    assert [g][..0] == [];
  }

  lemma TrackOne(rs: seq<Route>, r: Route)
    ensures TrackAll(rs, [r]) == Track(rs, r)
  {
    assert [r][..0] == [];
  }

  /** A round that finds one gateway, supporting every tracked route, and sets its route. */
  lemma OneGateway(st: Routing, g: Gateway, always: nat -> int)
    requires forall i :: always(i) == ROUTE_SET
    requires AllFresh(st.routes, [g])
    ensures var st' := RoundSpec(st, Finds(g, always).d, always);
            st'.gateways == [g] && st'.routes == Track(st.routes, RouteOf(g))
  {
    OneAccepted(g);
    OneNewRoute(g, always);
    TrackOne(st.routes, RouteOf(g));
    RoundSetsAll(st, [Entry(g, true)], always);
  }

  lemma {:induction false} NoNullWithoutN(s: string)
    requires forall i :: 0 <= i < |s| ==> s[i] != 'n'
    ensures !Contains(s, "null")
  {
    assert "null"[0] == 'n';
    if s != [] {
      NoNullWithoutN(s[1..]);
    }
  }

  /** What checkvalidip accepts, in either field: an empty text, or an IPv4 address. (It accepts
      IPv6 addresses too.) */
  predicate AddressAccepted(s: string) {
    s == "" || IpSettings.Pton(s).Some?
  }

  /** Two discoveries of one gateway each, with accepted addresses and nothing shared inside
      either, after which one address is tracked twice. */
  lemma RolesCanSwap(always: nat -> int) returns (g1: Gateway, g2: Gateway)
    requires forall i :: always(i) == ROUTE_SET
    ensures AddressAccepted(g1.v4) && AddressAccepted(g1.v6) && AddressAccepted(g2.v4) && AddressAccepted(g2.v6)
    ensures NothingShared([g1]) && NothingShared([g2])
    ensures !Distinct(RunRounds([Finds(g1, always)] + [Finds(g2, always)]).routes)
  {
    var a, c := "10.0.0.1", "10.0.0.2";
    assert a[7] != c[7];
    TwoAddresses();
    NoNullWithoutN("2001:db8::");
    g1, g2 := Swapped(a, c, "2001:db8::", always);
  }

  lemma TwoAddresses()
    ensures IpSettings.Pton("10.0.0.1") == Some(0x0a000001)
    ensures IpSettings.Pton("10.0.0.2") == Some(0x0a000002)
  {
  }

  lemma Swapped(a: string, c: string, prefix: string, always: nat -> int) returns (g1: Gateway, g2: Gateway)
    requires a != "" && a != c && V6Mode(prefix)
    requires forall i :: always(i) == ROUTE_SET
    ensures g1.v4 == a && g1.v6 == "" && g2.v4 == c && g2.v6 == a
    ensures NothingShared([g1]) && NothingShared([g2])
    ensures !Distinct(RunRounds([Finds(g1, always)] + [Finds(g2, always)]).routes)
  {
    g1, g2 := Gateway(a, "", "", "XG1"), Gateway(c, a, prefix, "XG1");
    RolesMustNotSwap(g1, g2, always);
  }
}
