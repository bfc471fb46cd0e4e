/**
 What a discovery round does that an observer can see: which commands it issues, which gateways it
 remembers, and which routes it tracks, in which order.
 */
module RouteEffects {
  import opened Basics
  import opened Routes
  import opened RoutePruning
  import opened RouteRounds

  // ---------- which routes are supported ----------

  /** The first gateway with the route's address is gateway `i`. */
  ghost predicate FirstGateway(gs: seq<Gateway>, ip: string, i: nat) {
    && i < |gs| && (gs[i].v4 == ip || gs[i].v6 == ip)
    && forall j :: 0 <= j < i ==> gs[j].v4 != ip && gs[j].v6 != ip
  }

  /** A gateway has the route's address, and for an IPv6 route the first such gateway announces the
      route's prefix. */
  ghost predicate Supported(r: Route, gs: seq<Gateway>) {
    exists i: nat :: FirstGateway(gs, r.ip, i) && (r.isIPv4 || r.prefix == gs[i].prefix)
  }

  lemma StaleIffUnsupported(r: Route, gs: seq<Gateway>)
    ensures Stale(r, gs) <==> !Supported(r, gs)
  {
    var i := GatewayIndex(gs, r.ip);
    if i < |gs| {
      assert FirstGateway(gs, r.ip, i);
    }
    if j: nat :| FirstGateway(gs, r.ip, j) {
      assert Matches(gs[j], r.ip) && i == j;
    }
  }

  // ---------- which route a gateway gets ----------

  lemma {:induction false} ContainsIff(s: string, word: string)
    ensures Contains(s, word) <==> exists i :: 0 <= i <= |s| && word <= s[i..]
  {
    if word <= s {
      assert s[0..] == s;
    }
    if s != [] {
      ContainsIff(s[1..], word);
      if i :| 0 <= i <= |s[1..]| && word <= s[1..][i..] {
        assert s[1..][i..] == s[i + 1..];
      }
      if i :| 0 <= i <= |s| && word <= s[i..] {
        assert i > 0 ==> s[i..] == s[1..][i - 1..];
        assert i == 0 ==> s[i..] == s;
      }
    }
  }

  /** The text names no prefix: it is empty, or says null somewhere. */
  ghost predicate NoPrefix(prefix: string) {
    prefix == "" || exists i :: 0 <= i <= |prefix| && "null" <= prefix[i..]
  }

  /** A gateway that announces a prefix gets a route to its IPv6 address, any other one to its IPv4
      address. */
  lemma RouteOfGateway(g: Gateway)
    ensures RouteOf(g) == if NoPrefix(g.prefix) then Route(true, g.v4, g.prefix) else Route(false, g.v6, g.prefix)
  {
    ContainsIff(g.prefix, "null");
  }

  // ---------- which gateways are remembered ----------

  lemma {:induction false} AcceptedParts(a: seq<Entry>, b: seq<Entry>)
    ensures Accepted(a + b) == Accepted(a) + Accepted(b)
  {
    if b == [] {
      assert a + b == a;
    } else {
      var n := |b| - 1;
      AcceptedParts(a, b[..n]);
      assert (a + b)[..|a| + n] == a + b[..n];
      Assoc(Accepted(a), Accepted(b[..n]), if b[n].valid then [b[n].gw] else []);
    }
  }

  lemma AcceptedOne(e: Entry)
    ensures Accepted([e]) == if e.valid then [e.gw] else []
  {
    assert [e][..0] == [];
  }

  /** The gateways after a round: those accepted, none if the data cannot be read, and the old ones if
      there is no data. */
  lemma GatewaysAfterRound(st: Routing, d: Discovery, status: nat -> int)
    ensures RoundSpec(st, d, status).gateways ==
            match d
            case FetchFailed => st.gateways
            case Unparsable => []
            case NoGatewayField => []
            case Listed(entries) => Accepted(entries)
  {
  }

  // ---------- which commands are issued ----------

  /** The commands a round adds. */
  function Issued(st: Routing, d: Discovery, status: nat -> int): (cs: seq<Command>)
    ensures RoundSpec(st, d, status).commands == st.commands + cs
  {
    var p := Prune(st.routes, if d.Listed? then Accepted(d.entries) else [], 0);
    match d
    case FetchFailed => AllButSecond(st.routes)
    case Unparsable => AllButSecond(st.routes)
    case NoGatewayField =>
      Assoc(st.commands, p.1, AllButSecond(p.0));
      p.1 + AllButSecond(p.0)
    case Listed(entries) =>
      if Accepted(entries) == [] then
        assert st.commands + AllButSecond(st.routes) + [] == st.commands + AllButSecond(st.routes);
        AllButSecond(st.routes)
      else if |p.0| == 0 || |p.0| == |st.routes| then
        Assoc(st.commands, p.1, Setups(Accepted(entries)));
        p.1 + Setups(Accepted(entries))
      else p.1
  }

  function Deletions(cs: seq<Command>): nat {
    if cs == [] then 0 else (if cs[0].Delete? then 1 else 0) + Deletions(cs[1..])
  }

  /** `cs` is `n` deletions and then the setup of every gateway of `gs`, in order. */
  ghost predicate DeletesThenSetsUp(cs: seq<Command>, n: nat, gs: seq<Gateway>) {
    && |cs| == n + |gs|
    && (forall k :: 0 <= k < n ==> cs[k].Delete?)
    && forall k :: 0 <= k < |gs| ==> cs[n + k] == Setup(gs[k])
  }

  lemma {:induction false} SetupsAreInOrder(gs: seq<Gateway>)
    ensures |Setups(gs)| == |gs| && forall k :: 0 <= k < |gs| ==> Setups(gs)[k] == Setup(gs[k])
  {
    if gs != [] {
      SetupsAreInOrder(gs[..|gs| - 1]);
    }
  }

  lemma {:induction false} DeletesAreDeletes(rs: seq<Route>)
    ensures |Deletes(rs)| == |rs| && forall k :: 0 <= k < |rs| ==> Deletes(rs)[k] == Delete(rs[k].ip, rs[k].isIPv4)
  {
    if rs != [] {
      DeletesAreDeletes(rs[..|rs| - 1]);
    }
  }

  lemma {:induction false} CountDeletions(cs: seq<Command>, n: nat, gs: seq<Gateway>)
    requires DeletesThenSetsUp(cs, n, gs)
    ensures Deletions(cs) == n
    decreases |cs|
  {
    if cs != [] {
      var tail := cs[1..];
      if n > 0 {
        assert cs[0].Delete?;
        CountDeletions(tail, n - 1, gs);
      } else {
        assert cs[0] == Setup(gs[0]);
        assert forall k :: 0 <= k < |gs| - 1 ==> tail[k] == cs[0 + (k + 1)];
        CountDeletions(tail, 0, gs[1..]);
      }
    }
  }

  /** A round that finds gateways runs the setup of every one of them, in order, if it deletes no
      tracked route or as many as there were, and of none otherwise. */
  lemma SetupsIff(st: Routing, entries: seq<Entry>, status: nat -> int)
    requires Accepted(entries) != []
    ensures var gs, cs := Accepted(entries), Issued(st, Listed(entries), status);
            var n := Deletions(cs);
            DeletesThenSetsUp(cs, n, if n == 0 || n == |st.routes| then gs else [])
  {
    var gs := Accepted(entries);
    var stale := StaleOnes(st.routes, gs);
    var setUp := if |stale| == 0 || |stale| == |st.routes| then gs else [];
    IssuedByRound(st, entries, status);
    ShapeOf(stale, setUp);
    CountDeletions(Deletes(stale) + Setups(setUp), |stale|, setUp);
  }

  lemma IssuedByRound(st: Routing, entries: seq<Entry>, status: nat -> int)
    requires Accepted(entries) != []
    ensures var stale := StaleOnes(st.routes, Accepted(entries));
            Issued(st, Listed(entries), status) ==
            Deletes(stale) + Setups(if |stale| == 0 || |stale| == |st.routes| then Accepted(entries) else [])
  {
    var gs := Accepted(entries);
    PruneDeletesTheStale(st.routes, gs, 0);
    assert st.routes[0..] == st.routes;
    Assoc([], Deletes(StaleOnes(st.routes, gs)), []);
  }

  lemma ShapeOf(rs: seq<Route>, gs: seq<Gateway>)
    ensures DeletesThenSetsUp(Deletes(rs) + Setups(gs), |rs|, gs)
  {
    DeletesAreDeletes(rs);
    SetupsAreInOrder(gs);
    Joined(Deletes(rs), Setups(gs), gs);
  }

  lemma Joined(ds: seq<Command>, ss: seq<Command>, gs: seq<Gateway>)
    requires forall k :: 0 <= k < |ds| ==> ds[k].Delete?
    requires |ss| == |gs| && forall k :: 0 <= k < |gs| ==> ss[k] == Setup(gs[k])
    ensures DeletesThenSetsUp(ds + ss, |ds|, gs)
  {
    var cs := ds + ss;
    forall k | 0 <= k < |gs|
      ensures cs[|ds| + k] == Setup(gs[k])
    {
      assert cs[|ds| + k] == ss[k];
    }
  }

  /** A failed, unreadable or empty discovery deletes the tracked routes but the second. */
  lemma FailureCommands(st: Routing, d: Discovery, status: nat -> int)
    requires d == FetchFailed || d == Unparsable || (d.Listed? && Accepted(d.entries) == [])
    ensures Issued(st, d, status) == AllButSecond(st.routes)
  {
  }

  // ---------- which routes are tracked ----------

  /** The scripts that report a new route: exit status 23. */
  function Reports(gs: seq<Gateway>, status: nat -> int): nat {
    if gs == [] then 0 else Reports(gs[..|gs| - 1], status) + if status(|gs| - 1) == 23 then 1 else 0
  }

  /** One new route per gateway whose script reports 23, and no other. */
  lemma {:induction false} NewRoutesIff(gs: seq<Gateway>, status: nat -> int)
    ensures |NewRoutes(gs, status)| == Reports(gs, status)
    ensures forall r :: r in NewRoutes(gs, status) <==>
                        exists i :: 0 <= i < |gs| && status(i) == 23 && r == RouteOf(gs[i])
  {
    if gs != [] {
      var n := |gs| - 1;
      var init := NewRoutes(gs[..n], status);
      NewRoutesIff(gs[..n], status);
      forall r
        ensures r in NewRoutes(gs, status) <==> exists i :: 0 <= i < |gs| && status(i) == 23 && r == RouteOf(gs[i])
      {
        assert r in NewRoutes(gs, status) <==> r in init || (status(n) == 23 && r == RouteOf(gs[n]));
        if r in init {
          var i :| 0 <= i < n && status(i) == 23 && r == RouteOf(gs[..n][i]);
          assert r == RouteOf(gs[i]);
        }
        if i :| 0 <= i < |gs| && status(i) == 23 && r == RouteOf(gs[i]) && i < n {
          assert r == RouteOf(gs[..n][i]);
        }
      }
    }
  }

  /** New routes come in the order of their gateways. */
  lemma {:induction false} NewRoutesPrefix(gs: seq<Gateway>, k: nat, status: nat -> int)
    requires k <= |gs|
    ensures NewRoutes(gs[..k], status) <= NewRoutes(gs, status)
  {
    if k == |gs| {
      assert gs[..k] == gs;
    } else {
      var n := |gs| - 1;
      NewRoutesPrefix(gs[..n], k, status);
      assert gs[..n][..k] == gs[..k];
    }
  }

  ghost predicate TracksIp(rs: seq<Route>, ip: string) {
    exists r :: r in rs && r.ip == ip
  }

  lemma {:induction false} TrackAllTracks(rs: seq<Route>, keys: seq<Route>)
    ensures forall r :: r in rs ==> r in TrackAll(rs, keys)
    ensures forall r :: r in keys ==> TracksIp(TrackAll(rs, keys), r.ip)
  {
    if keys != [] {
      var n := |keys| - 1;
      TrackAllTracks(rs, keys[..n]);
      var t := TrackAll(rs, keys[..n]);
      TrackTracks(t, keys[n]);
      forall r | r in keys
        ensures TracksIp(TrackAll(rs, keys), r.ip)
      {
        if r != keys[n] {
          assert r in keys[..n];
          var q :| q in t && q.ip == r.ip;
          assert q in TrackAll(rs, keys);
        }
      }
    }
  }

  lemma TrackTracks(rs: seq<Route>, r: Route)
    ensures forall q :: q in rs ==> q in Track(rs, r)
    ensures TracksIp(Track(rs, r), r.ip)
  {
    var i := RouteIndex(rs, r.ip);
    if i < |rs| {
      assert rs[i] in rs && rs[i] in Track(rs, r);
    } else {
      assert r in Track(rs, r);
    }
  }

  /** After a round that finds gateways of which none supports a tracked route, exactly the gateways
      whose script reported 23 are tracked. */
  lemma ReplacedRoutes(st: Routing, entries: seq<Entry>, status: nat -> int)
    requires Accepted(entries) != [] && forall r :: r in st.routes ==> !Supported(r, Accepted(entries))
    ensures var gs, rs := Accepted(entries), RoundSpec(st, Listed(entries), status).routes;
            && (forall i :: 0 <= i < |gs| && status(i) == 23 ==> TracksIp(rs, RouteOf(gs[i]).ip))
            && (forall r :: r in rs ==> exists i :: 0 <= i < |gs| && status(i) == 23 && r == RouteOf(gs[i]))
  {
    var gs := Accepted(entries);
    EverythingIsReplaced(st, entries, status);
    NewRoutesIff(gs, status);
    TrackAllMembers([], NewRoutes(gs, status));
    ReportedIsTracked([], gs, status);
  }

  lemma EverythingIsReplaced(st: Routing, entries: seq<Entry>, status: nat -> int)
    requires Accepted(entries) != [] && forall r :: r in st.routes ==> !Supported(r, Accepted(entries))
    ensures RoundSpec(st, Listed(entries), status).routes == TrackAll([], NewRoutes(Accepted(entries), status))
  {
    NothingIsLeft(st.routes, Accepted(entries));
  }

  lemma NothingIsLeft(rs: seq<Route>, gs: seq<Gateway>)
    requires forall r :: r in rs ==> !Supported(r, gs)
    ensures Prune(rs, gs, 0).0 == []
  {
    forall i | 0 <= i < |rs|
      ensures Stale(rs[i], gs)
    {
      assert rs[i] in rs;
      StaleIffUnsupported(rs[i], gs);
    }
    AllStale(rs, gs);
    PruneDeletesTheStale(rs, gs, 0);
    assert rs[0..] == rs;
  }

  lemma ReportedIsTracked(rs: seq<Route>, gs: seq<Gateway>, status: nat -> int)
    ensures forall i :: 0 <= i < |gs| && status(i) == 23
              ==> TracksIp(TrackAll(rs, NewRoutes(gs, status)), RouteOf(gs[i]).ip)
  {
    NewRoutesIff(gs, status);
    TrackAllTracks(rs, NewRoutes(gs, status));
    forall i | 0 <= i < |gs| && status(i) == 23
      ensures TracksIp(TrackAll(rs, NewRoutes(gs, status)), RouteOf(gs[i]).ip)
    {
      assert RouteOf(gs[i]) in NewRoutes(gs, status);
    }
  }

  /** After a round that finds gateways supporting every tracked route, those routes are kept and the
      gateways whose script reported 23 are tracked too. */
  lemma ConfirmedRoutes(st: Routing, entries: seq<Entry>, status: nat -> int)
    requires Accepted(entries) != [] && forall r :: r in st.routes ==> Supported(r, Accepted(entries))
    ensures var gs, rs := Accepted(entries), RoundSpec(st, Listed(entries), status).routes;
            && (forall r :: r in st.routes ==> r in rs)
            && (forall i :: 0 <= i < |gs| && status(i) == 23 ==> TracksIp(rs, RouteOf(gs[i]).ip))
  {
    var gs := Accepted(entries);
    forall i | 0 <= i < |st.routes|
      ensures !Stale(st.routes[i], gs)
    {
      assert st.routes[i] in st.routes;
      StaleIffUnsupported(st.routes[i], gs);
    }
    RoundSetsAll(st, entries, status);
    TrackAllTracks(st.routes, NewRoutes(gs, status));
    ReportedIsTracked(st.routes, gs, status);
  }

  /** A round that loses some but not all of its tracked routes only drops them. */
  lemma PartlyLost(st: Routing, entries: seq<Entry>, status: nat -> int, lost: Route, held: Route)
    requires Accepted(entries) != [] && lost in st.routes && held in st.routes
    requires !Supported(lost, Accepted(entries)) && Supported(held, Accepted(entries))
    ensures RoundSpec(st, Listed(entries), status).routes == Prune(st.routes, Accepted(entries), 0).0
  {
    var gs := Accepted(entries);
    SomeOfEach(st.routes, gs, lost, held);
    PruneDeletesTheStale(st.routes, gs, 0);
    assert st.routes[0..] == st.routes;
  }

  lemma SomeOfEach(rs: seq<Route>, gs: seq<Gateway>, lost: Route, held: Route)
    requires lost in rs && held in rs && !Supported(lost, gs) && Supported(held, gs)
    ensures 0 < |StaleOnes(rs, gs)| < |rs|
  {
    StaleIffUnsupported(lost, gs);
    StaleIffUnsupported(held, gs);
    FreshOnesAreFresh(rs, gs);
    assert held in FreshOnes(rs, gs);
    StaleOnesAreStale(rs, gs);
    assert lost in StaleOnes(rs, gs);
  }

  lemma {:induction false} StaleOnesAreStale(rs: seq<Route>, gs: seq<Gateway>)
    ensures forall r :: r in StaleOnes(rs, gs) <==> r in rs && Stale(r, gs)
  {
    if rs != [] {
      StaleOnesAreStale(rs[1..], gs);
      assert rs == [rs[0]] + rs[1..];
    }
  }

  // ---------- in which order ----------

  function Backwards(rs: seq<Route>): seq<Route> {
    if rs == [] then [] else [rs[|rs| - 1]] + Backwards(rs[..|rs| - 1])
  }

  /** New addresses are tracked newest first, in front of the older ones. */
  lemma {:induction false} NewestFirst(rs: seq<Route>, keys: seq<Route>)
    requires Distinct(keys) && forall k :: 0 <= k < |keys| ==> !TracksIp(rs, keys[k].ip)
    ensures TrackAll(rs, keys) == Backwards(keys) + rs
  {
    if keys == [] {
      assert [] + rs == rs;
    } else {
      var n := |keys| - 1;
      var init := keys[..n];
      NewestFirst(rs, init);
      var t := TrackAll(rs, init);
      TrackAllMembers(rs, init);
      forall i | 0 <= i < |t|
        ensures t[i].ip != keys[n].ip
      {
        assert t[i] in t;
        if t[i] in init {
          var j :| 0 <= j < n && init[j] == t[i];
          assert keys[j].ip != keys[n].ip;
        }
      }
      Assoc([keys[n]], Backwards(init), rs);
    }
  }

  /** An address that is tracked is not added again, except an IPv6 one whose prefix changed, which
      goes in front. */
  lemma TrackAgain(rs: seq<Route>, i: nat, r: Route)
    requires i < |rs| && rs[i].ip == r.ip && forall j :: 0 <= j < i ==> rs[j].ip != r.ip
    ensures Track(rs, r) == if !r.isIPv4 && rs[i].prefix != r.prefix then [r] + rs else rs
  {
    assert RouteIndex(rs, r.ip) == i;
  }
}
