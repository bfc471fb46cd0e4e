/**
 The route manager as the source runs it: the variable that names the tracked list is also
 the cursor that walks it, and finding or stepping can leave it null, which loses the list.
 */
module RouteManager {
  import opened Basics
  import opened Routes
  import opened RouteRounds

  class Manager {
    var gateways: seq<Gateway>
    var routes: seq<Route>      // the nodes reachable from gwRouteInfo; none when it is null
    var cursor: nat             // which of them gwRouteInfo points at
    var commands: seq<Command>

    ghost predicate Valid()
      reads this
    {
      cursor < |routes| || (routes == [] && cursor == 0)
    }

    ghost function View(): Routing
      reads this
    {
      Routing(gateways, routes, commands)
    }

    constructor ()
      ensures Valid() && View() == Routing([], [], [])
    {
      gateways, routes, cursor, commands := [], [], 0, [];
    }

    /** g_list_find_custom over the tracked routes. */
    method FindRoute(ip: string) returns (i: nat)
      ensures i == RouteIndex(routes, ip)
    {
      i := 0;
      while i < |routes| && routes[i].ip != ip
        invariant i <= |routes|
        invariant RouteIndex(routes, ip) == i + RouteIndex(routes[i..], ip)
      {
        assert routes[i..][1..] == routes[i + 1..];
        i := i + 1;
      }
    }

    /** g_list_find_custom over the gateways. */
    method FindGateway(ip: string) returns (i: nat)
      ensures i == GatewayIndex(gateways, ip)
    {
      i := 0;
      while i < |gateways| && gateways[i].v4 != ip && gateways[i].v6 != ip
        invariant i <= |gateways|
        invariant GatewayIndex(gateways, ip) == i + GatewayIndex(gateways[i..], ip)
      {
        assert gateways[i..][1..] == gateways[i + 1..];
        i := i + 1;
      }
    }

    /** checkRemoveRouteInfo: delete and forget the first route to `ip`. A miss leaves the
        variable null and so forgets every route. */
    method RemoveRoute(ip: string, isIPv4: bool)
      requires Valid()
      modifies `routes, `cursor, `commands
      ensures Valid() && cursor == 0
      ensures if Tracked(old(routes), ip)
              then routes == RemoveFirst(old(routes), ip) && commands == old(commands) + [Delete(ip, isIPv4)]
              else routes == [] && commands == old(commands)
    {
      cursor := 0;
      if |routes| > 0 {
        var i := FindRoute(ip);
        if i < |routes| {
          commands := commands + [Delete(ip, isIPv4)];
          routes := routes[..i] + routes[i + 1..];
        } else {
          routes := [];
        }
      }
    }

    /** g_list_next on the variable itself: stepping off the end loses the list. */
    method StepCursor()
      requires Valid()
      modifies `routes, `cursor
      ensures Valid()
      ensures if old(cursor) + 1 < |old(routes)|
              then routes == old(routes) && cursor == old(cursor) + 1
              else routes == []
    {
      if cursor + 1 < |routes| {
        cursor := cursor + 1;
      } else {
        routes, cursor := [], 0;
      }
    }

    /** The body of the delRouteList loop: the removal rewinds the variable to the head of the
        list, and the step then moves it to the second node. */
    method DeleteAtCursor()
      requires Valid() && routes != []
      modifies `routes, `cursor, `commands
      ensures Valid()
      ensures commands == old(commands) + [Delete(old(routes[cursor]).ip, old(routes[cursor]).isIPv4)]
      ensures if |old(routes)| > 2
              then cursor == 1 && routes == RemoveFirst(old(routes), old(routes[cursor]).ip)
              else routes == []
    {
      var r := routes[cursor];
      FirstIsNoLater(routes, cursor);
      RemoveRoute(r.ip, r.isIPv4);
      StepCursor();
    }

    /** delRouteList: for every starting list it ends with nothing tracked, and deletes every
        route except the second. */
    method ClearRoutes()
      requires Valid()
      modifies `routes, `cursor, `commands
      ensures Valid() && View() == Cleared(old(View()))
    {
      ghost var rs, goal := routes, commands + AllButSecond(routes);
      AllButSecondIsAWalk(rs);
      cursor := 0;
      var left := |routes|;
      while routes != [] && left > 0
        invariant Valid() && gateways == old(gateways) && 0 <= left <= |rs|
        invariant Walking(rs, old(commands), goal, routes, cursor, left, commands)
        decreases left
      {
        WalkingStep(rs, old(commands), goal, routes, cursor, left, commands);
        DeleteAtCursor();
        left := left - 1;
      }
      // The variable is null here, so the g_list_free that follows in the source never runs.
    }

    /** How far delRouteList has come: `cs` was logged before it started on `rs`, and `goal` is
        to be logged in the end. */
    static ghost predicate Walking(rs: seq<Route>, cs: seq<Command>, goal: seq<Command>,
                                   now: seq<Route>, cursor: nat, left: nat, log: seq<Command>)
    {
      if now == [] then log == goal
      else if left == |rs| then cursor == 0 && now == rs && log == cs
      else cursor == 1 && |now| == left && left >= 2 && log + ClearWalk(now) == goal
    }

    static lemma WalkingStep(rs: seq<Route>, cs: seq<Command>, goal: seq<Command>,
                             now: seq<Route>, cursor: nat, left: nat, log: seq<Command>)
      requires cursor < |now| && left <= |rs| && Walking(rs, cs, goal, now, cursor, left, log)
      requires rs != [] && goal == cs + ([Delete(rs[0].ip, rs[0].isIPv4)] + if |rs| > 2 then ClearWalk(rs[1..]) else [])
      ensures var next := if |now| > 2 then RemoveFirst(now, now[cursor].ip) else [];
              left > 0 && Walking(rs, cs, goal, next, 1, left - 1, log + [Delete(now[cursor].ip, now[cursor].isIPv4)])
    {
      FirstIsNoLater(now, cursor);
      var d := [Delete(now[cursor].ip, now[cursor].isIPv4)];
      if left == |rs| {
        RemoveHead(rs);
        if |rs| > 2 {
          Assoc(cs, d, ClearWalk(rs[1..]));
        }
      } else if left > 2 {
        Assoc(log, d, ClearWalk(RemoveFirst(now, now[1].ip)));
      }
    }

    static lemma RemoveHead(rs: seq<Route>)
      requires rs != []
      ensures RemoveFirst(rs, rs[0].ip) == rs[1..]
    {
    }

    /** checkExistingRouteValid: drop the routes that the gateway list no longer supports. */
    method PruneRoutes() returns (allOrNone: bool)
      requires Valid()
      modifies `routes, `cursor, `commands
      ensures Valid() && View() == Pruned(old(View()))
      ensures allOrNone <==> |routes| == 0 || |routes| == |old(routes)|
    {
      ghost var goal := Pruned(View());
      var before := |routes|;
      cursor := 0;
      var element := 0;
      while element < |routes|
        invariant Valid() && cursor == 0 && gateways == old(gateways) && element <= |routes|
        invariant Pruning(goal, View(), element)
        decreases |routes| - element
      {
        var r := routes[element];
        var g := FindGateway(r.ip);
        PruningStep(goal, View(), element);
        if g == |gateways| || (!r.isIPv4 && r.prefix != gateways[g].prefix) {
          FirstIsNoLater(routes, element);
          RemoveRoute(r.ip, r.isIPv4);
        } else {
          element := element + 1;
        }
      }
      assert commands + [] == commands;
      allOrNone := !(|routes| != 0 && |routes| != before);
    }

    /** How far checkExistingRouteValid has come towards `goal`: it stands at element `i`. */
    static ghost predicate Pruning(goal: Routing, now: Routing, i: nat) {
      i <= |now.routes| &&
      var rest := Prune(now.routes, now.gateways, i);
      goal == Routing(now.gateways, rest.0, now.commands + rest.1)
    }

    static lemma PruningStep(goal: Routing, now: Routing, i: nat)
      requires i < |now.routes| && Pruning(goal, now, i)
      ensures var r := now.routes[i];
              if Stale(r, now.gateways)
              then Pruning(goal, now.(routes := RemoveFirst(now.routes, r.ip),
                                      commands := now.commands + [Delete(r.ip, r.isIPv4)]), i)
              else Pruning(goal, now, i + 1)
    {
      var r := now.routes[i];
      FirstIsNoLater(now.routes, i);
      if Stale(r, now.gateways) {
        Assoc(now.commands, [Delete(r.ip, r.isIPv4)], Prune(RemoveFirst(now.routes, r.ip), now.gateways, i).1);
      }
    }

    /** checkAddRouteInfo and addRouteToList. */
    method AddRoute(r: Route)
      requires Valid()
      modifies `routes, `cursor
      ensures Valid() && routes == Track(old(routes), r)
    {
      cursor := 0;
      var i := FindRoute(r.ip);
      if i == |routes| || (!r.isIPv4 && routes[i].prefix != r.prefix) {
        routes := [r] + routes;
      }
    }

    /** The route a gateway's setup has set: to its IPv6 address if it announces a prefix. */
    method RecordRoute(g: Gateway)
      requires Valid()
      modifies `routes, `cursor
      ensures Valid() && routes == Track(old(routes), RouteOf(g))
    {
      if V6Mode(g.prefix) {
        AddRoute(Route(false, g.v6, g.prefix));
      } else {
        AddRoute(Route(true, g.v4, g.prefix));
      }
    }

    /** setRoute: the flag that would limit the setup to the first gateway of each kind is never
        reset, so the script runs once for every gateway, in order. */
    method SetRoutes(status: nat -> int) returns (changed: bool)
      requires Valid()
      modifies `routes, `cursor, `commands
      ensures Valid() && View() == WithRoutes(old(View()), status)
      ensures changed <==> NewRoutes(gateways, status) != []
    {
      ghost var was := View();
      var firstXG1, firstXG2, setIt := true, true, false;
      changed := false;
      var retType := 0;
      var k := 0;
      assert gateways[..0] == [];
      while k < |gateways|
        invariant Valid() && k <= |gateways| && gateways == old(gateways)
        invariant k > 0 ==> setIt
        invariant k == 0 ==> firstXG1 && firstXG2
        invariant Setting(was, status, k, View(), changed)
      {
        SettingStep(was, status, k, View(), changed);
        var g := gateways[k];
        if g.devType == "XG2" {
          if firstXG2 {
            firstXG2, setIt := false, true;
          }
        } else if firstXG1 {
          firstXG1, setIt := false, true;
        }
        if setIt {
          commands := commands + [Setup(g)];
          retType := status(k);
        }
        if retType == ROUTE_SET {
          RecordRoute(g);
          changed := true;
        }
        k := k + 1;
      }
      assert gateways[..k] == gateways;
    }

    /** How far setRoute has come from `was`: `k` gateways are dealt with. */
    static ghost predicate Setting(was: Routing, status: nat -> int, k: nat, now: Routing, changed: bool) {
      && k <= |was.gateways|
      && now == WithRoutes(was.(gateways := was.gateways[..k]), status).(gateways := was.gateways)
      && (changed <==> NewRoutes(was.gateways[..k], status) != [])
    }

    static lemma SettingStep(was: Routing, status: nat -> int, k: nat, now: Routing, changed: bool)
      requires k < |was.gateways| && Setting(was, status, k, now, changed)
      ensures var g, isSet := was.gateways[k], status(k) == ROUTE_SET;
              Setting(was, status, k + 1,
                      now.(routes := if isSet then Track(now.routes, RouteOf(g)) else now.routes,
                           commands := now.commands + [Setup(g)]),
                      changed || isSet)
    {
      var g, news := was.gateways[k], NewRoutes(was.gateways[..k], status);
      assert was.gateways[..k + 1][..k] == was.gateways[..k];
      assert (news + [RouteOf(g)])[..|news|] == news && news + [] == news;
      Assoc(was.commands, Setups(was.gateways[..k]), [Setup(g)]);
    }

    /** The list effect of parse_store_gateway_data on a list of entries. */
    method StoreGateways(entries: seq<Entry>)
      modifies `gateways
      ensures gateways == Accepted(entries)
    {
      gateways := [];
      var k := 0;
      assert entries[..0] == [];
      while k < |entries|
        invariant k <= |entries|
        invariant gateways == Accepted(entries[..k])
      {
        assert entries[..k + 1][..k] == entries[..k];
        if entries[k].valid {
          gateways := gateways + [entries[k].gw];
        }
        k := k + 1;
      }
      assert entries[..k] == entries;
    }

    /** storeRouteDetails, with the clean-up it does by itself when there is no gateway. */
    method Store(d: Discovery) returns (ok: bool)
      requires Valid()
      modifies this
      ensures Valid()
      ensures ok <==> d.Listed? && Accepted(d.entries) != []
      ensures match d
              case FetchFailed => View() == old(View())
              case Unparsable => View() == old(View()).(gateways := [])
              case NoGatewayField => View() == Pruned(old(View()).(gateways := []))
              case Listed(entries) =>
                var found := old(View()).(gateways := Accepted(entries));
                View() == if ok then found else Cleared(found)
    {
      ok := false;
      match d {
        case FetchFailed =>
        case Unparsable =>
          gateways := [];
        case NoGatewayField =>
          gateways := [];
          var _ := PruneRoutes();
        case Listed(entries) =>
          StoreGateways(entries);
          if |gateways| == 0 {
            ClearRoutes();
          } else {
            ok := true;
          }
      }
    }

    /** One pass of getGatewayRouteDataThrd after it has taken a message. */
    method Round(d: Discovery, status: nat -> int)
      requires Valid()
      modifies this
      ensures Valid() && View() == RoundSpec(old(View()), d, status)
    {
      var ok := Store(d);
      if ok {
        var go := PruneRoutes();
        if go {
          var _ := SetRoutes(status);
        }
      } else {
        ClearRoutes();
      }
    }
  }
}
