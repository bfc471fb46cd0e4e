/**
 Gateway route reconciliation: every UPnP discovery rebuilds the gateway list, prunes the
 tracked default routes against it, runs the setup script per gateway and tracks the
 routes it set.

 This module holds the values and the specification of each operation; the class that
 updates the two lists in place is in RouteManager.dfy. Text fields are already trimmed.
 */
module Routes {

  datatype Gateway = Gateway(v4: string, v6: string, prefix: string, devType: string)

  datatype Route = Route(isIPv4: bool, ip: string, prefix: string)

  datatype Command =
    | Delete(ip: string, isIPv4: bool)  // route del default gw / ip -6 route del default via
    | Setup(gw: Gateway)                // the gateway setup script

  /** The exit status by which the setup script reports a newly set route. */
  const ROUTE_SET := 23

  // ---------- lookups ----------

  predicate Contains(s: string, word: string) {
    word <= s || (s != [] && Contains(s[1..], word))
  }

  /** checkIpMode: the gateway announces a usable IPv6 prefix. */
  predicate V6Mode(prefix: string) {
    prefix != "" && !Contains(prefix, "null")
  }

  predicate Matches(g: Gateway, ip: string) {
    g.v4 == ip || g.v6 == ip
  }

  /** Index of the first route to `ip`, or the length of the list. */
  function RouteIndex(rs: seq<Route>, ip: string): (i: nat)
    ensures i <= |rs|
    ensures i < |rs| ==> rs[i].ip == ip
    ensures forall j :: 0 <= j < i ==> rs[j].ip != ip
  {
    if rs == [] || rs[0].ip == ip then 0 else 1 + RouteIndex(rs[1..], ip)
  }

  /** Index of the first gateway with address `ip`, or the length of the list. */
  function GatewayIndex(gs: seq<Gateway>, ip: string): (i: nat)
    ensures i <= |gs|
    ensures i < |gs| ==> Matches(gs[i], ip)
    ensures forall j :: 0 <= j < i ==> !Matches(gs[j], ip)
  {
    if gs == [] || Matches(gs[0], ip) then 0 else 1 + GatewayIndex(gs[1..], ip)
  }

  predicate Tracked(rs: seq<Route>, ip: string) {
    RouteIndex(rs, ip) < |rs|
  }

  function RemoveFirst(rs: seq<Route>, ip: string): seq<Route> {
    var i := RouteIndex(rs, ip);
    if i < |rs| then rs[..i] + rs[i + 1..] else rs
  }

  // ---------- deleting every route ----------

  function Deletes(rs: seq<Route>): seq<Command> {
    if rs == [] then [] else Deletes(rs[..|rs| - 1]) + [Delete(rs[|rs| - 1].ip, rs[|rs| - 1].isIPv4)]
  }

  /** The deletions delRouteList issues: every route except the second. */
  function AllButSecond(rs: seq<Route>): seq<Command> {
    if |rs| <= 1 then Deletes(rs) else Deletes(rs[..1] + rs[2..])
  }

  lemma DeletesSnoc(rs: seq<Route>, r: Route)
    ensures Deletes(rs + [r]) == Deletes(rs) + [Delete(r.ip, r.isIPv4)]
  {
    assert (rs + [r])[..|rs|] == rs;
  }

  // ---------- pruning ----------

  /** The route's first matching gateway is missing, or announces another IPv6 prefix. */
  predicate Stale(r: Route, gs: seq<Gateway>) {
    var i := GatewayIndex(gs, r.ip);
    i == |gs| || (!r.isIPv4 && r.prefix != gs[i].prefix)
  }

  /** The walk of checkExistingRouteValid from element `i`: a stale element deletes the first
      route with its address. */
  function Prune(rs: seq<Route>, gs: seq<Gateway>, i: nat): (r: (seq<Route>, seq<Command>))
    requires i <= |rs|
    decreases |rs| - i
  {
    if i == |rs| then (rs, [])
    else if Stale(rs[i], gs) then
      FirstIsNoLater(rs, i);
      var rest := Prune(RemoveFirst(rs, rs[i].ip), gs, i);
      (rest.0, [Delete(rs[i].ip, rs[i].isIPv4)] + rest.1)
    else Prune(rs, gs, i + 1)
  }

  lemma FirstIsNoLater(rs: seq<Route>, i: nat)
    requires i < |rs|
    ensures RouteIndex(rs, rs[i].ip) <= i
    ensures RemoveFirst(rs, rs[i].ip)[i..] == rs[i + 1..]
    ensures |RemoveFirst(rs, rs[i].ip)| == |rs| - 1
  {
  }

  function StaleOnes(rs: seq<Route>, gs: seq<Gateway>): seq<Route> {
    if rs == [] then []
    else (if Stale(rs[0], gs) then [rs[0]] else []) + StaleOnes(rs[1..], gs)
  }

  function FreshOnes(rs: seq<Route>, gs: seq<Gateway>): seq<Route> {
    if rs == [] then []
    else (if Stale(rs[0], gs) then [] else [rs[0]]) + FreshOnes(rs[1..], gs)
  }

  predicate Distinct(rs: seq<Route>) {
    forall i, j :: 0 <= i < j < |rs| ==> rs[i].ip != rs[j].ip
  }

  lemma {:induction false} DeletesCons(r: Route, rs: seq<Route>)
    ensures Deletes([r] + rs) == [Delete(r.ip, r.isIPv4)] + Deletes(rs)
  {
    if rs == [] {
      assert [r] + rs == [] + [r];
      DeletesSnoc([], r);
    } else {
      var init, last := rs[..|rs| - 1], rs[|rs| - 1];
      DeletesCons(r, init);
      assert [r] + rs == ([r] + init) + [last];
      DeletesSnoc([r] + init, last);
    }
  }

  /** The delRouteList loop once the cursor stands on the second node: each removal rewinds to
      the head, and each step comes back to the second node. */
  function ClearWalk(rs: seq<Route>): seq<Command>
    requires |rs| >= 2
    decreases |rs|
  {
    FirstIsNoLater(rs, 1);
    [Delete(rs[1].ip, rs[1].isIPv4)] + if |rs| > 2 then ClearWalk(RemoveFirst(rs, rs[1].ip)) else []
  }

  lemma {:induction false} ClearWalkDeletesTheTail(rs: seq<Route>)
    requires |rs| >= 2
    ensures ClearWalk(rs) == Deletes(rs[1..])
    decreases |rs|
  {
    FirstIsNoLater(rs, 1);
    DeletesCons(rs[1], rs[2..]);
    assert rs[1..] == [rs[1]] + rs[2..];
    if |rs| > 2 {
      ClearWalkDeletesTheTail(RemoveFirst(rs, rs[1].ip));
    }
  }

  lemma AllButSecondIsAWalk(rs: seq<Route>)
    ensures AllButSecond(rs) == if rs == [] then [] else
              [Delete(rs[0].ip, rs[0].isIPv4)] + if |rs| > 2 then ClearWalk(rs[1..]) else []
  {
    if rs != [] {
      DeletesCons(rs[0], rs[if |rs| == 1 then 1 else 2..]);
      assert |rs| == 1 ==> rs == [rs[0]] + rs[1..];
      assert |rs| > 1 ==> rs[..1] + rs[2..] == [rs[0]] + rs[2..];
      if |rs| > 2 {
        ClearWalkDeletesTheTail(rs[1..]);
        assert rs[1..][1..] == rs[2..];
      }
    }
  }

  /** For every list: one deletion per stale route, in order, and as many routes dropped. */
  lemma {:induction false} PruneDeletesTheStale(rs: seq<Route>, gs: seq<Gateway>, i: nat)
    requires i <= |rs|
    ensures Prune(rs, gs, i).1 == Deletes(StaleOnes(rs[i..], gs))
    ensures |Prune(rs, gs, i).0| == |rs| - |StaleOnes(rs[i..], gs)|
    decreases |rs| - i
  {
    if i < |rs| {
      assert rs[i..][0] == rs[i] && rs[i..][1..] == rs[i + 1..];
      if Stale(rs[i], gs) {
        FirstIsNoLater(rs, i);
        PruneDeletesTheStale(RemoveFirst(rs, rs[i].ip), gs, i);
        DeletesCons(rs[i], StaleOnes(rs[i + 1..], gs));
      } else {
        PruneDeletesTheStale(rs, gs, i + 1);
        assert [] + StaleOnes(rs[i + 1..], gs) == StaleOnes(rs[i + 1..], gs);
      }
    }
  }

  /** From element `i` on, a stale route has only stale routes to its address before it, and none
      of them before `i`. */
  predicate StaleFirst(rs: seq<Route>, gs: seq<Gateway>, i: nat) {
    forall j, k :: 0 <= j < k < |rs| && i <= k && rs[j].ip == rs[k].ip && Stale(rs[k], gs)
      ==> i <= j && Stale(rs[j], gs)
  }

  lemma StaleFirstRemoves(rs: seq<Route>, gs: seq<Gateway>, i: nat)
    requires i < |rs| && Stale(rs[i], gs) && StaleFirst(rs, gs, i)
    ensures RemoveFirst(rs, rs[i].ip) == rs[..i] + rs[i + 1..]
  {
    var f := RouteIndex(rs, rs[i].ip);
    assert f == i;
  }

  lemma StaleFirstWithout(rs: seq<Route>, gs: seq<Gateway>, i: nat)
    requires i < |rs| && StaleFirst(rs, gs, i)
    ensures StaleFirst(rs[..i] + rs[i + 1..], gs, i)
  {
    var rs' := rs[..i] + rs[i + 1..];
    forall j, k | 0 <= j < k < |rs'| && i <= k && rs'[j].ip == rs'[k].ip && Stale(rs'[k], gs)
      ensures i <= j && Stale(rs'[j], gs)
    {
      var j0 := if j < i then j else j + 1;
      assert rs'[j] == rs[j0] && rs'[k] == rs[k + 1];
    }
  }

  predicate KeepsTheFresh(rs: seq<Route>, gs: seq<Gateway>, i: nat)
    requires i <= |rs|
  {
    Prune(rs, gs, i).0 == rs[..i] + FreshOnes(rs[i..], gs)
  }

  /** What is left is exactly the order-preserving filter, if no fresh route stands before a stale
      route to the same address. */
  lemma {:induction false} PruneKeepsTheFresh(rs: seq<Route>, gs: seq<Gateway>, i: nat)
    requires i <= |rs| && StaleFirst(rs, gs, i)
    ensures KeepsTheFresh(rs, gs, i)
    decreases |rs| - i
  {
    if i == |rs| {
      assert rs[..i] + [] == rs;
    } else if Stale(rs[i], gs) {
      StaleFirstWithout(rs, gs, i);
      PruneKeepsTheFresh(rs[..i] + rs[i + 1..], gs, i);
      StaleStep(rs, gs, i);
    } else {
      PruneKeepsTheFresh(rs, gs, i + 1);
      FreshStep(rs, gs, i);
    }
  }

  lemma StaleStep(rs: seq<Route>, gs: seq<Gateway>, i: nat)
    requires i < |rs| && StaleFirst(rs, gs, i) && Stale(rs[i], gs) && KeepsTheFresh(rs[..i] + rs[i + 1..], gs, i)
    ensures KeepsTheFresh(rs, gs, i)
  {
    FirstIsNoLater(rs, i);
    StaleFirstRemoves(rs, gs, i);
    FreshOnesFrom(rs, gs, i);
    Without(rs, i);
  }

  lemma FreshStep(rs: seq<Route>, gs: seq<Gateway>, i: nat)
    requires i < |rs| && !Stale(rs[i], gs) && KeepsTheFresh(rs, gs, i + 1)
    ensures KeepsTheFresh(rs, gs, i)
  {
    FreshOnesFrom(rs, gs, i);
    Regroup(rs, i, FreshOnes(rs[i + 1..], gs));
  }

  lemma Without(rs: seq<Route>, i: nat)
    requires i < |rs|
    ensures (rs[..i] + rs[i + 1..])[..i] == rs[..i] && (rs[..i] + rs[i + 1..])[i..] == rs[i + 1..]
  {
  }

  lemma Regroup(rs: seq<Route>, i: nat, tail: seq<Route>)
    requires i < |rs|
    ensures rs[..i + 1] + tail == rs[..i] + ([rs[i]] + tail)
  {
  }

  lemma FreshOnesFrom(rs: seq<Route>, gs: seq<Gateway>, i: nat)
    requires i < |rs|
    ensures FreshOnes(rs[i..], gs) ==
            if Stale(rs[i], gs) then FreshOnes(rs[i + 1..], gs) else [rs[i]] + FreshOnes(rs[i + 1..], gs)
  {
    assert rs[i..][0] == rs[i] && rs[i..][1..] == rs[i + 1..];
    assert [] + FreshOnes(rs[i + 1..], gs) == FreshOnes(rs[i + 1..], gs);
  }

  lemma {:induction false} PruneNothing(rs: seq<Route>, gs: seq<Gateway>, i: nat)
    requires i <= |rs| && forall j :: i <= j < |rs| ==> !Stale(rs[j], gs)
    ensures Prune(rs, gs, i) == (rs, [])
    decreases |rs| - i
  {
    if i < |rs| {
      PruneNothing(rs, gs, i + 1);
    }
  }

  lemma {:induction false} FreshOnesAreFresh(rs: seq<Route>, gs: seq<Gateway>)
    ensures forall r :: r in FreshOnes(rs, gs) <==> r in rs && !Stale(r, gs)
    ensures |FreshOnes(rs, gs)| + |StaleOnes(rs, gs)| == |rs|
  {
    if rs != [] {
      FreshOnesAreFresh(rs[1..], gs);
      assert rs == [rs[0]] + rs[1..];
    }
  }

  lemma {:induction false} FreshOnesDistinct(rs: seq<Route>, gs: seq<Gateway>)
    requires Distinct(rs)
    ensures Distinct(FreshOnes(rs, gs))
  {
    if rs != [] {
      FreshOnesDistinct(rs[1..], gs);
      FreshOnesAreFresh(rs[1..], gs);
      var tail := FreshOnes(rs[1..], gs);
      forall j | 0 <= j < |tail|
        ensures tail[j].ip != rs[0].ip
      {
        assert tail[j] in rs[1..];
      }
    }
  }

  // ---------- tracking ----------

  /** checkAddRouteInfo: add the route unless its address is tracked with the same prefix. */
  function Track(rs: seq<Route>, r: Route): seq<Route> {
    var i := RouteIndex(rs, r.ip);
    if i == |rs| || (!r.isIPv4 && rs[i].prefix != r.prefix) then [r] + rs else rs
  }

  /** The route setRoute records for a gateway. */
  function RouteOf(g: Gateway): Route {
    if V6Mode(g.prefix) then Route(false, g.v6, g.prefix) else Route(true, g.v4, g.prefix)
  }

  /** The routes of the gateways whose setup reported a newly set route, in order. */
  function NewRoutes(gs: seq<Gateway>, status: nat -> int): seq<Route> {
    if gs == [] then []
    else
      var n := |gs| - 1;
      NewRoutes(gs[..n], status) + if status(n) == ROUTE_SET then [RouteOf(gs[n])] else []
  }

  function TrackAll(rs: seq<Route>, keys: seq<Route>): seq<Route> {
    if keys == [] then rs else Track(TrackAll(rs, keys[..|keys| - 1]), keys[|keys| - 1])
  }

  function Setups(gs: seq<Gateway>): seq<Command> {
    if gs == [] then [] else Setups(gs[..|gs| - 1]) + [Setup(gs[|gs| - 1])]
  }

  /** The first earlier mention of key `i`'s address agrees with it on the prefix. */
  predicate AgreesWithFirst(rs: seq<Route>, keys: seq<Route>, i: nat)
    requires i < |keys|
  {
    var seen := rs + keys[..i];
    var f := RouteIndex(seen, keys[i].ip);
    keys[i].isIPv4 || f == |seen| || seen[f].prefix == keys[i].prefix
  }

  predicate NoPrefixClash(rs: seq<Route>, keys: seq<Route>) {
    forall i :: 0 <= i < |keys| ==> AgreesWithFirst(rs, keys, i)
  }

  /** Two lists that track the same addresses with the same prefixes. */
  ghost predicate SameLookups(a: seq<Route>, b: seq<Route>) {
    forall ip :: SameLookup(a, b, ip)
  }

  predicate SameLookup(a: seq<Route>, b: seq<Route>, ip: string) {
    var i, j := RouteIndex(a, ip), RouteIndex(b, ip);
    (i < |a| <==> j < |b|) && (i < |a| ==> a[i] == b[j])
  }

  lemma IndexInFront(rs: seq<Route>, r: Route, ip: string)
    ensures RouteIndex([r] + rs, ip) == if r.ip == ip then 0 else 1 + RouteIndex(rs, ip)
  {
    assert ([r] + rs)[1..] == rs;
  }

  lemma IndexAtBack(rs: seq<Route>, r: Route, ip: string)
    ensures RouteIndex(rs + [r], ip) ==
            if RouteIndex(rs, ip) < |rs| then RouteIndex(rs, ip) else if r.ip == ip then |rs| else |rs| + 1
  {
    var long := rs + [r];
    var k, m := RouteIndex(long, ip), RouteIndex(rs, ip);
    assert long[|rs|] == r && forall j :: 0 <= j < |rs| ==> long[j] == rs[j];
    if m < |rs| {
      assert long[m].ip == ip;
    }
  }

  lemma LookupAfterNew(t: seq<Route>, seen: seq<Route>, r: Route, ip: string)
    requires SameLookup(t, seen, ip) && RouteIndex(seen, r.ip) == |seen|
    ensures SameLookup([r] + t, seen + [r], ip)
  {
    IndexInFront(t, r, ip);
    IndexAtBack(seen, r, ip);
    LookupParts(t, seen, r, ip);
  }

  /** Where the first route to `ip` stands in the two longer lists. */
  lemma LookupParts(t: seq<Route>, seen: seq<Route>, r: Route, ip: string)
    requires SameLookup(t, seen, ip)
    ensures RouteIndex(t, ip) < |t| ==> ([r] + t)[1 + RouteIndex(t, ip)] == (seen + [r])[RouteIndex(seen, ip)]
  {
  }

  lemma LookupAfterKnown(t: seq<Route>, seen: seq<Route>, r: Route, ip: string)
    requires SameLookup(t, seen, ip) && RouteIndex(seen, r.ip) < |seen|
    ensures SameLookup(t, seen + [r], ip)
  {
    IndexAtBack(seen, r, ip);
  }

  lemma LookupsAfter(t: seq<Route>, seen: seq<Route>, r: Route)
    requires SameLookups(t, seen)
    ensures SameLookups(if RouteIndex(seen, r.ip) == |seen| then [r] + t else t, seen + [r])
  {
    var t', seen' := if RouteIndex(seen, r.ip) == |seen| then [r] + t else t, seen + [r];
    forall ip
      ensures SameLookup(t', seen', ip)
    {
      assert SameLookup(t, seen, ip);
      if RouteIndex(seen, r.ip) == |seen| {
        LookupAfterNew(t, seen, r, ip);
      } else {
        LookupAfterKnown(t, seen, r, ip);
      }
    }
  }

  lemma DistinctCons(t: seq<Route>, r: Route)
    requires Distinct(t)
    ensures Distinct([r] + t) <==> RouteIndex(t, r.ip) == |t|
  {
    var i := RouteIndex(t, r.ip);
    if i < |t| {
      assert ([r] + t)[0].ip == ([r] + t)[i + 1].ip;
    }
  }

  /** One key: if it agrees with the first mention, tracking it keeps the list distinct and in
      step with the mentions; if not, its address is now tracked twice. */
  lemma TrackStep(t: seq<Route>, seen: seq<Route>, r: Route)
    requires Distinct(t) && SameLookups(t, seen)
    ensures var f := RouteIndex(seen, r.ip);
            var agrees := r.isIPv4 || f == |seen| || seen[f].prefix == r.prefix;
            && (Distinct(Track(t, r)) <==> agrees)
            && (agrees ==> SameLookups(Track(t, r), seen + [r]))
  {
    assert SameLookup(t, seen, r.ip);
    LookupsAfter(t, seen, r);
    DistinctCons(t, r);
  }

  lemma {:induction false} DuplicatesStay(rs: seq<Route>, keys: seq<Route>)
    requires !Distinct(rs)
    ensures !Distinct(TrackAll(rs, keys))
  {
    if keys != [] {
      var n := |keys| - 1;
      DuplicatesStay(rs, keys[..n]);
      DuplicatesBehind(TrackAll(rs, keys[..n]), keys[n]);
    }
  }

  lemma DuplicatesBehind(t: seq<Route>, r: Route)
    requires !Distinct(t)
    ensures !Distinct([r] + t)
  {
    var i, j :| 0 <= i < j < |t| && t[i].ip == t[j].ip;
    assert ([r] + t)[i + 1].ip == ([r] + t)[j + 1].ip;
  }

  lemma ClashSplits(rs: seq<Route>, keys: seq<Route>)
    requires keys != []
    ensures var n := |keys| - 1;
            NoPrefixClash(rs, keys) <==> NoPrefixClash(rs, keys[..n]) && AgreesWithFirst(rs, keys, n)
  {
    var n := |keys| - 1;
    forall i | 0 <= i < n
      ensures AgreesWithFirst(rs, keys, i) <==> AgreesWithFirst(rs, keys[..n], i)
    {
      assert keys[..n][..i] == keys[..i];
    }
  }

  /** Tracking keeps addresses distinct exactly when no IPv6 key disagrees on the prefix with
      the first earlier mention of its address. */
  lemma {:induction false} DistinctIffNoClash(rs: seq<Route>, keys: seq<Route>)
    requires Distinct(rs)
    ensures Distinct(TrackAll(rs, keys)) <==> NoPrefixClash(rs, keys)
    ensures NoPrefixClash(rs, keys) ==> SameLookups(TrackAll(rs, keys), rs + keys)
  {
    if keys == [] {
      assert rs + keys == rs;
    } else {
      var n := |keys| - 1;
      var init := keys[..n];
      DistinctIffNoClash(rs, init);
      ClashSplits(rs, keys);
      if NoPrefixClash(rs, init) {
        TrackStep(TrackAll(rs, init), rs + init, keys[n]);
        assert (rs + init) + [keys[n]] == rs + keys;
      } else {
        DuplicatesStay(TrackAll(rs, init), [keys[n]]);
        assert [keys[n]][..0] == [];
      }
    }
  }
}
