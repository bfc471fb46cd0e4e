/**
 What checkExistingRouteValid leaves of any list, duplicates included. A stale route is deleted by
 its address, which takes the first route to that address out of the list, whichever it is.
 */
module RoutePruning {
  import opened Basics
  import opened Routes

  // ---------- the routes to one address ----------

  /** The routes to `ip`, in order. */
  function To(rs: seq<Route>, ip: string): seq<Route> {
    if rs == [] then [] else (if rs[0].ip == ip then [rs[0]] else []) + To(rs[1..], ip)
  }

  lemma {:induction false} ToConcat(a: seq<Route>, b: seq<Route>, ip: string)
    ensures To(a + b, ip) == To(a, ip) + To(b, ip)
  {
    if a == [] {
      assert a + b == b;
    } else {
      ToConcat(a[1..], b, ip);
      assert (a + b)[1..] == a[1..] + b;
      Assoc(if a[0].ip == ip then [a[0]] else [], To(a[1..], ip), To(b, ip));
    }
  }

  lemma ToSplit(rs: seq<Route>, i: nat, ip: string)
    requires i < |rs|
    ensures To(rs, ip) == To(rs[..i], ip) + (if rs[i].ip == ip then [rs[i]] else []) + To(rs[i + 1..], ip)
  {
    ToConcat(rs[..i], rs[i..], ip);
    assert rs[..i] + rs[i..] == rs;
    assert rs[i..][1..] == rs[i + 1..];
  }

  lemma {:induction false} ToNone(rs: seq<Route>, ip: string)
    requires forall i :: 0 <= i < |rs| ==> rs[i].ip != ip
    ensures To(rs, ip) == []
  {
    if rs != [] {
      ToNone(rs[1..], ip);
    }
  }

  lemma {:induction false} ToMembers(rs: seq<Route>, ip: string, r: Route)
    ensures r in To(rs, ip) <==> r in rs && r.ip == ip
  {
    if rs != [] {
      ToMembers(rs[1..], ip, r);
      assert rs == [rs[0]] + rs[1..];
    }
  }

  /** Where route `k` stands among the routes to its address. */
  lemma ToAt(rs: seq<Route>, k: nat)
    requires k < |rs|
    ensures var ip := rs[k].ip; |To(rs[..k], ip)| < |To(rs, ip)| && To(rs, ip)[|To(rs[..k], ip)|] == rs[k]
  {
    ToSplit(rs, k, rs[k].ip);
  }

  lemma ToOrder(rs: seq<Route>, j: nat, k: nat)
    requires j < k < |rs|
    ensures |To(rs[..j], rs[j].ip)| < |To(rs[..k], rs[j].ip)|
  {
    ToSplit(rs[..k], j, rs[j].ip);
    assert rs[..k][..j] == rs[..j];
  }

  /** Deleting by address takes out the first route to that address. */
  lemma ToRemoved(rs: seq<Route>, i: nat, ip: string)
    requires i < |rs|
    ensures rs[i].ip == ip ==> To(rs, ip) != [] && To(RemoveFirst(rs, rs[i].ip), ip) == To(rs, ip)[1..]
    ensures rs[i].ip != ip ==> To(RemoveFirst(rs, rs[i].ip), ip) == To(rs, ip)
  {
    FirstIsNoLater(rs, i);
    var f := RouteIndex(rs, rs[i].ip);
    if rs[i].ip == ip {
      ToNone(rs[..f], ip);
    }
    ToWithout(rs, f, ip);
  }

  lemma ToWithout(rs: seq<Route>, f: nat, ip: string)
    requires f < |rs|
    ensures rs[f].ip != ip ==> To(rs[..f] + rs[f + 1..], ip) == To(rs, ip)
    ensures rs[f].ip == ip && To(rs[..f], ip) == [] ==>
              To(rs, ip) != [] && To(rs[..f] + rs[f + 1..], ip) == To(rs, ip)[1..]
  {
    var a, c := To(rs[..f], ip), To(rs[f + 1..], ip);
    ToSplit(rs, f, ip);
    ToConcat(rs[..f], rs[f + 1..], ip);
    if rs[f].ip != ip {
      assert a + [] == a;
    } else if a == [] {
      assert [] + [rs[f]] + c == [rs[f]] + c && [] + c == c;
    }
  }

  // ---------- what is left ----------

  /** How many of the routes to `ip` are stale. */
  function StaleTo(rs: seq<Route>, gs: seq<Gateway>, ip: string): nat {
    |StaleOnes(To(rs, ip), gs)|
  }

  lemma StaleToStep(rs: seq<Route>, gs: seq<Gateway>, i: nat, ip: string)
    requires i < |rs|
    ensures StaleTo(rs[i..], gs, ip) ==
            StaleTo(rs[i + 1..], gs, ip) + if rs[i].ip == ip && Stale(rs[i], gs) then 1 else 0
  {
    assert rs[i..][1..] == rs[i + 1..];
    if rs[i].ip == ip {
      assert ([rs[i]] + To(rs[i + 1..], ip))[1..] == To(rs[i + 1..], ip);
    } else {
      assert [] + To(rs[i + 1..], ip) == To(rs[i + 1..], ip);
    }
  }

  /** The walk from element `i` leaves, of the routes to any address, all but the first `n`, where
      `n` is how many of those from `i` on are stale. */
  predicate DropsTheFirst(rs: seq<Route>, gs: seq<Gateway>, i: nat, ip: string)
    requires i <= |rs|
  {
    var n := StaleTo(rs[i..], gs, ip);
    n <= |To(rs, ip)| && To(Prune(rs, gs, i).0, ip) == To(rs, ip)[n..]
  }

  lemma {:induction false} PruneDropsTheFirst(rs: seq<Route>, gs: seq<Gateway>, i: nat, ip: string)
    requires i <= |rs|
    ensures DropsTheFirst(rs, gs, i, ip)
    decreases |rs| - i
  {
    if i == |rs| {
      assert rs[i..] == [] && To(rs, ip)[0..] == To(rs, ip);
    } else if Stale(rs[i], gs) {
      FirstIsNoLater(rs, i);
      PruneDropsTheFirst(RemoveFirst(rs, rs[i].ip), gs, i, ip);
      DropsStep(rs, gs, i, ip);
    } else {
      PruneDropsTheFirst(rs, gs, i + 1, ip);
      StaleToStep(rs, gs, i, ip);
    }
  }

  lemma DropsStep(rs: seq<Route>, gs: seq<Gateway>, i: nat, ip: string)
    requires i < |rs| && Stale(rs[i], gs)
    requires i <= |RemoveFirst(rs, rs[i].ip)| && DropsTheFirst(RemoveFirst(rs, rs[i].ip), gs, i, ip)
    ensures DropsTheFirst(rs, gs, i, ip)
  {
    FirstIsNoLater(rs, i);
    StaleToStep(rs, gs, i, ip);
    ToRemoved(rs, i, ip);
    if rs[i].ip == ip {
      TailOfTail(To(rs, ip), StaleTo(rs[i + 1..], gs, ip));
    }
  }

  lemma TailOfTail(t: seq<Route>, n: nat)
    requires n < |t|
    ensures t[1..][n..] == t[n + 1..]
  {
  }

  // ---------- addresses without a gateway ----------

  lemma {:induction false} AllStale(t: seq<Route>, gs: seq<Gateway>)
    requires forall i :: 0 <= i < |t| ==> Stale(t[i], gs)
    ensures StaleOnes(t, gs) == t
  {
    if t != [] {
      AllStale(t[1..], gs);
    }
  }

  /** For every list, duplicates included: nothing is left to an address that no gateway has. */
  lemma PruneDropsTheHomeless(rs: seq<Route>, gs: seq<Gateway>, ip: string)
    requires GatewayIndex(gs, ip) == |gs|
    ensures To(Prune(rs, gs, 0).0, ip) == []
  {
    PruneDropsTheFirst(rs, gs, 0, ip);
    assert rs[0..] == rs;
    var t := To(rs, ip);
    forall i | 0 <= i < |t|
      ensures Stale(t[i], gs)
    {
      ToMembers(rs, ip, t[i]);
    }
    AllStale(t, gs);
  }

  // ---------- exactly when it is the filter ----------

  lemma {:induction false} StaleOnesConcat(a: seq<Route>, b: seq<Route>, gs: seq<Gateway>)
    ensures StaleOnes(a + b, gs) == StaleOnes(a, gs) + StaleOnes(b, gs)
  {
    if a == [] {
      assert a + b == b;
    } else {
      StaleOnesConcat(a[1..], b, gs);
      assert (a + b)[1..] == a[1..] + b;
      Assoc(if Stale(a[0], gs) then [a[0]] else [], StaleOnes(a[1..], gs), StaleOnes(b, gs));
    }
  }

  lemma {:induction false} NoneStale(t: seq<Route>, gs: seq<Gateway>)
    requires forall i :: 0 <= i < |t| ==> !Stale(t[i], gs)
    ensures StaleOnes(t, gs) == []
  {
    if t != [] {
      NoneStale(t[1..], gs);
    }
  }

  /** If dropping as many as there are stale ones leaves none of them, they stand in front. */
  lemma StaleInFront(t: seq<Route>, gs: seq<Gateway>, y: nat)
    requires |StaleOnes(t, gs)| <= |t| && forall i :: |StaleOnes(t, gs)| <= i < |t| ==> !Stale(t[i], gs)
    requires y < |StaleOnes(t, gs)|
    ensures Stale(t[y], gs)
  {
    var n := |StaleOnes(t, gs)|;
    var front, back := t[..n], t[n..];
    assert front + back == t;
    StaleOnesConcat(front, back, gs);
    NoneStale(back, gs);
    FullCount(front, gs, y);
  }

  lemma FullCount(t: seq<Route>, gs: seq<Gateway>, y: nat)
    requires |StaleOnes(t, gs)| == |t| && y < |t|
    ensures Stale(t[y], gs)
  {
    FreshOnesAreFresh(t, gs);
    assert t[y] in t;
  }

  /** If the walk leaves just the filter, no fresh route stood before a stale route to its address. */
  lemma FilterNeedsOrder(rs: seq<Route>, gs: seq<Gateway>, j: nat, k: nat)
    requires Prune(rs, gs, 0).0 == FreshOnes(rs, gs)
    requires j < k < |rs| && rs[j].ip == rs[k].ip && Stale(rs[k], gs)
    ensures Stale(rs[j], gs)
  {
    var ip := rs[k].ip;
    var t := To(rs, ip);
    var n := |StaleOnes(t, gs)|;
    PruneDropsTheFirst(rs, gs, 0, ip);
    assert rs[0..] == rs;
    forall i | n <= i < |t|
      ensures !Stale(t[i], gs)
    {
      assert t[n..][i - n] == t[i];
      ToMembers(FreshOnes(rs, gs), ip, t[i]);
      FreshOnesAreFresh(rs, gs);
    }
    ToAt(rs, j);
    ToAt(rs, k);
    ToOrder(rs, j, k);
    StaleInFront(t, gs, |To(rs[..j], ip)|);
  }

  /** For any list: what is left is the order-preserving filter of the routes that are not stale if
      and only if no fresh route stands before a stale route to the same address. */
  lemma PruneIsTheFilterIff(rs: seq<Route>, gs: seq<Gateway>)
    ensures Prune(rs, gs, 0).0 == FreshOnes(rs, gs) <==> StaleFirst(rs, gs, 0)
  {
    assert rs[0..] == rs && rs[..0] + FreshOnes(rs, gs) == FreshOnes(rs, gs);
    if StaleFirst(rs, gs, 0) {
      PruneKeepsTheFresh(rs, gs, 0);
    }
    if Prune(rs, gs, 0).0 == FreshOnes(rs, gs) {
      forall j, k | 0 <= j < k < |rs| && rs[j].ip == rs[k].ip && Stale(rs[k], gs)
        ensures Stale(rs[j], gs)
      {
        FilterNeedsOrder(rs, gs, j, k);
      }
    }
  }

  /** The failing case: of two routes to one address, the fresh one in front is deleted and the
      stale one stays. */
  lemma FreshRouteGoes(g: Gateway, prefix: string)
    requires g.prefix != prefix
    ensures var outdated, current := Route(false, g.v6, prefix), Route(false, g.v6, g.prefix);
            Prune([current, outdated], [g], 0).0 == [outdated] && Stale(outdated, [g]) && !Stale(current, [g])
  {
    var outdated, current := Route(false, g.v6, prefix), Route(false, g.v6, g.prefix);
    var rs := [current, outdated];
    assert Matches([g][0], g.v6);
    assert RemoveFirst(rs, g.v6) == [outdated];
    assert Prune(rs, [g], 0) == Prune(rs, [g], 1);
    assert Prune(rs, [g], 1).0 == Prune([outdated], [g], 1).0;
  }
}
