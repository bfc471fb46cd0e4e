/**
 What the events of a callback tell about it: its cause, whether it was a repeat, and whether it
 asked for lost-and-found.
 */
module WifiEvents {
  import opened Basics
  import opened WifiStatus

  // ---------- causes ----------

  /** The codes an error event can stem from. */
  predicate Causes(err: ErrorCode, code: HalCode) {
    match err
    case ErrNoSsid => code == HalNotFound
    case ErrSsidChanged => code == HalSsidChanged
    case ErrConnectionLost => code == HalConnectionLost || code == HalDevDisconnect
    case ErrConnectionFailed => code == HalConnectionFailed
    case ErrConnectionInterrupted => code == HalConnectionInterrupted
    case ErrInvalidCredentials => code == HalInvalidCredentials
    case ErrAuthFailed => code == HalAuthFailed
    case ErrUnknown => code == HalTimeoutExpired || code == HalUnknown || code.HalOther?
  }

  predicate CausesState(st: AdapterStatus, cb: Callback) {
    match st
    case Connected => cb.code == HalSuccess && cb.action == OnConnect
    case Disconnected => cb.code == HalSuccess && cb.action == OnDisconnect
    case Connecting => cb.code == HalConnecting
    case Failed => cb.code == HalUnrecoverable
    case Uninstalled => false
  }

  /** The events a callback adds to the log. */
  function Added(w: Wifi, cb: Callback, lostFound: bool): (es: seq<Broadcast>)
    ensures Act(w, cb, lostFound).broadcasts == w.broadcasts + es
  {
    if Debounced(w, cb) then assert w.broadcasts + [] == w.broadcasts; [] else EventsOf(cb)
  }

  predicate Ends(es: seq<Broadcast>, ev: Broadcast) {
    es != [] && es[|es| - 1] == ev
  }

  /** A callback repeats the code before it, and is not one of the four that always act. */
  predicate Repeat(w: Wifi, cb: Callback) {
    w.prevCode == cb.code
    && cb.code != HalSuccess && cb.code != HalConnecting && cb.code != HalInvalidCredentials && cb.code != HalAuthFailed
  }

  /** The last event a callback adds names its cause, both ways, and a repeat adds none. */
  lemma EventsNameTheCause(w: Wifi, cb: Callback, lostFound: bool)
    ensures forall err :: Ends(Added(w, cb, lostFound), OnError(err)) <==> !Repeat(w, cb) && Causes(err, cb.code)
    ensures forall st :: Ends(Added(w, cb, lostFound), StateChanged(st)) <==> !Repeat(w, cb) && CausesState(st, cb)
    ensures Added(w, cb, lostFound) == [] <==> Repeat(w, cb) || cb.code == HalDisconnecting
  {
    forall err
      ensures Ends(EventsOf(cb), OnError(err)) <==> Causes(err, cb.code)
    {
      ErrorsNameTheCause(cb, err);
    }
    forall st
      ensures Ends(EventsOf(cb), StateChanged(st)) <==> CausesState(st, cb)
    {
      StatesNameTheCause(cb, st);
    }
    SilentCodes(cb);
  }

  lemma ErrorsNameTheCause(cb: Callback, err: ErrorCode)
    ensures Ends(EventsOf(cb), OnError(err)) <==> Causes(err, cb.code)
  {
  }

  lemma StatesNameTheCause(cb: Callback, st: AdapterStatus)
    ensures Ends(EventsOf(cb), StateChanged(st)) <==> CausesState(st, cb)
  {
  }

  lemma SilentCodes(cb: Callback)
    ensures EventsOf(cb) == [] <==> cb.code == HalDisconnecting
  {
  }

  /** The event that the available networks changed is logged just before the error that says so. */
  lemma SsidChangeIsAnnouncedFirst(w: Wifi, cb: Callback, lostFound: bool)
    ensures SsidsChanged in Added(w, cb, lostFound) <==> Ends(Added(w, cb, lostFound), OnError(ErrSsidChanged))
    ensures |Added(w, cb, lostFound)| == 2 <==> Added(w, cb, lostFound) == [SsidsChanged, OnError(ErrSsidChanged)]
    ensures |Added(w, cb, lostFound)| <= 2
  {
  }

  /** A repeat changes nothing at all, and any other callback is remembered. */
  lemma RepeatsAreIdle(w: Wifi, cb: Callback, lostFound: bool)
    ensures Repeat(w, cb) ==> Act(w, cb, lostFound) == w
    ensures Act(w, cb, lostFound).prevCode == cb.code
  {
  }

  /** The status after a callback, whatever it was: what its last event says, except that the
      unknown errors tell two stories. */
  lemma StatusAfterCallback(w: Wifi, cb: Callback, lostFound: bool)
    ensures var es, w' := Added(w, cb, lostFound), Act(w, cb, lostFound);
            if es == [] || cb.code == HalUnknown || cb.code.HalOther? then w'.adapter == w.adapter
            else match es[|es| - 1]
                 case StateChanged(st) => w'.adapter == st
                 case _ => w'.adapter == Disconnected
  {
  }

  // ---------- lost connections ----------

  /** The errors after which the box looks for a lost-and-found network. */
  predicate MeansLoss(ev: Broadcast) {
    ev == OnError(ErrNoSsid) || ev == OnError(ErrSsidChanged) || ev == OnError(ErrInvalidCredentials)
    || ev == OnError(ErrAuthFailed)
  }

  predicate Loses(es: seq<Broadcast>) {
    es != [] && MeansLoss(es[|es| - 1])
  }

  /** With lost-and-found configured, a callback asks for it if and only if it announces a loss. */
  lemma AskedIffLoss(w: Wifi, cb: Callback, lostFound: bool)
    ensures AsksForLnf(cb.code) && !Debounced(w, cb) <==> Loses(Added(w, cb, lostFound))
    ensures Act(w, cb, lostFound).privLost <==> w.privLost || (lostFound && Loses(Added(w, cb, lostFound)))
  {
  }

  /** Over every run of callbacks, the connection counts as lost if and only if lost-and-found is
      configured and a loss was announced. */
  lemma {:induction false} LostIffAnnounced(cbs: seq<Callback>, lostFound: bool)
    ensures var w := Run(BOOT, cbs, lostFound);
            w.privLost <==> lostFound && exists k :: 0 <= k < |w.broadcasts| && MeansLoss(w.broadcasts[k])
  {
    if cbs != [] {
      var init, last := cbs[..|cbs| - 1], cbs[|cbs| - 1];
      LostIffAnnounced(init, lostFound);
      var w := Run(BOOT, init, lostFound);
      AskedIffLoss(w, last, lostFound);
      LossInLog(w, last, lostFound);
    }
  }

  ghost predicate AnyLoss(bs: seq<Broadcast>) {
    exists k :: 0 <= k < |bs| && MeansLoss(bs[k])
  }

  lemma LossInLog(w: Wifi, cb: Callback, lostFound: bool)
    ensures AnyLoss(Act(w, cb, lostFound).broadcasts) <==> AnyLoss(w.broadcasts) || Loses(Added(w, cb, lostFound))
  {
    var bs, es := w.broadcasts, Added(w, cb, lostFound);
    SsidChangeIsAnnouncedFirst(w, cb, lostFound);
    if k :| 0 <= k < |bs + es| && MeansLoss((bs + es)[k]) {
      if k >= |bs| {
        assert MeansLoss(es[k - |bs|]);
      } else {
        assert MeansLoss(bs[k]);
      }
    }
    if k :| 0 <= k < |bs| && MeansLoss(bs[k]) {
      assert (bs + es)[k] == bs[k];
    }
    if Loses(es) {
      assert MeansLoss((bs + es)[|bs| + |es| - 1]);
    }
  }

  // ---------- network changes ----------

  /** The saved network after a run: what was last read at a private connect. */
  function SavedAfter(cbs: seq<Callback>): string {
    if cbs == [] then ""
    else
      var last := cbs[|cbs| - 1];
      if Joins(last) && last.stored.Some? then last.stored.value else SavedAfter(cbs[..|cbs| - 1])
  }

  /** A successful connect to a network that is not a lost-and-found one. */
  predicate Joins(cb: Callback) {
    cb.code == HalSuccess && cb.action == OnConnect && !cb.lnf
  }

  /** How many private connects were to another network than the saved one. */
  function NetworkMoves(cbs: seq<Callback>): nat {
    if cbs == [] then 0
    else
      var init, last := cbs[..|cbs| - 1], cbs[|cbs| - 1];
      NetworkMoves(init) + if Joins(last) && last.ssid != SavedAfter(init) then 1 else 0
  }

  /** Over every run the refreshes with reason 20 are the private connects to another network than
      the saved one. */
  lemma {:induction false} MovesAreCounted(cbs: seq<Callback>, lostFound: bool)
    ensures var w := Run(BOOT, cbs, lostFound);
            w.savedSsid == SavedAfter(cbs) && Count(20, w.refreshes) == NetworkMoves(cbs)
  {
    if cbs != [] {
      var init, last := cbs[..|cbs| - 1], cbs[|cbs| - 1];
      MovesAreCounted(init, lostFound);
      MoveStep(Run(BOOT, init, lostFound), last, lostFound);
    }
  }

  lemma MoveStep(w: Wifi, cb: Callback, lostFound: bool)
    ensures var w' := Act(w, cb, lostFound);
            && w'.savedSsid == (if Joins(cb) && cb.stored.Some? then cb.stored.value else w.savedSsid)
            && Count(20, w'.refreshes) == Count(20, w.refreshes) + if Joins(cb) && cb.ssid != w.savedSsid then 1 else 0
  {
    RefreshesOfCallback(w, cb, lostFound);
    var moved, switched := if w.savedSsid != cb.ssid then [20] else [], if w.lnf2priv != 0 then [21] else [];
    if Joins(cb) {
      CountConcat(20, w.refreshes, moved + switched);
      CountMoves(moved, switched);
    }
  }

  /** A private connect refreshes for a changed network first, then for the switch from a
      lost-and-found one, and no other callback refreshes. */
  lemma RefreshesOfCallback(w: Wifi, cb: Callback, lostFound: bool)
    ensures Act(w, cb, lostFound).refreshes ==
            if !Joins(cb) then w.refreshes
            else w.refreshes + ((if w.savedSsid != cb.ssid then [20] else []) + (if w.lnf2priv != 0 then [21] else []))
  {
    assert w.refreshes + [] == w.refreshes;
  }

  lemma CountMoves(moved: seq<int>, switched: seq<int>)
    requires (moved == [] || moved == [20]) && (switched == [] || switched == [21])
    ensures Count(20, moved + switched) == |moved|
  {
    CountConcat(20, moved, switched);
    assert [20][..0] == [] && [21][..0] == [];
  }

  /** A callback lowers the stop flag exactly if it is a private connect, and never raises it. */
  lemma StopAfterCallback(w: Wifi, cb: Callback, lostFound: bool)
    ensures Act(w, cb, lostFound).stop <==> w.stop && !Joins(cb)
  {
  }

  /** The lost-and-found status after a callback. */
  lemma LnfAfterCallback(w: Wifi, cb: Callback, lostFound: bool)
    ensures var lnf := Act(w, cb, lostFound).lnf;
            if cb.code == HalSuccess && cb.action == OnConnect
            then lnf == (if cb.lnf then ConnectedLnf else ConnectedPrivate)
            else lnf == w.lnf
  {
  }
}
