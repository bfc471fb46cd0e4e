/**
 What the callbacks guarantee inside an interleaved run of the lost-and-found protocol,
 where worker threads and bus events happen between any two callbacks.
 */
module LnfRuns {
  import opened Basics
  import opened WifiStatus
  import opened LnfProtocol

  /** The callbacks of a run, in order. */
  function Callbacks(es: seq<Event>): seq<Callback> {
    if es == [] then []
    else
      var last := es[|es| - 1];
      Callbacks(es[..|es| - 1]) + if last.Hal? then [last.cb] else []
  }

  function Final(b: seq<State>): Wifi
    requires b != []
  {
    b[|b| - 1].sh.wifi
  }

  // ---------- runs as seen by the Wi-Fi state ----------

  /** `ws` lists the Wi-Fi states of a run. */
  ghost predicate WifiRun(ws: seq<Wifi>, es: seq<Event>, lostFound: bool) {
    && |ws| == |es| + 1
    && ws[0] == READY
    && forall k :: 0 <= k < |es| ==> WifiFramed(ws[k], es[k], ws[k + 1], lostFound)
  }

  function Wifis(b: seq<State>): (ws: seq<Wifi>)
    ensures |ws| == |b| && forall k :: 0 <= k < |b| ==> ws[k] == b[k].sh.wifi
  {
    seq(|b|, k requires 0 <= k < |b| => b[k].sh.wifi)
  }

  lemma RunsAreWifiRuns(b: seq<State>, es: seq<Event>, lostFound: bool)
    requires IsRun(b, es, lostFound)
    ensures WifiRun(Wifis(b), es, lostFound)
  {
    forall k | 0 <= k < |es|
      ensures WifiFramed(b[k].sh.wifi, es[k], b[k + 1].sh.wifi, lostFound)
    {
      StepsFrameWifi(b[k], es[k], b[k + 1], lostFound);
    }
  }

  lemma CallbacksStep(es: seq<Event>, k: nat)
    requires 0 < k <= |es|
    ensures Callbacks(es[..k]) == Callbacks(es[..k - 1]) + if es[k - 1].Hal? then [es[k - 1].cb] else []
  {
    assert es[..k][..k - 1] == es[..k - 1];
  }

  /** The flags and the count of reason-21 refreshes fit the connects so far. */
  predicate Counted(w: Wifi, cbs: seq<Callback>) {
    FlagsFollow(w, Connects(cbs)) && Count(LNF_TO_PRIVATE, w.refreshes) == LnfToPrivate(Connects(cbs))
  }

  lemma CountedStep(w: Wifi, e: Event, w': Wifi, cbs: seq<Callback>, lostFound: bool)
    requires WifiFramed(w, e, w', lostFound) && Counted(w, cbs)
    ensures Counted(w', cbs + if e.Hal? then [e.cb] else [])
  {
    if e.Hal? {
      SwitchStep(w, e.cb, Connects(cbs), lostFound);
      assert (cbs + [e.cb])[..|cbs|] == cbs;
    } else {
      assert cbs + [] == cbs;
    }
  }

  lemma {:induction false} CountedAt(ws: seq<Wifi>, es: seq<Event>, lostFound: bool, k: nat)
    requires WifiRun(ws, es, lostFound) && k <= |es|
    ensures Counted(ws[k], Callbacks(es[..k]))
  {
    if k > 0 {
      CountedAt(ws, es, lostFound, k - 1);
      CountedStep(ws[k - 1], es[k - 1], ws[k], Callbacks(es[..k - 1]), lostFound);
      CallbacksStep(es, k);
    }
  }

  /** In every interleaved run the number of refreshes with reason 21 is the number of private
      connects that directly follow a lost-and-found connect, and the flags agree on the kind
      of the last connect. */
  lemma SwitchesAreCountedInRuns(b: seq<State>, es: seq<Event>, lostFound: bool)
    requires IsRun(b, es, lostFound)
    ensures FlagsFollow(Final(b), Connects(Callbacks(es)))
    ensures Count(LNF_TO_PRIVATE, Final(b).refreshes) == LnfToPrivate(Connects(Callbacks(es)))
  {
    RunsAreWifiRuns(b, es, lostFound);
    CountedAt(Wifis(b), es, lostFound, |es|);
    assert es[..|es|] == es;
  }

  lemma PrevCodeStep(w: Wifi, e: Event, w': Wifi, cbs: seq<Callback>, lostFound: bool)
    requires WifiFramed(w, e, w', lostFound) && w.prevCode == LastCode(HalSuccess, cbs)
    ensures w'.prevCode == LastCode(HalSuccess, cbs + if e.Hal? then [e.cb] else [])
  {
    if e.Hal? {
      ActRemembersCode(w, e.cb, lostFound);
    } else {
      assert cbs + [] == cbs;
    }
  }

  /** The debounce code is that of the last callback, or the zero code before the first. */
  lemma {:induction false} PrevCodeAt(ws: seq<Wifi>, es: seq<Event>, lostFound: bool, k: nat)
    requires WifiRun(ws, es, lostFound) && k <= |es|
    ensures ws[k].prevCode == LastCode(HalSuccess, Callbacks(es[..k]))
  {
    if k > 0 {
      PrevCodeAt(ws, es, lostFound, k - 1);
      PrevCodeStep(ws[k - 1], es[k - 1], ws[k], Callbacks(es[..k - 1]), lostFound);
      CallbacksStep(es, k);
    }
  }

  lemma PrevCodeInRuns(b: seq<State>, es: seq<Event>, lostFound: bool)
    requires IsRun(b, es, lostFound)
    ensures Final(b).prevCode == LastCode(HalSuccess, Callbacks(es))
  {
    RunsAreWifiRuns(b, es, lostFound);
    PrevCodeAt(Wifis(b), es, lostFound, |es|);
    assert es[..|es|] == es;
  }

  // ---------- repeated callbacks ----------

  /** Event `k` is a callback that repeats the guarded code of the callback before it. */
  predicate RepeatsCode(es: seq<Event>, k: nat)
    requires k < |es|
  {
    es[k].Hal? && Guarded(es[k].cb.code) && es[k].cb.code == LastCode(HalSuccess, Callbacks(es[..k]))
  }

  /** Debouncing is invisible in every interleaved run: a repeated callback changes nothing at
      all, and deleting it leaves a run with the same other states and the same logs. */
  lemma RepeatsCanBeDeleted(b: seq<State>, es: seq<Event>, lostFound: bool, k: nat)
    requires IsRun(b, es, lostFound) && k < |es| && RepeatsCode(es, k)
    ensures b[k + 1] == b[k]
    ensures IsRun(b[..k] + b[k + 1..], es[..k] + es[k + 1..], lostFound)
    ensures Final(b[..k] + b[k + 1..]) == Final(b)
  {
    RepeatChangesNothing(b, es, lostFound, k);
    WithoutStutter(b, es, lostFound, k);
  }

  lemma RepeatChangesNothing(b: seq<State>, es: seq<Event>, lostFound: bool, k: nat)
    requires IsRun(b, es, lostFound) && k < |es| && RepeatsCode(es, k)
    ensures b[k + 1] == b[k]
  {
    RunsAreWifiRuns(b, es, lostFound);
    PrevCodeAt(Wifis(b), es, lostFound, k);
    RepeatIsIdle(b[k], es[k], b[k + 1], lostFound);
  }

  lemma RepeatIsIdle(s: State, e: Event, s': State, lostFound: bool)
    requires Next(s, e, s', lostFound) && e.Hal? && Debounced(s.sh.wifi, e.cb)
    ensures s' == s
  {
  }

  /** A step that changes nothing can be left out of any sequence of steps. */
  lemma DropStutter(b: seq<State>, es: seq<Event>, step: (State, Event, State) -> bool, k: nat)
    requires |b| == |es| + 1 && k < |es| && b[k + 1] == b[k]
    requires forall m :: 0 <= m < |es| ==> step(b[m], es[m], b[m + 1])
    ensures var b', es' := b[..k] + b[k + 1..], es[..k] + es[k + 1..];
            && |b'| == |es'| + 1 && b'[0] == b[0] && b'[|es'|] == b[|es|]
            && forall m :: 0 <= m < |es'| ==> step(b'[m], es'[m], b'[m + 1])
  {
    var b', es' := b[..k] + b[k + 1..], es[..k] + es[k + 1..];
    forall m | 0 <= m < |es'|
      ensures step(b'[m], es'[m], b'[m + 1])
    {
      var o := if m < k then m else m + 1;
      assert step(b[o], es[o], b[o + 1]);
    }
  }

  lemma WithoutStutter(b: seq<State>, es: seq<Event>, lostFound: bool, k: nat)
    requires IsRun(b, es, lostFound) && k < |es| && b[k + 1] == b[k]
    ensures IsRun(b[..k] + b[k + 1..], es[..k] + es[k + 1..], lostFound)
    ensures Final(b[..k] + b[k + 1..]) == Final(b)
  {
    var step := (s: State, e: Event, s': State) => Next(s, e, s', lostFound);
    DropStutter(b, es, step, k);
    var b', es' := b[..k] + b[k + 1..], es[..k] + es[k + 1..];
    forall m | 0 <= m < |es'|
      ensures Next(b'[m], es'[m], b'[m + 1], lostFound)
    {
      assert step(b'[m], es'[m], b'[m + 1]);
    }
  }

  // ---------- what subscribers can reconstruct ----------

  /** A callback that announces something fixes the status, unless it is an unknown error. */
  lemma LoudCallback(w: Wifi, cb: Callback, lostFound: bool, ev: Broadcast)
    requires Act(w, cb, lostFound).broadcasts != w.broadcasts
    requires Last(Act(w, cb, lostFound), ev) && ev != OnError(ErrUnknown)
    ensures Act(w, cb, lostFound).adapter == Inferred(ev)
  {
    EventsMatchStatus(cb, w.adapter);
    assert w.broadcasts + [] == w.broadcasts;
  }

  /** A callback that announces nothing leaves the status alone. */
  lemma QuietCallback(w: Wifi, cb: Callback, lostFound: bool)
    requires Act(w, cb, lostFound).broadcasts == w.broadcasts
    ensures Act(w, cb, lostFound).adapter == w.adapter
  {
    EventsMatchStatus(cb, w.adapter);
    if !Debounced(w, cb) {
      assert |w.broadcasts + EventsOf(cb)| == |w.broadcasts| + |EventsOf(cb)|;
    }
  }

  /** One step without an event: the status becomes connecting if a connect request sets it, and
      stays otherwise. */
  lemma QuietStep(s: State, e: Event, s': State, lostFound: bool)
    requires Next(s, e, s', lostFound) && s'.sh.wifi.broadcasts == s.sh.wifi.broadcasts
    ensures SetsOrKeeps(s, e, s')
  {
    if e.Hal? {
      StepsFrameWifi(s, e, s', lostFound);
      QuietCallback(s.sh.wifi, e.cb, lostFound);
    } else {
      StatusWriters(s, e, s', lostFound);
    }
  }

  predicate SetsOrKeeps(s: State, e: Event, s': State) {
    s'.sh.wifi.adapter == if SetsStatus(s, e) then Connecting else s.sh.wifi.adapter
  }

  /** Event `k` announces something. */
  ghost predicate LogsAt(b: seq<State>, k: nat)
    requires k + 1 < |b|
  {
    b[k + 1].sh.wifi.broadcasts != b[k].sh.wifi.broadcasts
  }

  /** Event `k` is the last that announces something. */
  ghost predicate LastLog(b: seq<State>, k: nat)
    requires k + 1 < |b|
  {
    LogsAt(b, k) && forall l :: k < l < |b| - 1 ==> !LogsAt(b, l)
  }

  /** A connect request has set the status after event `k`. */
  ghost predicate SetSince(b: seq<State>, es: seq<Event>, k: nat)
    requires k < |es| < |b|
  {
    exists l :: k < l < |es| && SetsStatus(b[l], es[l])
  }

  /** A value that some steps set to `x` and the others leave alone. */
  lemma {:induction false} SetOrKept(a: nat -> AdapterStatus, sets: nat -> bool, x: AdapterStatus, k: nat, n: nat)
    requires k < n && forall l :: k < l < n ==> a(l + 1) == if sets(l) then x else a(l)
    ensures a(n) == if exists l :: k < l < n && sets(l) then x else a(k + 1)
  {
    if k + 1 < n {
      SetOrKept(a, sets, x, k, n - 1);
      assert a(n - 1 + 1) == if sets(n - 1) then x else a(n - 1);
    }
  }

  /** After the last event, only connect requests have changed the status. */
  lemma StatusSinceLastEvent(b: seq<State>, es: seq<Event>, lostFound: bool, k: nat)
    requires IsRun(b, es, lostFound) && k < |es| && LastLog(b, k)
    ensures Final(b).adapter == if SetSince(b, es, k) then Connecting else b[k + 1].sh.wifi.adapter
  {
    forall l | k < l < |es|
      ensures SetsOrKeeps(b[l], es[l], b[l + 1])
    {
      assert !LogsAt(b, l);
      QuietStep(b[l], es[l], b[l + 1], lostFound);
    }
    SetOrKeptInRun(b, es, k);
  }

  lemma SetOrKeptInRun(b: seq<State>, es: seq<Event>, k: nat)
    requires |b| == |es| + 1 && k < |es| && forall l :: k < l < |es| ==> SetsOrKeeps(b[l], es[l], b[l + 1])
    ensures Final(b).adapter == if SetSince(b, es, k) then Connecting else b[k + 1].sh.wifi.adapter
  {
    var a := (l: nat) => if l < |b| then b[l].sh.wifi.adapter else Disconnected;
    var sets := (l: nat) => l < |es| && l < |b| && SetsStatus(b[l], es[l]);
    forall l | k < l < |es|
      ensures a(l + 1) == if sets(l) then Connecting else a(l)
    {
      assert SetsOrKeeps(b[l], es[l], b[l + 1]);
    }
    SetOrKept(a, sets, Connecting, k, |es|);
    assert forall l :: k < l < |es| ==> sets(l) == SetsStatus(b[l], es[l]);
  }

  /** In every interleaved run whose last event `ev` was announced by callback `k` and is not an
      unknown error: it fixes the status if and only if no connect request has set the status since,
      or it announces just what such a request sets. */
  lemma SubscribersKnowTheStatusInRuns(b: seq<State>, es: seq<Event>, lostFound: bool, k: nat, ev: Broadcast)
    requires IsRun(b, es, lostFound) && k < |es| && LastLog(b, k) && es[k].Hal?
    requires Last(b[k + 1].sh.wifi, ev) && ev != OnError(ErrUnknown)
    ensures Last(Final(b), ev)
    ensures Final(b).adapter == Inferred(ev) <==> !SetSince(b, es, k) || ev == StateChanged(Connecting)
  {
    StatusSinceLastEvent(b, es, lostFound, k);
    LogSinceLastEvent(b, k);
    StepsFrameWifi(b[k], es[k], b[k + 1], lostFound);
    LoudCallback(b[k].sh.wifi, es[k].cb, lostFound, ev);
  }

  lemma LogSinceLastEvent(b: seq<State>, k: nat)
    requires k + 1 < |b| && LastLog(b, k)
    ensures Final(b).broadcasts == b[k + 1].sh.wifi.broadcasts
  {
    LogStays(b, k, |b| - 1);
  }

  lemma {:induction false} LogStays(b: seq<State>, k: nat, n: nat)
    requires k < n < |b| && LastLog(b, k)
    ensures b[n].sh.wifi.broadcasts == b[k + 1].sh.wifi.broadcasts
  {
    if k + 1 < n {
      LogStays(b, k, n - 1);
      assert !LogsAt(b, n - 1);
    }
  }

  /** If instead a connect request announced the last event, that announcement left the status as
      it found it: it tells the status only if the status happens to be the announced one. */
  lemma AnnouncementsOnlyReport(b: seq<State>, es: seq<Event>, lostFound: bool, k: nat)
    requires IsRun(b, es, lostFound) && k < |es| && LastLog(b, k) && !es[k].Hal?
    ensures Final(b).adapter == if SetSince(b, es, k) then Connecting else b[k].sh.wifi.adapter
  {
    StatusSinceLastEvent(b, es, lostFound, k);
    StatusWriters(b[k], es[k], b[k + 1], lostFound);
  }

  /** Every event log that is not empty has such a last announcement. */
  lemma {:induction false} SomeLastLog(b: seq<State>, es: seq<Event>, lostFound: bool) returns (k: nat)
    requires IsRun(b, es, lostFound) && Final(b).broadcasts != []
    ensures k < |es| && LastLog(b, k)
  {
    k := FindLog(b, |es|);
  }

  lemma {:induction false} FindLog(b: seq<State>, n: nat) returns (k: nat)
    requires n < |b| && b[0].sh.wifi.broadcasts == [] && b[n].sh.wifi.broadcasts != []
    requires forall l :: n <= l < |b| - 1 ==> !LogsAt(b, l)
    ensures k < n && LastLog(b, k)
  {
    if LogsAt(b, n - 1) {
      k := n - 1;
    } else {
      k := FindLog(b, n - 1);
    }
  }
}
