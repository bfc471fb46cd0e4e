/**
 What can still happen between two steps of the lost-and-found protocol: when an attempt starts
 although private Wi-Fi is up, runs that get there, and events that do not tell the status.
 */
module LnfRaces {
  import opened Basics
  import opened WifiStatus
  import opened LnfProtocol
  import opened LnfRuns

  // ---------- when private Wi-Fi comes up and goes down ----------

  /** Thread `t` is about to conclude from the connection that private Wi-Fi is up. */
  predicate Concludes(w: Wifi, t: Thread) {
    (t.pc == TestPrivate || t.pc == ActTestConnected || t.pc == ActSettle) && w.adapter == Connected && !w.isLaf
  }

  predicate RaisesPrivate(s: State, e: Event) {
    match e
    case Hal(cb, _) => PrivateConnect(cb)
    case Advance(i, _) => i < |s.threads| && Concludes(s.sh.wifi, s.threads[i])
    case Inside(_, effect) => effect == SetPrivate && s.sh.wifi.adapter == Connected
    case _ => false
  }

  /** A step of thread `t` that takes back the private status, or begins another connect. */
  predicate Retracts(sh: Shared, t: Thread) {
    match t.pc
    case EnterRound => true
    case ActStart => true
    case ChooseRequest => !sh.autoSwitch && !sh.switchNow
    case TestStop => sh.wifi.stop
    case ActTestStop => sh.wifi.stop
    case ManualSet => true
    case AfterAttempt(ok) =>
      if ok then t.kind == Activation || t.req == ToLnfSsid else sh.wifi.stop && t.kind == Requested
    case _ => false
  }

  predicate LowersPrivate(s: State, e: Event) {
    match e
    case Hal(cb, _) => !Debounced(s.sh.wifi, cb) && (LnfConnect(cb) || AdapterAfter(Connected, cb) != Connected)
    case Advance(i, _) => i < |s.threads| && Retracts(s.sh, s.threads[i])
    case Inside(_, effect) => effect.SetBusy? || effect.SetConnecting?
    case Outside(effect) => effect.SetConnecting?
    case _ => false
  }

  lemma ThreadPrivateStep(sh: Shared, t: Thread, inp: Input)
    ensures PrivateUp(ThreadWifi(sh, t, inp)) <==>
            Concludes(sh.wifi, t) || (PrivateUp(sh.wifi) && !Retracts(sh, t))
  {
  }

  lemma CallbackPrivateStep(w: Wifi, cb: Callback, lostFound: bool)
    ensures PrivateUp(Act(w, cb, lostFound)) <==>
            || PrivateConnect(cb)
            || (PrivateUp(w) && (Debounced(w, cb) || (!LnfConnect(cb) && AdapterAfter(Connected, cb) == Connected)))
  {
  }

  /** Every step of every kind: private Wi-Fi is up afterwards exactly if the step raises it, or it
      was up and the step does not lower it. */
  lemma PrivateStep(s: State, e: Event, s': State, lostFound: bool)
    requires Next(s, e, s', lostFound)
    ensures PrivateUp(s'.sh.wifi) <==> RaisesPrivate(s, e) || (PrivateUp(s.sh.wifi) && !LowersPrivate(s, e))
  {
    assert s'.sh.wifi == WifiAfter(s, e, lostFound);
    PrivateEffect(s, e, lostFound);
  }

  lemma PrivateEffect(s: State, e: Event, lostFound: bool)
    requires Enabled(s, e, lostFound)
    ensures PrivateUp(WifiAfter(s, e, lostFound)) <==>
            RaisesPrivate(s, e) || (PrivateUp(s.sh.wifi) && !LowersPrivate(s, e))
  {
    if e.Advance? {
      ThreadPrivateStep(s.sh, s.threads[e.i], e.inp);
    } else if e.Hal? {
      CallbackPrivateStep(s.sh.wifi, e.cb, lostFound);
    }
  }

  // ---------- attempts that start with private Wi-Fi up ----------

  /** Something that is false at `m` holds at `k` exactly if it was raised in between and not
      lowered since. */
  lemma {:induction false} LastRaise(up: nat -> bool, raises: nat -> bool, lowers: nat -> bool, m: nat, k: nat)
    requires m <= k && !up(m)
    requires forall l :: m <= l < k ==> (up(l + 1) <==> raises(l) || (up(l) && !lowers(l)))
    ensures up(k) <==> exists j :: m <= j < k && raises(j) && forall l :: j < l < k ==> !lowers(l)
  {
    if m < k {
      LastRaise(up, raises, lowers, m, k - 1);
      assert up(k - 1 + 1) <==> raises(k - 1) || (up(k - 1) && !lowers(k - 1));
    }
  }

  /** Event `j` is a private connect, or another thread than `i` concluding that private Wi-Fi is
      up. */
  predicate RaisedByOthers(s: State, e: Event, i: nat) {
    match e
    case Hal(cb, _) => PrivateConnect(cb)
    case Advance(o, _) => o != i && o < |s.threads| && Concludes(s.sh.wifi, s.threads[o])
    case _ => false
  }

  /** While thread `i` stands between its check and its start, only others raise, and no attempt
      runs that could. */
  lemma OnlyOthersRaise(s: State, e: Event, i: nat, lostFound: bool)
    requires LocksOk(s) && Enabled(s, e, lostFound) && s.sh.triggerLock == Some(i)
    requires i < |s.threads| && Cleared(s.threads[i].pc)
    ensures RaisesPrivate(s, e) <==> RaisedByOthers(s, e, i)
  {
  }

  ghost predicate RaisedSince(b: seq<State>, es: seq<Event>, i: nat, j: nat, k: nat)
    requires j < k <= |es| <= |b|
  {
    RaisedByOthers(b[j], es[j], i) && forall l :: j < l < k ==> !LowersPrivate(b[l], es[l])
  }

  /** Exactly when an attempt starts although private Wi-Fi is up: after the check that allowed it,
      made at step `m` under the lock, a private connect came in or another thread concluded that
      private Wi-Fi is up, and nothing has taken that back. */
  lemma StartsUnderPrivateIff(b: seq<State>, es: seq<Event>, lostFound: bool, i: nat, k: nat) returns (m: nat)
    requires IsRun(b, es, lostFound) && k < |es| && StepFrom(b[k], es[k], i, Starts)
    ensures m < k && CheckedAt(b, es, i, m, k)
    ensures PrivateUp(b[k].sh.wifi) <==> exists j :: m < j < k && RaisedSince(b, es, i, j, k)
  {
    AttemptsAreChecked(b, es, lostFound, i, k);
    m :| 0 <= m < k && CheckedAt(b, es, i, m, k);
    CheckDoesNotRaise(b, es, lostFound, i, m);
    forall l | m < l < k
      ensures Tracks(b[l], es[l], b[l + 1], i)
    {
      WindowStep(b, es, lostFound, i, m, k, l);
    }
    LastRaiseInRun(b, es, i, m, k);
  }

  lemma CheckDoesNotRaise(b: seq<State>, es: seq<Event>, lostFound: bool, i: nat, m: nat)
    requires IsRun(b, es, lostFound) && m < |es| && StepFrom(b[m], es[m], i, Checks) && !PrivateUp(b[m].sh.wifi)
    ensures !PrivateUp(b[m + 1].sh.wifi)
  {
    PrivateStep(b[m], es[m], b[m + 1], lostFound);
  }

  /** One step inside the window between the check at `m` and the start at `k`. */
  lemma WindowStep(b: seq<State>, es: seq<Event>, lostFound: bool, i: nat, m: nat, k: nat, l: nat)
    requires IsRun(b, es, lostFound) && m < l < k <= |es| && CheckedAt(b, es, i, m, k)
    ensures Tracks(b[l], es[l], b[l + 1], i)
  {
    RunsAreFramed(b, es, lostFound);
    LocksAlwaysOk(b, es, l);
    PrivateStep(b[l], es[l], b[l + 1], lostFound);
    OnlyOthersRaise(b[l], es[l], i, lostFound);
  }

  predicate Tracks(s: State, e: Event, s': State, i: nat) {
    PrivateUp(s'.sh.wifi) <==> RaisedByOthers(s, e, i) || (PrivateUp(s.sh.wifi) && !LowersPrivate(s, e))
  }

  lemma LastRaiseInRun(b: seq<State>, es: seq<Event>, i: nat, m: nat, k: nat)
    requires m < k <= |es| < |b| && !PrivateUp(b[m + 1].sh.wifi)
    requires forall l :: m < l < k ==> Tracks(b[l], es[l], b[l + 1], i)
    ensures PrivateUp(b[k].sh.wifi) <==> exists j :: m < j < k && RaisedSince(b, es, i, j, k)
  {
    var up := (l: nat) => l < |b| && PrivateUp(b[l].sh.wifi);
    var raises := (l: nat) => l < |es| && l < |b| && RaisedByOthers(b[l], es[l], i);
    var lowers := (l: nat) => l < |es| && l < |b| && LowersPrivate(b[l], es[l]);
    forall l | m + 1 <= l < k
      ensures up(l + 1) <==> raises(l) || (up(l) && !lowers(l))
    {
      assert Tracks(b[l], es[l], b[l + 1], i);
    }
    LastRaise(up, raises, lowers, m + 1, k);
    if up(k) {
      var j :| m + 1 <= j < k && raises(j) && forall l :: j < l < k ==> !lowers(l);
      forall l | j < l < k
        ensures !LowersPrivate(b[l], es[l])
      {
        assert !lowers(l);
      }
      assert RaisedSince(b, es, i, j, k);
    }
    if j :| m < j < k && RaisedSince(b, es, i, j, k) {
      assert raises(j) && forall l :: j < l < k ==> !lowers(l);
    }
  }

  /** A run followed by one more enabled event is a run. */
  lemma Extend(b: seq<State>, es: seq<Event>, lostFound: bool, e: Event) returns (s: State)
    requires IsRun(b, es, lostFound) && Enabled(b[|es|], e, lostFound)
    ensures s == Step(b[|es|], e, lostFound) && IsRun(b + [s], es + [e], lostFound)
  {
    s := Step(b[|es|], e, lostFound);
    var b', es' := b + [s], es + [e];
    forall m | 0 <= m < |es'|
      ensures Next(b'[m], es'[m], b'[m + 1], lostFound)
    {
      if m < |es| {
        assert Next(b[m], es[m], b[m + 1], lostFound);
      }
    }
  }

  /** Why the check is only known to hold when it was made: a thread that passed it and is
      about to start can be overtaken by a private connect, and starts all the same. */
  lemma ChecksGoStale(b: seq<State>, es: seq<Event>, lostFound: bool, i: nat, cb: Callback, inp: Input)
    returns (s: State, s': State)
    requires IsRun(b, es, lostFound) && PrivateConnect(cb)
    requires i < |b[|es|].threads| && b[|es|].threads[i].pc == StartAttempt
    ensures IsRun(b + [s] + [s'], es + [Hal(cb, None)] + [Advance(i, inp)], lostFound)
    ensures PrivateUp(s.sh.wifi) && PrivateUp(s'.sh.wifi) && s.threads == b[|es|].threads
    ensures |s'.threads| == |b[|es|].threads| && s'.threads[i].pc == Attempting
  {
    s := ExtendWithConnect(b, es, lostFound, cb);
    s' := ExtendWithStart(b + [s], es + [Hal(cb, None)], lostFound, i, inp);
  }

  lemma ExtendWithConnect(b: seq<State>, es: seq<Event>, lostFound: bool, cb: Callback) returns (s: State)
    requires IsRun(b, es, lostFound) && PrivateConnect(cb)
    ensures IsRun(b + [s], es + [Hal(cb, None)], lostFound)
    ensures PrivateUp(s.sh.wifi) && s.threads == b[|es|].threads
  {
    s := Extend(b, es, lostFound, Hal(cb, None));
  }

  lemma ExtendWithStart(b: seq<State>, es: seq<Event>, lostFound: bool, i: nat, inp: Input) returns (s: State)
    requires IsRun(b, es, lostFound) && i < |b[|es|].threads| && b[|es|].threads[i].pc == StartAttempt
    ensures IsRun(b + [s], es + [Advance(i, inp)], lostFound)
    ensures PrivateUp(s.sh.wifi) == PrivateUp(b[|es|].sh.wifi)
    ensures |s.threads| == |b[|es|].threads| && s.threads[i].pc == Attempting
  {
    s := Extend(b, es, lostFound, Advance(i, inp));
  }

  // ---------- a run that gets there ----------

  /** The way of an activation thread that finds no connection. */
  const PATH: seq<Pc> :=
    [ActStart, ActOuter, ActInner, ActTestConnected, ActTestStop, LockTrigger, CheckUnderLock, StartAttempt]

  /** A lone activation thread at `pc`, on a box that has not connected yet. */
  predicate Alone(s: State, pc: Pc) {
    && s.threads == [Thread(Activation, pc, ToLnfSsid)]
    && s.sh.wifi.adapter == Disconnected && !s.sh.wifi.stop && !s.sh.activated
    && (s.sh.wifi.lnf == LnfInProgress || (pc == ActStart && s.sh.wifi.lnf == LnfUninitialized))
    && (!InTrigger(pc) ==> s.sh.triggerLock == None)
  }

  const NO_INPUT := Input(false, false, None, None)

  lemma AloneStep(s: State, n: nat, lostFound: bool)
    requires n < 7 && Alone(s, PATH[n])
    ensures Enabled(s, Advance(0, NO_INPUT), lostFound) && Alone(Step(s, Advance(0, NO_INPUT), lostFound), PATH[n + 1])
  {
    var t := s.threads[0];
    AlonePc(s.sh, t, n);
    AloneShared(s.sh, t, n);
    assert !IsRequest(s, Advance(0, NO_INPUT), lostFound);
    assert Step(s, Advance(0, NO_INPUT), lostFound)
        == State(SharedAfter(s.sh, t, 0, NO_INPUT), [ThreadAfter(s.sh, t, NO_INPUT)]);
  }

  lemma AlonePc(sh: Shared, t: Thread, n: nat)
    requires n < 7 && Alone(State(sh, [t]), PATH[n])
    ensures ThreadEnabled(sh, t) && ThreadAfter(sh, t, NO_INPUT) == Thread(Activation, PATH[n + 1], ToLnfSsid)
  {
  }

  lemma AloneShared(sh: Shared, t: Thread, n: nat)
    requires n < 7 && Alone(State(sh, [t]), PATH[n])
    ensures Alone(State(SharedAfter(sh, t, 0, NO_INPUT), [Thread(Activation, PATH[n + 1], ToLnfSsid)]), PATH[n + 1])
  {
  }

  lemma AloneExtend(b: seq<State>, es: seq<Event>, n: nat, lostFound: bool) returns (s: State)
    requires n < 7 && IsRun(b, es, lostFound) && Alone(b[|es|], PATH[n])
    ensures IsRun(b + [s], es + [Advance(0, NO_INPUT)], lostFound) && Alone(s, PATH[n + 1])
  {
    AloneStep(b[|es|], n, lostFound);
    s := Extend(b, es, lostFound, Advance(0, NO_INPUT));
  }

  lemma {:induction false} Reach(n: nat, lostFound: bool) returns (b: seq<State>, es: seq<Event>)
    requires n <= 7
    ensures IsRun(b, es, lostFound) && |es| == n && Alone(b[n], PATH[n])
  {
    if n == 0 {
      var t := Thread(Activation, ActStart, ToLnfSsid);
      b, es := [State(Shared(READY, false, None, None, false, false, true, false), [t])], [];
    } else {
      b, es := Reach(n - 1, lostFound);
      var s := AloneExtend(b, es, n - 1, lostFound);
      b, es := b + [s], es + [Advance(0, NO_INPUT)];
    }
  }

  /** There is a run in which an attempt starts with private Wi-Fi up. */
  lemma AnAttemptStartsUnderPrivate(lostFound: bool) returns (b: seq<State>, es: seq<Event>, k: nat)
    ensures IsRun(b, es, lostFound) && k < |es| && StepFrom(b[k], es[k], 0, Starts) && PrivateUp(b[k].sh.wifi)
  {
    var b0, es0 := Reach(7, lostFound);
    var cb := Callback(HalSuccess, "home", false, OnConnect, None);
    var s, s' := ChecksGoStale(b0, es0, lostFound, 0, cb, NO_INPUT);
    b, es, k := b0 + [s] + [s'], es0 + [Hal(cb, None)] + [Advance(0, NO_INPUT)], 8;
  }

  // ---------- events that do not tell the status ----------

  lemma ExtendQuietly(b: seq<State>, es: seq<Event>, lostFound: bool) returns (s: State)
    requires IsRun(b, es, lostFound)
    ensures IsRun(b + [s], es + [Outside(SetConnecting)], lostFound)
    ensures s.sh.wifi == Final(b).(adapter := Connecting)
  {
    s := Extend(b, es, lostFound, Outside(SetConnecting));
  }

  lemma ExtendWithEvent(b: seq<State>, es: seq<Event>, lostFound: bool, effect: Effect) returns (s: State)
    requires IsRun(b, es, lostFound) && (effect == AnnounceConnecting || effect == AnnounceFailure)
    ensures IsRun(b + [s], es + [Outside(effect)], lostFound)
    ensures s.sh.wifi == Announce(Final(b), StateChanged(if effect == AnnounceFailure then Failed else Connecting))
  {
    s := Extend(b, es, lostFound, Outside(effect));
  }

  lemma ExtendWithCallback(b: seq<State>, es: seq<Event>, lostFound: bool, cb: Callback) returns (s: State)
    requires IsRun(b, es, lostFound) && !AsksForLnf(cb.code)
    ensures IsRun(b + [s], es + [Hal(cb, None)], lostFound)
    ensures s.sh.wifi == Act(Final(b), cb, lostFound)
  {
    s := Extend(b, es, lostFound, Hal(cb, None));
  }

  /** Two runs that tell subscribers the same and end in different states. */
  ghost predicate LookAlike(s: State, b: seq<State>, es: seq<Event>, b': seq<State>, es': seq<Event>, lostFound: bool) {
    && b != [] && b[0] == s && IsRun(b, es, lostFound)
    && b' != [] && b'[0] == s && IsRun(b', es', lostFound)
    && Final(b).broadcasts == Final(b').broadcasts && Final(b).adapter != Final(b').adapter
  }

  /** Why a set status hides the truth: from any initial state, a connect request that has set the
      status but not announced it yet cannot be told from no request at all. */
  lemma SilentRequestsHideTheStatus(s: State, cb: Callback, lostFound: bool)
    returns (b: seq<State>, es: seq<Event>, b': seq<State>, es': seq<Event>)
    requires Init(s) && PrivateConnect(cb)
    ensures LookAlike(s, b, es, b', es', lostFound) && Last(Final(b), StateChanged(Connected))
  {
    assert IsRun([s], [], lostFound);
    var s1 := ExtendWithCallback([s], [], lostFound, cb);
    b, es := [s] + [s1], [] + [Hal(cb, None)];
    var s2 := ExtendQuietly(b, es, lostFound);
    b', es' := b + [s2], es + [Outside(SetConnecting)];
  }

  /** Why a connecting event tells nothing: a private connect that comes in between the two
      statements of a request leaves the box connected with connecting as the last event. The same
      events come from a request made after the connect, which leaves it connecting. */
  lemma OvertakenRequestsHideTheStatus(s: State, cb: Callback, lostFound: bool)
    returns (b: seq<State>, es: seq<Event>, b': seq<State>, es': seq<Event>)
    requires Init(s) && PrivateConnect(cb)
    ensures LookAlike(s, b, es, b', es', lostFound) && Last(Final(b), StateChanged(Connecting))
    ensures Final(b).adapter == Connected && Final(b').adapter == Connecting
  {
    assert IsRun([s], [], lostFound);
    var x1 := ExtendQuietly([s], [], lostFound);
    b, es := [s] + [x1], [] + [Outside(SetConnecting)];
    var x2 := ExtendWithCallback(b, es, lostFound, cb);
    b, es := b + [x2], es + [Hal(cb, None)];
    var x3 := ExtendWithEvent(b, es, lostFound, AnnounceConnecting);
    b, es := b + [x3], es + [Outside(AnnounceConnecting)];
    var y1 := ExtendWithCallback([s], [], lostFound, cb);
    b', es' := [s] + [y1], [] + [Hal(cb, None)];
    var y2 := ExtendQuietly(b', es', lostFound);
    b', es' := b' + [y2], es' + [Outside(SetConnecting)];
    var y3 := ExtendWithEvent(b', es', lostFound, AnnounceConnecting);
    b', es' := b' + [y3], es' + [Outside(AnnounceConnecting)];
  }

  /** Why the failed event tells nothing: a connect request that is refused and one that ends in an
      unrecoverable error announce the same. */
  lemma FailureEventsHideTheStatus(s: State, cb: Callback, lostFound: bool)
    returns (b: seq<State>, es: seq<Event>, b': seq<State>, es': seq<Event>)
    requires Init(s) && cb.code == HalUnrecoverable
    ensures LookAlike(s, b, es, b', es', lostFound) && Last(Final(b), StateChanged(Failed))
    ensures Final(b).adapter == Connecting && Final(b').adapter == Failed
  {
    assert IsRun([s], [], lostFound);
    var s1 := ExtendQuietly([s], [], lostFound);
    b, es := [s] + [s1], [] + [Outside(SetConnecting)];
    var s2 := ExtendWithEvent(b, es, lostFound, AnnounceConnecting);
    b, es := b + [s2], es + [Outside(AnnounceConnecting)];
    var s3 := ExtendWithEvent(b, es, lostFound, AnnounceFailure);
    var s4 := ExtendWithCallback(b, es, lostFound, cb);
    b', es' := b + [s4], es + [Hal(cb, None)];
    b, es := b + [s3], es + [Outside(AnnounceFailure)];
  }
}
