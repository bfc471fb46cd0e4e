/**
 The lost-and-found (LNF) protocol: worker threads, HAL callbacks and bus events that
 share the Wi-Fi status, the start flag, mutexLAF with condLAF, and mutexTriggerLAF.

 The model is a step system. A step is one statement or one condition of a worker
 thread, or one whole callback or bus event. The HAL, the LAF library and the clock
 are nondeterministic inputs carried by the steps. There may be any number of threads.
 */
module LnfProtocol {
  import opened Basics
  import opened WifiStatus

  // ---------- state ----------

  datatype Kind =
    | Requested   // runs lafConnPrivThread
    | Activation  // runs lafConnThread

  datatype Request = ToLnfSsid | ToPrivate | SwitchToPrivateNow

  datatype Pc =
    // lafConnPrivThread, waiting for a start request
    | LockStart | Suppress | TestStart | Asleep | Woken | UnlockStart
    // lafConnPrivThread, one round
    | EnterRound | ForgetLoss | ChooseRequest | TestStop | TestPrivate
    // both threads, one guarded attempt
    | LockTrigger | CheckUnderLock | MarkBusy | StartAttempt | Attempting
    | AbortUnlock | AttemptUnlock(done: bool) | AfterAttempt(ok: bool)
    // lafConnPrivThread, after a failed attempt
    | ManualConnect | ManualSet | ManualAnnounce | ManualResult | LoopTest
    // lafConnThread
    | ActStart | ActOuter | ActInner | ActTestConnected | ActTestStop
    | ActSettle | ActTestStopAgain | ActLeave | ActSignal | Done

  datatype Thread = Thread(kind: Kind, pc: Pc, req: Request)

  datatype Shared = Shared(
    wifi: Wifi,
    startLaf: bool,
    lafLock: Option<nat>,      // holder of mutexLAF
    triggerLock: Option<nat>,  // holder of mutexTriggerLAF
    activated: bool,           // bDeviceActivated
    activationLoop: bool,      // bLnfActivationLoop
    autoSwitch: bool,          // bAutoSwitchToPrivateEnabled
    switchNow: bool)           // bSwitch2Private

  datatype State = State(sh: Shared, threads: seq<Thread>)

  /** What the outside world decides in a thread's step. */
  datatype Input = Input(ok: bool, found: bool, stored: Option<string>, wake: Option<nat>)

  /** What laf_wifi_connect and laf_wifi_disconnect may do while an attempt runs. */
  datatype Effect =
    | SetBusy
    | SetPrivate
    | SetConnecting       // the status, without a word
    | AnnounceConnecting  // the event, whatever the status is by then
    | AnnounceFailure
    | ReloadSaved(ssid: string)

  datatype Event =
    | Advance(i: nat, inp: Input)
    | Inside(i: nat, effect: Effect)
    | SpuriousWake(i: nat)
    | Hal(cb: Callback, wake: Option<nat>)
    | StopEvent(value: bool, wake: Option<nat>)
    | AutoSwitchEvent(value: bool, wake: Option<nat>)
    | SwitchEvent(deviceActivated: bool, wake: Option<nat>)
    | AuthActivated
    | BootRequest(wake: Option<nat>)  // startLAFIfNecessary signals
    | BootLoss                        // and then marks the private connection as lost
    | Outside(effect: Effect)         // a bus request connects, or the boot reloads the saved SSID

  predicate PrivateUp(w: Wifi) {
    w.lnf == ConnectedPrivate && w.adapter == Connected
  }

  // ---------- start requests ----------

  predicate HasSleeper(ts: seq<Thread>) {
    exists i :: 0 <= i < |ts| && ts[i].pc == Asleep
  }

  /** pthread_cond_signal wakes one sleeper if there is one. */
  predicate WakeOk(ts: seq<Thread>, wake: Option<nat>) {
    match wake
    case None => !HasSleeper(ts)
    case Some(j) => j < |ts| && ts[j].pc == Asleep
  }

  predicate CanRequest(s: State, wake: Option<nat>) {
    s.sh.lafLock == None && WakeOk(s.threads, wake)
  }

  /** signalStartLAF: set the flag and signal, all under mutexLAF. */
  function SignalStart(s: State, wake: Option<nat>): State
    requires CanRequest(s, wake)
  {
    State(s.sh.(startLaf := true),
          if wake.Some? then s.threads[wake.value := s.threads[wake.value].(pc := Woken)] else s.threads)
  }

  /** Whether an event, in a state, gets as far as calling signalStartLAF. */
  predicate IsRequest(s: State, e: Event, lostFound: bool) {
    match e
    case Advance(i, _) => i < |s.threads| && s.threads[i].pc == ActSignal && !s.sh.activationLoop
    case Hal(cb, _) => lostFound && AsksForLnf(cb.code) && !Debounced(s.sh.wifi, cb) && !s.sh.activationLoop
    case StopEvent(v, _) =>
      s.sh.wifi.stop && !v && lostFound && s.sh.wifi.lnf != ConnectedPrivate && !s.sh.activationLoop
    case AutoSwitchEvent(v, _) => !s.sh.autoSwitch && v && s.sh.wifi.lnf != ConnectedPrivate && !s.sh.activationLoop
    case SwitchEvent(_, _) => !s.sh.autoSwitch && !s.sh.activationLoop
    case BootRequest(_) => true
    case _ => false
  }

  function WakeOf(e: Event): Option<nat> {
    match e
    case Advance(_, inp) => inp.wake
    case Hal(_, wake) => wake
    case StopEvent(_, wake) => wake
    case AutoSwitchEvent(_, wake) => wake
    case SwitchEvent(_, wake) => wake
    case BootRequest(wake) => wake
    case _ => None
  }

  // ---------- thread steps ----------

  predicate ThreadEnabled(sh: Shared, t: Thread) {
    match t.pc
    case LockStart => sh.lafLock == None
    case Woken => sh.lafLock == None
    case LockTrigger => sh.triggerLock == None
    case Asleep => false
    case Done => false
    case _ => true
  }

  function Announce(w: Wifi, b: Broadcast): Wifi {
    w.(broadcasts := w.broadcasts + [b])
  }

  /** Where one step takes thread `t`. */
  function PcAfter(sh: Shared, t: Thread, inp: Input): Pc {
    var w := sh.wifi;
    match t.pc
    case LockStart => Suppress
    case Suppress => TestStart
    case TestStart => if sh.startLaf then UnlockStart else Asleep
    case Asleep => Asleep
    case Woken => TestStart
    case UnlockStart => EnterRound
    case EnterRound => ForgetLoss
    case ForgetLoss => ChooseRequest
    case ChooseRequest => TestStop
    case TestStop => if w.stop then LockStart else TestPrivate
    case TestPrivate => if w.adapter == Connected && !w.isLaf then LockStart else LockTrigger
    case LockTrigger => CheckUnderLock
    case CheckUnderLock =>
      if w.lnf == ConnectedPrivate && (w.adapter == Connected || t.kind == Activation) then AbortUnlock
      else if t.kind == Requested then MarkBusy else StartAttempt
    case MarkBusy => StartAttempt
    case StartAttempt => Attempting
    case Attempting => AttemptUnlock(inp.ok)
    case AbortUnlock => RoundEnd(t.kind)
    case AttemptUnlock(ok) => AfterAttempt(ok)
    case AfterAttempt(ok) =>
      if ok then RoundEnd(t.kind)
      else if w.stop then if t.kind == Requested then LockStart else Done
      else if t.kind == Requested then ManualConnect else ActInner
    case ManualConnect => if inp.found then ManualSet else LoopTest
    case ManualSet => ManualAnnounce
    case ManualAnnounce => ManualResult
    case ManualResult => LoopTest
    case LoopTest => if w.lnf != ConnectedPrivate && sh.autoSwitch then ChooseRequest else LockStart
    case ActStart => ActOuter
    case ActOuter => if sh.activated then ActLeave else ActInner
    case ActInner => if w.lnf != ConnectedLnf then ActTestConnected else ActSettle
    case ActTestConnected => if w.adapter != Connected then ActTestStop else if w.isLaf then ActSettle else Done
    case ActTestStop => if w.stop then Done else LockTrigger
    case ActSettle => ActTestStopAgain
    case ActTestStopAgain => if w.stop then Done else ActOuter
    case ActLeave => if w.lnf == ConnectedLnf then ActSignal else Done
    case ActSignal => Done
    case Done => Done
  }

  /** Leaving the attempt loop: wait for the next request, or settle and test again. */
  function RoundEnd(kind: Kind): Pc {
    if kind == Requested then LockStart else ActSettle
  }

  function ThreadAfter(sh: Shared, t: Thread, inp: Input): Thread {
    Thread(t.kind, PcAfter(sh, t, inp),
           if t.pc != ChooseRequest then t.req
           else if sh.switchNow then SwitchToPrivateNow
           else if sh.autoSwitch then ToPrivate
           else ToLnfSsid)
  }

  // What a step of thread `t`, with index `i`, does to each shared variable.

  function LafLockAfter(sh: Shared, t: Thread, i: nat): Option<nat> {
    match t.pc
    case LockStart => Some(i)
    case Woken => Some(i)
    case TestStart => if sh.startLaf then sh.lafLock else None  // waiting releases the lock
    case UnlockStart => None
    case _ => sh.lafLock
  }

  function TriggerLockAfter(sh: Shared, t: Thread, i: nat): Option<nat> {
    match t.pc
    case LockTrigger => Some(i)
    case AbortUnlock => None
    case AttemptUnlock(_) => None
    case _ => sh.triggerLock
  }

  function StartAfter(sh: Shared, t: Thread): bool {
    match t.pc
    case Suppress => sh.startLaf && !PrivateUp(sh.wifi)
    case TestStart => false
    case _ => sh.startLaf
  }

  function LnfAfter(w: Wifi, sh: Shared, t: Thread): LnfStatus {
    match t.pc
    case EnterRound => if w.lnf != ConnectedLnf then LnfInProgress else w.lnf
    case ChooseRequest => if sh.autoSwitch || sh.switchNow then w.lnf else LnfInProgress
    case TestStop => if w.stop then LnfUninitialized else w.lnf
    case TestPrivate => if w.adapter == Connected && !w.isLaf then ConnectedPrivate else w.lnf
    case MarkBusy => if w.lnf == LnfUninitialized then LnfInProgress else w.lnf
    case AfterAttempt(ok) =>
      if ok then if t.kind == Activation || t.req == ToLnfSsid then ConnectedLnf else w.lnf
      else if w.stop && t.kind == Requested then LnfUninitialized
      else w.lnf
    case ActStart => LnfInProgress
    case ActTestConnected => if w.adapter == Connected && !w.isLaf then ConnectedPrivate else w.lnf
    case ActTestStop => if w.stop then LnfUninitialized else w.lnf
    case ActSettle => if !w.isLaf && w.adapter == Connected then ConnectedPrivate else w.lnf
    case _ => w.lnf
  }

  function ActivationLoopAfter(sh: Shared, t: Thread): bool {
    var w := sh.wifi;
    match t.pc
    case AfterAttempt(ok) => sh.activationLoop && !(!ok && w.stop && t.kind == Activation)
    case ActOuter => sh.activationLoop || !sh.activated
    case ActTestConnected => sh.activationLoop && !(w.adapter == Connected && !w.isLaf)
    case ActTestStop => sh.activationLoop && !w.stop
    case ActTestStopAgain => sh.activationLoop && !w.stop
    case ActLeave => false
    case _ => sh.activationLoop
  }

  function PrivLostAfter(w: Wifi, t: Thread): bool {
    match t.pc
    case ForgetLoss => false
    case ActLeave => w.privLost && w.lnf != ConnectedLnf
    case _ => w.privLost
  }

  /** The manual connect: connect_withSSID sets the status, then announces it and, when the HAL
      refuses the connect, announces its failure. Other threads may run in between. */
  function ManualStep(w: Wifi, t: Thread, inp: Input): Wifi {
    match t.pc
    case ManualConnect => if inp.stored.Some? then w.(savedSsid := inp.stored.value) else w
    case ManualSet => w.(adapter := Connecting)
    case ManualAnnounce => Announce(w, StateChanged(Connecting))
    case ManualResult => if inp.ok then w else Announce(w, StateChanged(Failed))
    case _ => w
  }

  function ThreadWifi(sh: Shared, t: Thread, inp: Input): Wifi {
    ManualStep(sh.wifi, t, inp).(lnf := LnfAfter(sh.wifi, sh, t), privLost := PrivLostAfter(sh.wifi, t))
  }

  function SharedAfter(sh: Shared, t: Thread, i: nat, inp: Input): Shared {
    Shared(ThreadWifi(sh, t, inp), StartAfter(sh, t), LafLockAfter(sh, t, i), TriggerLockAfter(sh, t, i),
           sh.activated, ActivationLoopAfter(sh, t), sh.autoSwitch, sh.switchNow && t.pc != ChooseRequest)
  }

  function ApplyEffect(w: Wifi, e: Effect): Wifi {
    match e
    case SetBusy => w.(lnf := LnfInProgress)
    case SetPrivate => w.(lnf := ConnectedPrivate)
    case SetConnecting => w.(adapter := Connecting)
    case AnnounceConnecting => Announce(w, StateChanged(Connecting))
    case AnnounceFailure => Announce(w, StateChanged(Failed))
    case ReloadSaved(ssid) => w.(savedSsid := ssid)
  }

  // ---------- the step relation ----------

  predicate Enabled(s: State, e: Event, lostFound: bool) {
    && (IsRequest(s, e, lostFound) ==> CanRequest(s, WakeOf(e)))
    && match e
       case Advance(i, _) => i < |s.threads| && ThreadEnabled(s.sh, s.threads[i])
       case Inside(i, _) => i < |s.threads| && s.threads[i].pc == Attempting
       case SpuriousWake(i) => i < |s.threads| && s.threads[i].pc == Asleep
       case Outside(effect) => !effect.SetBusy? && !effect.SetPrivate?
       case _ => true
  }

  function WifiAfter(s: State, e: Event, lostFound: bool): Wifi
    requires Enabled(s, e, lostFound)
  {
    var w := s.sh.wifi;
    match e
    case Advance(i, inp) => ThreadWifi(s.sh, s.threads[i], inp)
    case Inside(_, effect) => ApplyEffect(w, effect)
    case Outside(effect) => ApplyEffect(w, effect)
    case Hal(cb, _) => Act(w, cb, lostFound)
    case StopEvent(v, _) => w.(stop := v)
    case BootLoss => w.(privLost := true)
    case _ => w
  }

  /** The effect of an event apart from a start request it may issue. */
  function Local(s: State, e: Event, lostFound: bool): State
    requires Enabled(s, e, lostFound)
  {
    match e
    case Advance(i, inp) =>
      State(SharedAfter(s.sh, s.threads[i], i, inp), s.threads[i := ThreadAfter(s.sh, s.threads[i], inp)])
    case SpuriousWake(i) => s.(threads := s.threads[i := s.threads[i].(pc := Woken)])
    case AutoSwitchEvent(v, _) => s.(sh := s.sh.(autoSwitch := v))
    case SwitchEvent(dev, _) =>
      s.(sh := s.sh.(activated := s.sh.activated || dev, switchNow := s.sh.switchNow || !s.sh.autoSwitch))
    case AuthActivated => s.(sh := s.sh.(activated := true))
    case _ => s.(sh := s.sh.(wifi := WifiAfter(s, e, lostFound)))
  }

  function Step(s: State, e: Event, lostFound: bool): State
    requires Enabled(s, e, lostFound)
  {
    var s1 := Local(s, e, lostFound);
    if IsRequest(s, e, lostFound) then SignalStart(s1, WakeOf(e)) else s1
  }

  predicate Next(s: State, e: Event, s': State, lostFound: bool) {
    Enabled(s, e, lostFound) && s' == Step(s, e, lostFound)
  }

  /** The Wi-Fi state when the workers start: isWiFiCapable has found a radio. */
  const READY := BOOT.(adapter := Disconnected)

  predicate Init(s: State) {
    && s.sh == Shared(READY, false, None, None, s.sh.activated, false, true, false)
    && forall i :: 0 <= i < |s.threads| ==>
         s.threads[i].pc == if s.threads[i].kind == Requested then LockStart else ActStart
  }

  /** `b` lists the states of a run and `es` its events. */
  ghost predicate IsRun(b: seq<State>, es: seq<Event>, lostFound: bool) {
    && |b| == |es| + 1
    && Init(b[0])
    && forall k :: 0 <= k < |es| ==> Next(b[k], es[k], b[k + 1], lostFound)
  }

  // ---------- the inductive invariant ----------

  predicate InLaf(pc: Pc) {
    pc.Suppress? || pc.TestStart? || pc.UnlockStart?
  }

  predicate InTrigger(pc: Pc) {
    pc.CheckUnderLock? || pc.MarkBusy? || pc.StartAttempt? || pc.Attempting? || pc.AbortUnlock? || pc.AttemptUnlock?
  }

  /** Each lock is held by exactly the thread whose program counter is inside it. */
  predicate LocksOk(s: State) {
    forall i :: 0 <= i < |s.threads| ==>
      && (InLaf(s.threads[i].pc) <==> s.sh.lafLock == Some(i))
      && (InTrigger(s.threads[i].pc) <==> s.sh.triggerLock == Some(i))
  }

  /** What a step may do to the threads and the locks: it moves only its own thread, apart
      from waking a sleeper, and only a thread's own step touches a lock. */
  predicate Framed(s: State, e: Event, s': State) {
    && |s'.threads| == |s.threads|
    && (e.Advance? ==> e.i < |s.threads| && ThreadEnabled(s.sh, s.threads[e.i]))
    && (forall j :: 0 <= j < |s.threads| ==> MovesTo(s, e, j, s'.threads[j]))
    && if e.Advance? then
         && s'.sh.lafLock == LafLockAfter(s.sh, s.threads[e.i], e.i)
         && s'.sh.triggerLock == TriggerLockAfter(s.sh, s.threads[e.i], e.i)
       else s'.sh.lafLock == s.sh.lafLock && s'.sh.triggerLock == s.sh.triggerLock
  }

  predicate MovesTo(s: State, e: Event, j: nat, t: Thread)
    requires j < |s.threads|
  {
    if e.Advance? && e.i == j then t == ThreadAfter(s.sh, s.threads[j], e.inp)
    else t == s.threads[j] || (s.threads[j].pc == Asleep && t == s.threads[j].(pc := Woken))
  }

  lemma StepsAreFramed(s: State, e: Event, s': State, lostFound: bool)
    requires Next(s, e, s', lostFound)
    ensures Framed(s, e, s')
  {
  }

  /** mutexLAF, seen from the moving thread `i` and from any other index `j`. */
  lemma ThreadKeepsLafLock(sh: Shared, t: Thread, i: nat, inp: Input, j: nat)
    requires ThreadEnabled(sh, t)
    requires InLaf(t.pc) <==> sh.lafLock == Some(i)
    ensures InLaf(PcAfter(sh, t, inp)) <==> LafLockAfter(sh, t, i) == Some(i)
    ensures j != i ==> (LafLockAfter(sh, t, i) == Some(j) <==> sh.lafLock == Some(j))
  {
  }

  /** The same for mutexTriggerLAF. */
  lemma ThreadKeepsTriggerLock(sh: Shared, t: Thread, i: nat, inp: Input, j: nat)
    requires ThreadEnabled(sh, t)
    requires InTrigger(t.pc) <==> sh.triggerLock == Some(i)
    ensures InTrigger(PcAfter(sh, t, inp)) <==> TriggerLockAfter(sh, t, i) == Some(i)
    ensures j != i ==> (TriggerLockAfter(sh, t, i) == Some(j) <==> sh.triggerLock == Some(j))
  {
  }

  lemma LocksKept(s: State, e: Event, s': State)
    requires Framed(s, e, s') && LocksOk(s)
    ensures LocksOk(s')
  {
    forall j | 0 <= j < |s'.threads|
      ensures InLaf(s'.threads[j].pc) <==> s'.sh.lafLock == Some(j)
      ensures InTrigger(s'.threads[j].pc) <==> s'.sh.triggerLock == Some(j)
    {
      assert MovesTo(s, e, j, s'.threads[j]);
      if e.Advance? {
        ThreadKeepsLafLock(s.sh, s.threads[e.i], e.i, e.inp, j);
        ThreadKeepsTriggerLock(s.sh, s.threads[e.i], e.i, e.inp, j);
      }
    }
  }

  ghost predicate FramedRun(b: seq<State>, es: seq<Event>) {
    && |b| == |es| + 1
    && Init(b[0])
    && forall k :: 0 <= k < |es| ==> Framed(b[k], es[k], b[k + 1])
  }

  lemma RunsAreFramed(b: seq<State>, es: seq<Event>, lostFound: bool)
    requires IsRun(b, es, lostFound)
    ensures FramedRun(b, es)
  {
    forall k | 0 <= k < |es|
      ensures Framed(b[k], es[k], b[k + 1])
    {
      StepsAreFramed(b[k], es[k], b[k + 1], lostFound);
    }
  }

  lemma {:induction false} LocksAlwaysOk(b: seq<State>, es: seq<Event>, k: nat)
    requires FramedRun(b, es) && k <= |es|
    ensures LocksOk(b[k]) && |b[k].threads| == |b[0].threads|
  {
    if k > 0 {
      LocksAlwaysOk(b, es, k - 1);
      LocksKept(b[k - 1], es[k - 1], b[k]);
    }
  }

  // ---------- one attempt at a time ----------

  /** For any number of threads, at every point of every run, at most one attempt is in progress. */
  lemma OneAttemptAtATime(b: seq<State>, es: seq<Event>, lostFound: bool, k: nat, i: nat, j: nat)
    requires IsRun(b, es, lostFound) && k <= |es|
    requires i < |b[k].threads| && j < |b[k].threads|
    requires b[k].threads[i].pc == Attempting && b[k].threads[j].pc == Attempting
    ensures i == j
  {
    RunsAreFramed(b, es, lostFound);
    LocksAlwaysOk(b, es, k);
    assert b[k].sh.triggerLock == Some(i) && b[k].sh.triggerLock == Some(j);
  }

  /** Event `e` is a step of thread `i` from a program point that satisfies `p`. */
  predicate StepFrom(s: State, e: Event, i: nat, p: Pc -> bool) {
    e.Advance? && e.i == i && i < |s.threads| && p(s.threads[i].pc)
  }

  /** How many of the events from..to are steps of thread `i` from such a point. */
  ghost function Steps(b: seq<State>, es: seq<Event>, i: nat, p: Pc -> bool, from: nat, to: nat): nat
    requires from <= to <= |es| <= |b|
  {
    if from == to then 0
    else Steps(b, es, i, p, from, to - 1) + (if StepFrom(b[to - 1], es[to - 1], i, p) then 1 else 0)
  }

  predicate Acquires(pc: Pc) {
    pc == LockTrigger
  }

  predicate Releases(pc: Pc) {
    pc == AbortUnlock || pc.AttemptUnlock?
  }

  predicate Starts(pc: Pc) {
    pc == StartAttempt
  }

  lemma ReleaseStep(sh: Shared, t: Thread, inp: Input)
    ensures (if Acquires(t.pc) then 1 else 0) + (if InTrigger(t.pc) then 1 else 0)
         == (if Releases(t.pc) then 1 else 0) + (if InTrigger(PcAfter(sh, t, inp)) then 1 else 0)
  {
  }

  lemma {:induction false} ReleasesBalance(b: seq<State>, es: seq<Event>, i: nat, k: nat)
    requires FramedRun(b, es) && k <= |es| && i < |b[0].threads|
    ensures |b[k].threads| == |b[0].threads|
    ensures Steps(b, es, i, Acquires, 0, k)
         == Steps(b, es, i, Releases, 0, k) + (if InTrigger(b[k].threads[i].pc) then 1 else 0)
  {
    if k > 0 {
      ReleasesBalance(b, es, i, k - 1);
      assert MovesTo(b[k - 1], es[k - 1], i, b[k].threads[i]);
      if es[k - 1].Advance? {
        ReleaseStep(b[k - 1].sh, b[k - 1].threads[i], es[k - 1].inp);
      }
    }
  }

  /** In every run, whatever path a thread takes, each of its acquisitions of mutexTriggerLAF is
      released exactly once, apart from the one it may be holding now. */
  lemma AcquisitionsAreReleased(b: seq<State>, es: seq<Event>, lostFound: bool, i: nat, k: nat)
    requires IsRun(b, es, lostFound) && k <= |es| && i < |b[k].threads|
    ensures Steps(b, es, i, Acquires, 0, k)
         == Steps(b, es, i, Releases, 0, k) + (if b[k].sh.triggerLock == Some(i) then 1 else 0)
  {
    RunsAreFramed(b, es, lostFound);
    LocksAlwaysOk(b, es, k);
    ReleasesBalance(b, es, i, k);
  }

  predicate Cleared(pc: Pc) {
    pc == MarkBusy || pc == StartAttempt
  }

  lemma ClearedByCheck(sh: Shared, t: Thread, inp: Input)
    requires Cleared(PcAfter(sh, t, inp))
    ensures t.pc == MarkBusy || (t.pc == CheckUnderLock && !PrivateUp(sh.wifi))
  {
  }

  /** Just before, the thread had passed its check already, or made it. */
  lemma ClearedStep(b: seq<State>, es: seq<Event>, i: nat, k: nat)
    requires FramedRun(b, es) && k <= |es| && i < |b[k].threads| && Cleared(b[k].threads[i].pc)
    ensures k > 0 && i < |b[k - 1].threads| && b[k].sh.triggerLock == Some(i)
    ensures Cleared(b[k - 1].threads[i].pc) || CheckedAt(b, es, i, k - 1, k)
  {
    HeldWhileCleared(b, es, i, k);
    var s, e := b[k - 1], es[k - 1];
    assert MovesTo(s, e, i, b[k].threads[i]);
    if e.Advance? && e.i == i {
      ClearedByCheck(s.sh, s.threads[i], e.inp);
    }
  }

  lemma {:induction false} ClearedWasChecked(b: seq<State>, es: seq<Event>, i: nat, k: nat) returns (m: nat)
    requires FramedRun(b, es) && k <= |es| && i < |b[k].threads|
    requires Cleared(b[k].threads[i].pc)
    ensures m < k && CheckedAt(b, es, i, m, k)
  {
    ClearedStep(b, es, i, k);
    if Cleared(b[k - 1].threads[i].pc) {
      m := ClearedWasChecked(b, es, i, k - 1);
      StillChecked(b, es, i, m, k);
    } else {
      m := k - 1;
    }
  }

  lemma StillChecked(b: seq<State>, es: seq<Event>, i: nat, m: nat, k: nat)
    requires m < k - 1 < |es| < |b| && CheckedAt(b, es, i, m, k - 1)
    requires b[k].sh.triggerLock == Some(i) && i < |b[k].threads| && Cleared(b[k].threads[i].pc)
    ensures CheckedAt(b, es, i, m, k)
  {
  }

  /** Behind every started attempt of every run is a check, made under the lock and not seeing
      private Wi-Fi up, since which the lock was never let go. */
  lemma AttemptsAreChecked(b: seq<State>, es: seq<Event>, lostFound: bool, i: nat, k: nat)
    requires IsRun(b, es, lostFound) && k < |es| && StepFrom(b[k], es[k], i, Starts)
    ensures exists m :: 0 <= m < k && CheckedAt(b, es, i, m, k)
  {
    RunsAreFramed(b, es, lostFound);
    var m := ClearedWasChecked(b, es, i, k);
    assert CheckedAt(b, es, i, m, k);
  }

  lemma HeldWhileCleared(b: seq<State>, es: seq<Event>, i: nat, k: nat)
    requires FramedRun(b, es) && k <= |es| && i < |b[k].threads| && Cleared(b[k].threads[i].pc)
    ensures k > 0 && i < |b[k - 1].threads| && b[k].sh.triggerLock == Some(i)
    ensures b[k - 1].threads[i].pc == CheckUnderLock ==> b[k - 1].sh.triggerLock == Some(i)
  {
    LocksAlwaysOk(b, es, k);
    if k > 0 {
      LocksAlwaysOk(b, es, k - 1);
    }
  }

  predicate Checks(pc: Pc) {
    pc == CheckUnderLock
  }

  ghost predicate CheckedAt(b: seq<State>, es: seq<Event>, i: nat, m: nat, k: nat)
    requires m < k <= |es| < |b|
  {
    && StepFrom(b[m], es[m], i, Checks)
    && !PrivateUp(b[m].sh.wifi)
    && (forall n :: m <= n <= k ==> b[n].sh.triggerLock == Some(i))
    && forall n :: m < n <= k ==> i < |b[n].threads| && Cleared(b[n].threads[i].pc)
  }

  // ---------- what a step may do to the Wi-Fi state ----------

  /** Only a callback touches the connect flags, the debounce code and the refresh log, and
      only a callback or a stop event touches the stop flag. */
  predicate WifiFramed(w: Wifi, e: Event, w': Wifi, lostFound: bool) {
    if e.Hal? then w' == Act(w, e.cb, lostFound)
    else Untouched(w, w') && w'.stop == (if e.StopEvent? then e.value else w.stop)
  }

  predicate Untouched(w: Wifi, w': Wifi) {
    && w'.isLaf == w.isLaf && w'.lnf2priv == w.lnf2priv && w'.priv2lnf == w.priv2lnf
    && w'.prevCode == w.prevCode && w'.refreshes == w.refreshes
    && (Quiet(w, w') || Announces(w, w'))
  }

  /** Nothing is announced; the status stays or becomes connecting. */
  predicate Quiet(w: Wifi, w': Wifi) {
    w'.broadcasts == w.broadcasts && (w'.adapter == w.adapter || w'.adapter == Connecting)
  }

  /** A connect request announces something; the status stays. */
  predicate Announces(w: Wifi, w': Wifi) {
    && w'.adapter == w.adapter
    && (|| w'.broadcasts == w.broadcasts + [StateChanged(Connecting)]
        || w'.broadcasts == w.broadcasts + [StateChanged(Failed)])
  }

  /** The event is the silent status change of a connect request. */
  predicate SetsStatus(s: State, e: Event) {
    match e
    case Advance(i, _) => i < |s.threads| && s.threads[i].pc == ManualSet
    case Inside(_, effect) => effect == SetConnecting
    case Outside(effect) => effect == SetConnecting
    case _ => false
  }

  /** Outside callbacks, only connect requests write the status, and they do so silently. */
  lemma StatusWriters(s: State, e: Event, s': State, lostFound: bool)
    requires Next(s, e, s', lostFound) && !e.Hal?
    ensures s'.sh.wifi.adapter == if SetsStatus(s, e) then Connecting else s.sh.wifi.adapter
    ensures SetsStatus(s, e) ==> s'.sh.wifi.broadcasts == s.sh.wifi.broadcasts
  {
    assert s'.sh.wifi == WifiAfter(s, e, lostFound);
  }

  lemma StepsFrameWifi(s: State, e: Event, s': State, lostFound: bool)
    requires Next(s, e, s', lostFound)
    ensures WifiFramed(s.sh.wifi, e, s'.sh.wifi, lostFound)
  {
    assert s'.sh.wifi == WifiAfter(s, e, lostFound);
    EventsFrameWifi(s, e, lostFound);
  }

  lemma EventsFrameWifi(s: State, e: Event, lostFound: bool)
    requires Enabled(s, e, lostFound)
    ensures WifiFramed(s.sh.wifi, e, WifiAfter(s, e, lostFound), lostFound)
  {
    if e.Advance? {
      ThreadsFrameWifi(s.sh, s.threads[e.i], e.inp);
    } else if e.Inside? || e.Outside? {
      EffectsFrameWifi(s.sh.wifi, e.effect);
    }
  }

  lemma ThreadsFrameWifi(sh: Shared, t: Thread, inp: Input)
    ensures Untouched(sh.wifi, ThreadWifi(sh, t, inp)) && ThreadWifi(sh, t, inp).stop == sh.wifi.stop
  {
  }

  lemma EffectsFrameWifi(w: Wifi, effect: Effect)
    ensures Untouched(w, ApplyEffect(w, effect)) && ApplyEffect(w, effect).stop == w.stop
  {
  }

  // ---------- the stop flag ----------

  /** The points between a passed stop test and the attempt it allows. */
  predicate PastStopTest(pc: Pc) {
    pc == TestPrivate || pc == LockTrigger || pc == CheckUnderLock || pc == MarkBusy || pc == StartAttempt
  }

  function Allowance(pc: Pc): nat {
    if PastStopTest(pc) then 1 else 0
  }

  lemma StopStep(sh: Shared, t: Thread, inp: Input)
    requires sh.wifi.stop
    ensures (if Starts(t.pc) then 1 else 0) + Allowance(PcAfter(sh, t, inp)) <= Allowance(t.pc)
  {
  }

  /** While the stop flag is up, a thread spends its allowance and never earns another. */
  lemma {:induction false} StopBoundsAttempts(b: seq<State>, es: seq<Event>, i: nat, from: nat, to: nat)
    requires from <= to <= |es| < |b| && i < |b[from].threads|
    requires forall k :: from <= k < to ==> SpendsAllowance(b[k], es[k], b[k + 1], i)
    ensures i < |b[to].threads|
    ensures Steps(b, es, i, Starts, from, to) + Allowance(b[to].threads[i].pc) <= Allowance(b[from].threads[i].pc)
  {
    if from < to {
      StopBoundsAttempts(b, es, i, from, to - 1);
      assert SpendsAllowance(b[to - 1], es[to - 1], b[to], i);
    }
  }

  predicate SpendsAllowance(s: State, e: Event, s': State, i: nat) {
    && i < |s.threads| == |s'.threads|
    && (if StepFrom(s, e, i, Starts) then 1 else 0) + Allowance(s'.threads[i].pc) <= Allowance(s.threads[i].pc)
  }

  lemma StopMove(s: State, e: Event, s': State, i: nat)
    requires Framed(s, e, s') && i < |s.threads| && s.sh.wifi.stop
    ensures SpendsAllowance(s, e, s', i)
  {
    assert MovesTo(s, e, i, s'.threads[i]);
    if e.Advance? {
      StopStep(s.sh, s.threads[i], e.inp);
    }
  }

  /** The events that can lower the stop flag. */
  predicate LowersStop(e: Event) {
    (e.StopEvent? && !e.value) || (e.Hal? && PrivateConnect(e.cb))
  }

  lemma StopStaysUp(s: State, e: Event, s': State, lostFound: bool)
    requires WifiFramed(s.sh.wifi, e, s'.sh.wifi, lostFound) && s.sh.wifi.stop && !LowersStop(e)
    ensures s'.sh.wifi.stop
  {
  }

  /** Once the stop flag is up, and until an event lowers it, every thread starts at most one
      more attempt, and none unless it had already passed its stop test. */
  lemma {:induction false} AtMostOneMoreAttempt(b: seq<State>, es: seq<Event>, lostFound: bool, i: nat,
                                                from: nat, to: nat)
    requires IsRun(b, es, lostFound) && from <= to <= |es| && i < |b[from].threads|
    requires b[from].sh.wifi.stop
    requires forall k :: from <= k < to ==> !LowersStop(es[k])
    ensures Steps(b, es, i, Starts, from, to) <= 1
    ensures !PastStopTest(b[from].threads[i].pc) ==> Steps(b, es, i, Starts, from, to) == 0
  {
    RunsAreFramed(b, es, lostFound);
    StopHolds(b, es, lostFound, from, to);
    LocksAlwaysOk(b, es, from);
    forall k | from <= k < to
      ensures SpendsAllowance(b[k], es[k], b[k + 1], i)
    {
      LocksAlwaysOk(b, es, k);
      StopMove(b[k], es[k], b[k + 1], i);
    }
    StopBoundsAttempts(b, es, i, from, to);
  }

  lemma {:induction false} StopHolds(b: seq<State>, es: seq<Event>, lostFound: bool, from: nat, to: nat)
    requires IsRun(b, es, lostFound) && from <= to <= |es|
    requires b[from].sh.wifi.stop
    requires forall k :: from <= k < to ==> !LowersStop(es[k])
    ensures forall k :: from <= k <= to ==> b[k].sh.wifi.stop
  {
    if from < to {
      StopHolds(b, es, lostFound, from, to - 1);
      StepsFrameWifi(b[to - 1], es[to - 1], b[to], lostFound);
      StopStaysUp(b[to - 1], es[to - 1], b[to], lostFound);
    }
  }

  // ---------- start requests are not lost ----------

  /** A round begins: the start flag is taken. */
  predicate Takes(s: State, e: Event) {
    e.Advance? && e.i < |s.threads| && s.threads[e.i].pc == TestStart && s.sh.startLaf
  }

  /** A pending request is dropped at a loop top that sees private Wi-Fi up. */
  predicate Drops(s: State, e: Event) {
    e.Advance? && e.i < |s.threads| && s.threads[e.i].pc == Suppress && s.sh.startLaf && PrivateUp(s.sh.wifi)
  }

  lemma StartFlagStep(s: State, e: Event, s': State, lostFound: bool)
    requires Next(s, e, s', lostFound)
    ensures s'.sh.startLaf <==> IsRequest(s, e, lostFound) || (s.sh.startLaf && !Takes(s, e) && !Drops(s, e))
    ensures IsRequest(s, e, lostFound) ==> !Takes(s, e) && !Drops(s, e)
  {
  }

  predicate KeepsPending(s: State, e: Event, s': State) {
    s.sh.startLaf ==> s'.sh.startLaf || Takes(s, e) || Drops(s, e)
  }

  lemma PendingStep(s: State, e: Event, s': State, lostFound: bool)
    requires Next(s, e, s', lostFound)
    ensures KeepsPending(s, e, s') && (IsRequest(s, e, lostFound) ==> s'.sh.startLaf)
  {
    StartFlagStep(s, e, s', lostFound);
  }

  lemma {:induction false} PendingUntilServed(b: seq<State>, es: seq<Event>, k: nat, n: nat)
    requires k < n <= |es| < |b| && b[k + 1].sh.startLaf
    requires forall m :: k < m < n ==> KeepsPending(b[m], es[m], b[m + 1])
    ensures b[n].sh.startLaf || exists m :: k < m < n && (Takes(b[m], es[m]) || Drops(b[m], es[m]))
  {
    if k < n - 1 {
      PendingUntilServed(b, es, k, n - 1);
      assert KeepsPending(b[n - 1], es[n - 1], b[n]);
    }
  }

  /** Every request is still pending, or was taken or dropped after it was made. */
  lemma {:induction false} RequestsAreServed(b: seq<State>, es: seq<Event>, lostFound: bool, k: nat, n: nat)
    requires IsRun(b, es, lostFound) && k < n <= |es|
    requires IsRequest(b[k], es[k], lostFound)
    ensures b[n].sh.startLaf || exists m :: k < m < n && (Takes(b[m], es[m]) || Drops(b[m], es[m]))
  {
    PendingStep(b[k], es[k], b[k + 1], lostFound);
    forall m | k < m < n
      ensures KeepsPending(b[m], es[m], b[m + 1])
    {
      PendingStep(b[m], es[m], b[m + 1], lostFound);
    }
    PendingUntilServed(b, es, k, n);
  }

  ghost function Requests(b: seq<State>, es: seq<Event>, lostFound: bool, k: nat): nat
    requires k <= |es| <= |b|
  {
    if k == 0 then 0 else Requests(b, es, lostFound, k - 1) + if IsRequest(b[k - 1], es[k - 1], lostFound) then 1 else 0
  }

  ghost function Rounds(b: seq<State>, es: seq<Event>, k: nat): nat
    requires k <= |es| <= |b|
  {
    if k == 0 then 0 else Rounds(b, es, k - 1) + if Takes(b[k - 1], es[k - 1]) then 1 else 0
  }

  ghost function Dropped(b: seq<State>, es: seq<Event>, k: nat): nat
    requires k <= |es| <= |b|
  {
    if k == 0 then 0 else Dropped(b, es, k - 1) + if Drops(b[k - 1], es[k - 1]) then 1 else 0
  }

  /** Rounds, drops and the pending request never outnumber the requests made. */
  lemma {:induction false} RoundsNeedRequests(b: seq<State>, es: seq<Event>, lostFound: bool, k: nat)
    requires IsRun(b, es, lostFound) && k <= |es|
    ensures Rounds(b, es, k) + Dropped(b, es, k) + (if b[k].sh.startLaf then 1 else 0) <= Requests(b, es, lostFound, k)
  {
    if k > 0 {
      RoundsNeedRequests(b, es, lostFound, k - 1);
      StartFlagStep(b[k - 1], es[k - 1], b[k], lostFound);
    }
  }

  // ---------- no lost wake-up ----------

  /** The points only lafConnPrivThread reaches. */
  predicate RequestedOnly(pc: Pc) {
    || pc.LockStart? || pc.Suppress? || pc.TestStart? || pc.Asleep? || pc.Woken? || pc.UnlockStart?
    || pc.EnterRound? || pc.ForgetLoss? || pc.ChooseRequest? || pc.TestStop? || pc.TestPrivate?
    || pc.MarkBusy? || pc.ManualConnect? || pc.ManualSet? || pc.ManualAnnounce? || pc.ManualResult? || pc.LoopTest?
  }

  predicate KindsOk(s: State) {
    forall i :: 0 <= i < |s.threads| && RequestedOnly(s.threads[i].pc) ==> s.threads[i].kind == Requested
  }

  lemma {:induction false} KindsKept(s: State, e: Event, s': State)
    requires Framed(s, e, s') && KindsOk(s)
    ensures KindsOk(s')
  {
    forall i | 0 <= i < |s'.threads| && RequestedOnly(s'.threads[i].pc)
      ensures s'.threads[i].kind == Requested
    {
      assert MovesTo(s, e, i, s'.threads[i]);
    }
  }

  /** A pending request has a consumer that is awake, if there is any consumer at all. */
  predicate WakeUpKept(s: State) {
    s.sh.startLaf ==>
      forall c :: 0 <= c < |s.threads| && s.threads[c].kind == Requested ==> HasAwakeConsumer(s)
  }

  predicate HasAwakeConsumer(s: State) {
    exists i :: 0 <= i < |s.threads| && s.threads[i].kind == Requested && s.threads[i].pc != Asleep
  }

  /** A request wakes a sleeper if there is one. */
  lemma RequestWakes(s: State, e: Event, s': State, lostFound: bool, c: nat)
    requires Next(s, e, s', lostFound) && IsRequest(s, e, lostFound) && KindsOk(s)
    requires c < |s.threads| && s.threads[c].kind == Requested
    ensures HasAwakeConsumer(s')
  {
    var wake := WakeOf(e);
    if wake.Some? {
      assert s'.threads[wake.value].pc == Woken && s'.threads[wake.value].kind == Requested;
    } else {
      assert s.threads[c].pc != Asleep;
      assert s'.threads[c].kind == Requested && s'.threads[c].pc != Asleep;
    }
  }

  /** With a request pending, a thread that is awake does not fall asleep. */
  lemma StaysAwake(s: State, e: Event, s': State, i: nat)
    requires Framed(s, e, s') && s.sh.startLaf && i < |s.threads| && s.threads[i].pc != Asleep
    ensures s'.threads[i].kind == s.threads[i].kind && s'.threads[i].pc != Asleep
  {
    assert MovesTo(s, e, i, s'.threads[i]);
  }

  /** A request that is pending without being made now was pending before. */
  lemma WasPending(s: State, e: Event, s': State, lostFound: bool)
    requires Next(s, e, s', lostFound) && s'.sh.startLaf && !IsRequest(s, e, lostFound)
    ensures s.sh.startLaf
  {
    StartFlagStep(s, e, s', lostFound);
  }

  lemma {:induction false} WakeUpStep(s: State, e: Event, s': State, lostFound: bool)
    requires Next(s, e, s', lostFound) && Framed(s, e, s') && KindsOk(s) && WakeUpKept(s)
    ensures WakeUpKept(s')
  {
    if s'.sh.startLaf {
      forall c | 0 <= c < |s'.threads| && s'.threads[c].kind == Requested
        ensures HasAwakeConsumer(s')
      {
        assert MovesTo(s, e, c, s'.threads[c]);
        if IsRequest(s, e, lostFound) {
          RequestWakes(s, e, s', lostFound, c);
        } else {
          WasPending(s, e, s', lostFound);
          AwakeStep(s, e, s');
        }
      }
    }
  }

  lemma AwakeStep(s: State, e: Event, s': State)
    requires Framed(s, e, s') && s.sh.startLaf && HasAwakeConsumer(s)
    ensures HasAwakeConsumer(s')
  {
    var i :| 0 <= i < |s.threads| && s.threads[i].kind == Requested && s.threads[i].pc != Asleep;
    StaysAwake(s, e, s', i);
  }

  /** In every run a consumer that sleeps while a request is pending is not the last one awake;
      in particular a lone consumer never sleeps through a request. */
  lemma {:induction false} NoLostWakeUp(b: seq<State>, es: seq<Event>, lostFound: bool, k: nat)
    requires IsRun(b, es, lostFound) && k <= |es|
    ensures KindsOk(b[k]) && WakeUpKept(b[k])
  {
    if k > 0 {
      NoLostWakeUp(b, es, lostFound, k - 1);
      assert Next(b[k - 1], es[k - 1], b[k], lostFound);
      StepsAreFramed(b[k - 1], es[k - 1], b[k], lostFound);
      KindsKept(b[k - 1], es[k - 1], b[k]);
      WakeUpStep(b[k - 1], es[k - 1], b[k], lostFound);
    }
  }

  lemma LoneConsumerHearsEveryRequest(b: seq<State>, es: seq<Event>, lostFound: bool, k: nat, c: nat)
    requires IsRun(b, es, lostFound) && k <= |es| && c < |b[k].threads|
    requires forall i :: 0 <= i < |b[k].threads| ==> (b[k].threads[i].kind == Requested <==> i == c)
    ensures b[k].threads[c].pc == Asleep ==> !b[k].sh.startLaf
  {
    NoLostWakeUp(b, es, lostFound, k);
  }
}
