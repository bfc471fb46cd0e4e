/**
 The shared flags and the lost-and-found status, each said exactly by the steps since which it
 holds: who raises it, who lowers it, and nobody else.
 */
module LnfFlags {
  import opened Basics
  import opened WifiStatus
  import opened WifiEvents
  import opened LnfProtocol
  import opened LnfHistory
  import opened LnfRounds

  /** A condition on the shared state that is false at first and follows every step. */
  lemma SharedSince(b: seq<State>, es: seq<Event>, lostFound: bool, up: State -> bool,
                    raises: (State, Event) -> bool, lowers: (State, Event) -> bool, n: nat)
    requires IsRun(b, es, lostFound) && n <= |es| && !up(b[0])
    requires forall s, e, s' :: Next(s, e, s', lostFound) ==> Follows(s, e, s', up, raises, lowers)
    ensures up(b[n]) <==> Since(b, es, raises, lowers, n)
  {
    forall l | 0 <= l < n
      ensures Follows(b[l], es[l], b[l + 1], up, raises, lowers)
    {
      assert Next(b[l], es[l], b[l + 1], lostFound);
    }
    HoldsSince(b, es, up, raises, lowers, n);
  }

  // ---------- the stop flag ----------

  function Stopped(): State -> bool {
    (s: State) => s.sh.wifi.stop
  }

  function StopEvents(): (State, Event) -> bool {
    (s: State, e: Event) => e.StopEvent? && e.value
  }

  function Lowerings(): (State, Event) -> bool {
    (s: State, e: Event) => (e.StopEvent? && !e.value) || (e.Hal? && Joins(e.cb))
  }

  lemma StopFollows(s: State, e: Event, s': State, lostFound: bool)
    requires Next(s, e, s', lostFound)
    ensures Follows(s, e, s', Stopped(), StopEvents(), Lowerings())
  {
    StepsFrameWifi(s, e, s', lostFound);
    if e.Hal? {
      StopAfterCallback(s.sh.wifi, e.cb, lostFound);
    }
  }

  /** In every run the stop flag is up if and only if a stop event raised it and neither a stop event
      nor a private connect lowered it since. */
  lemma StoppedIff(b: seq<State>, es: seq<Event>, lostFound: bool, n: nat)
    requires IsRun(b, es, lostFound) && n <= |es|
    ensures b[n].sh.wifi.stop <==> Since(b, es, StopEvents(), Lowerings(), n)
  {
    forall s, e, s' | Next(s, e, s', lostFound)
      ensures Follows(s, e, s', Stopped(), StopEvents(), Lowerings())
    {
      StopFollows(s, e, s', lostFound);
    }
    SharedSince(b, es, lostFound, Stopped(), StopEvents(), Lowerings(), n);
  }

  // ---------- the lost connection ----------

  function Lost(): State -> bool {
    (s: State) => s.sh.wifi.privLost
  }

  /** A callback announces a loss on a box with lost-and-found, or the boot finds no connection. */
  function Losses(lostFound: bool): (State, Event) -> bool {
    (s: State, e: Event) => e.BootLoss? || (e.Hal? && lostFound && Loses(Added(s.sh.wifi, e.cb, lostFound)))
  }

  predicate Forgets(s: State, e: Event) {
    e.Advance? && e.i < |s.threads|
    && (s.threads[e.i].pc == ForgetLoss || (s.threads[e.i].pc == ActLeave && s.sh.wifi.lnf == ConnectedLnf))
  }

  function Forgettings(): (State, Event) -> bool {
    (s: State, e: Event) => Forgets(s, e)
  }

  lemma LostFollows(s: State, e: Event, s': State, lostFound: bool)
    requires Next(s, e, s', lostFound)
    ensures Follows(s, e, s', Lost(), Losses(lostFound), Forgettings())
  {
    assert s'.sh.wifi == WifiAfter(s, e, lostFound);
    if e.Hal? {
      AskedIffLoss(s.sh.wifi, e.cb, lostFound);
    } else {
      LostStep(s, e, lostFound);
    }
  }

  lemma LostStep(s: State, e: Event, lostFound: bool)
    requires Enabled(s, e, lostFound) && !e.Hal?
    ensures WifiAfter(s, e, lostFound).privLost <==> e.BootLoss? || (s.sh.wifi.privLost && !Forgets(s, e))
  {
  }

  /** In every run the private connection counts as lost if and only if a loss was announced, or found
      at boot, and no round began and no activated thread left since. */
  lemma LostIff(b: seq<State>, es: seq<Event>, lostFound: bool, n: nat)
    requires IsRun(b, es, lostFound) && n <= |es|
    ensures b[n].sh.wifi.privLost <==> Since(b, es, Losses(lostFound), Forgettings(), n)
  {
    forall s, e, s' | Next(s, e, s', lostFound)
      ensures Follows(s, e, s', Lost(), Losses(lostFound), Forgettings())
    {
      LostFollows(s, e, s', lostFound);
    }
    SharedSince(b, es, lostFound, Lost(), Losses(lostFound), Forgettings(), n);
  }

  // ---------- the start flag ----------

  function Pending(): State -> bool {
    (s: State) => s.sh.startLaf
  }

  /** What starts lost-and-found: an announced loss, the stop flag lowered, automatic switching turned
      on, an explicit switch, or an activated thread that leaves its loop, each unless the activation
      loop runs; and the boot, always. */
  predicate StartsLnf(s: State, e: Event, lostFound: bool) {
    match e
    case Hal(cb, _) => lostFound && Loses(Added(s.sh.wifi, cb, lostFound)) && !s.sh.activationLoop
    case StopEvent(v, _) =>
      s.sh.wifi.stop && !v && lostFound && s.sh.wifi.lnf != ConnectedPrivate && !s.sh.activationLoop
    case AutoSwitchEvent(v, _) => v && !s.sh.autoSwitch && s.sh.wifi.lnf != ConnectedPrivate && !s.sh.activationLoop
    case SwitchEvent(_, _) => !s.sh.autoSwitch && !s.sh.activationLoop
    case BootRequest(_) => true
    case Advance(i, _) => i < |s.threads| && s.threads[i].pc == ActSignal && !s.sh.activationLoop
    case _ => false
  }

  function Causing(lostFound: bool): (State, Event) -> bool {
    (s: State, e: Event) => StartsLnf(s, e, lostFound)
  }

  function Serving(): (State, Event) -> bool {
    (s: State, e: Event) => Takes(s, e) || Drops(s, e)
  }

  lemma PendingFollows(s: State, e: Event, s': State, lostFound: bool)
    requires Next(s, e, s', lostFound)
    ensures Follows(s, e, s', Pending(), Causing(lostFound), Serving())
  {
    StartFlagStep(s, e, s', lostFound);
    if e.Hal? {
      AskedIffLoss(s.sh.wifi, e.cb, lostFound);
    }
  }

  /** In every run a start is pending if and only if one of these causes occurred and no round took it
      and no loop top dropped it since. */
  lemma PendingIff(b: seq<State>, es: seq<Event>, lostFound: bool, n: nat)
    requires IsRun(b, es, lostFound) && n <= |es|
    ensures b[n].sh.startLaf <==> Since(b, es, Causing(lostFound), Serving(), n)
  {
    forall s, e, s' | Next(s, e, s', lostFound)
      ensures Follows(s, e, s', Pending(), Causing(lostFound), Serving())
    {
      PendingFollows(s, e, s', lostFound);
    }
    SharedSince(b, es, lostFound, Pending(), Causing(lostFound), Serving(), n);
  }

  // ---------- switching ----------

  function ManualOnly(): State -> bool {
    (s: State) => !s.sh.autoSwitch
  }

  function AutoEvents(value: bool): (State, Event) -> bool {
    (s: State, e: Event) => e.AutoSwitchEvent? && e.value == value
  }

  function SwitchPending(): State -> bool {
    (s: State) => s.sh.switchNow
  }

  function SwitchEvents(): (State, Event) -> bool {
    (s: State, e: Event) => e.SwitchEvent? && !s.sh.autoSwitch
  }

  predicate Chooses(s: State, e: Event) {
    e.Advance? && e.i < |s.threads| && s.threads[e.i].pc == ChooseRequest
  }

  function Choices(): (State, Event) -> bool {
    (s: State, e: Event) => Chooses(s, e)
  }

  lemma SwitchFollows(s: State, e: Event, s': State, lostFound: bool)
    requires Next(s, e, s', lostFound)
    ensures Follows(s, e, s', ManualOnly(), AutoEvents(false), AutoEvents(true))
    ensures Follows(s, e, s', SwitchPending(), SwitchEvents(), Choices())
  {
  }

  /** In every run automatic switching is off if and only if an event turned it off and none turned it
      on since, and an explicit switch is pending if and only if one was asked for while it was off and
      no round has chosen its request since. */
  lemma SwitchingIff(b: seq<State>, es: seq<Event>, lostFound: bool, n: nat)
    requires IsRun(b, es, lostFound) && n <= |es|
    ensures !b[n].sh.autoSwitch <==> Since(b, es, AutoEvents(false), AutoEvents(true), n)
    ensures b[n].sh.switchNow <==> Since(b, es, SwitchEvents(), Choices(), n)
  {
    forall s, e, s' | Next(s, e, s', lostFound)
      ensures Follows(s, e, s', ManualOnly(), AutoEvents(false), AutoEvents(true))
      ensures Follows(s, e, s', SwitchPending(), SwitchEvents(), Choices())
    {
      SwitchFollows(s, e, s', lostFound);
    }
    SharedSince(b, es, lostFound, ManualOnly(), AutoEvents(false), AutoEvents(true), n);
    SharedSince(b, es, lostFound, SwitchPending(), SwitchEvents(), Choices(), n);
  }

  /** A thread's request is the one it chose last: the pending switch, else private credentials if
      automatic switching is on, else the lost-and-found network. */
  lemma RequestChosen(s: State, e: Event, s': State, i: nat)
    requires i < |s.threads| && Moves(s, e, s', i)
    ensures var req := s'.threads[i].req;
            if Own(s, e, i) && Chooses(s, e) then
              && (req == SwitchToPrivateNow <==> s.sh.switchNow)
              && (req == ToPrivate <==> !s.sh.switchNow && s.sh.autoSwitch)
              && (req == ToLnfSsid <==> !s.sh.switchNow && !s.sh.autoSwitch)
            else req == s.threads[i].req
  {
  }

  // ---------- activation ----------

  function Activated(): State -> bool {
    (s: State) => s.sh.activated
  }

  function Activations(): (State, Event) -> bool {
    (s: State, e: Event) => e.AuthActivated? || (e.SwitchEvent? && e.deviceActivated)
  }

  function Never(): (State, Event) -> bool {
    (s: State, e: Event) => false
  }

  function Looping(): State -> bool {
    (s: State) => s.sh.activationLoop
  }

  predicate EntersLoop(s: State, e: Event) {
    e.Advance? && e.i < |s.threads| && s.threads[e.i].pc == ActOuter && !s.sh.activated
  }

  predicate LeavesLoop(s: State, e: Event) {
    e.Advance? && e.i < |s.threads| && s.threads[e.i].kind == Activation
    && (s.threads[e.i].pc == ActLeave || (Quits(s.sh, s.threads[e.i]) && !s.threads[e.i].pc.ActSignal?))
  }

  function LoopEntries(): (State, Event) -> bool {
    (s: State, e: Event) => EntersLoop(s, e)
  }

  function LoopExits(): (State, Event) -> bool {
    (s: State, e: Event) => LeavesLoop(s, e)
  }

  lemma ActivationFollows(s: State, e: Event, s': State, lostFound: bool)
    requires Next(s, e, s', lostFound)
    ensures Follows(s, e, s', Activated(), Activations(), Never())
  {
  }

  lemma LoopFollows(s: State, e: Event, s': State, lostFound: bool)
    requires Next(s, e, s', lostFound) && AllProper(s)
    ensures Follows(s, e, s', Looping(), LoopEntries(), LoopExits())
  {
    if e.Advance? {
      assert Proper(s.threads[e.i]);
      assert s'.sh.activationLoop == ActivationLoopAfter(s.sh, s.threads[e.i]);
      LoopThread(s.sh, s.threads[e.i]);
    }
  }

  lemma LoopThread(sh: Shared, t: Thread)
    requires Proper(t) && t.pc != Done
    ensures ActivationLoopAfter(sh, t) <==>
            || (t.pc == ActOuter && !sh.activated)
            || (sh.activationLoop
                && !(t.kind == Activation && (t.pc == ActLeave || (Quits(sh, t) && !t.pc.ActSignal?))))
  {
  }

  /** In every run of a box that starts out not activated: it is activated if and only if an event
      said so. */
  lemma ActivatedIff(b: seq<State>, es: seq<Event>, lostFound: bool, n: nat)
    requires IsRun(b, es, lostFound) && n <= |es| && !b[0].sh.activated
    ensures b[n].sh.activated <==> Since(b, es, Activations(), Never(), n)
  {
    forall s, e, s' | Next(s, e, s', lostFound)
      ensures Follows(s, e, s', Activated(), Activations(), Never())
    {
      ActivationFollows(s, e, s', lostFound);
    }
    SharedSince(b, es, lostFound, Activated(), Activations(), Never(), n);
  }

  /** In every run requests are being discarded if and only if an activation thread entered its loop and
      none has left it or ended since. */
  lemma LoopingIff(b: seq<State>, es: seq<Event>, lostFound: bool, n: nat)
    requires IsRun(b, es, lostFound) && n <= |es|
    ensures b[n].sh.activationLoop <==> Since(b, es, LoopEntries(), LoopExits(), n)
  {
    RunsAreFramed(b, es, lostFound);
    forall l | 0 <= l < n
      ensures Follows(b[l], es[l], b[l + 1], Looping(), LoopEntries(), LoopExits())
    {
      AlwaysProper(b, es, l);
      LoopFollows(b[l], es[l], b[l + 1], lostFound);
    }
    HoldsSince(b, es, Looping(), LoopEntries(), LoopExits(), n);
  }

  // ---------- the lost-and-found status ----------

  /** A step that finds private Wi-Fi connected. */
  predicate FindsPrivate(sh: Shared, t: Thread) {
    (t.pc == TestPrivate || t.pc == ActTestConnected || t.pc == ActSettle) && SeesPrivate(sh.wifi)
  }

  /** A step that gives up because of the stop flag and says so in the status. */
  predicate GivesUp(sh: Shared, t: Thread) {
    sh.wifi.stop
    && (t.pc == TestStop || t.pc == ActTestStop || (t.pc.AfterAttempt? && !t.pc.ok && t.kind == Requested))
  }

  /** A step that finds its attempt to connect to a lost-and-found network successful. */
  predicate FindsLnf(t: Thread) {
    t.pc.AfterAttempt? && t.pc.ok && (t.kind == Activation || t.req == ToLnfSsid)
  }

  /** A step that marks lost-and-found as in progress, whatever the status was. */
  predicate Begins(sh: Shared, t: Thread) {
    t.pc == ActStart || (t.pc == ChooseRequest && !sh.autoSwitch && !sh.switchNow)
  }

  /** The status after a thread's step, each value by its cause. */
  lemma ThreadLnfStep(sh: Shared, t: Thread)
    ensures var was, lnf := sh.wifi.lnf, LnfAfter(sh.wifi, sh, t);
            && (lnf == ConnectedPrivate <==>
                  FindsPrivate(sh, t)
                  || (was == ConnectedPrivate && t.pc != EnterRound
                      && !GivesUp(sh, t) && !FindsLnf(t) && !Begins(sh, t)))
            && (lnf == ConnectedLnf <==>
                  FindsLnf(t) || (was == ConnectedLnf && !FindsPrivate(sh, t) && !GivesUp(sh, t) && !Begins(sh, t)))
            && (lnf == LnfUninitialized <==>
                  GivesUp(sh, t)
                  || (was == LnfUninitialized && t.pc != EnterRound && t.pc != MarkBusy
                      && !FindsPrivate(sh, t) && !FindsLnf(t) && !Begins(sh, t)))
  {
  }

  /** The status after any other event: callbacks and running attempts alone change it. */
  lemma EventLnfStep(s: State, e: Event, s': State, lostFound: bool)
    requires Next(s, e, s', lostFound)
    ensures var was, lnf := s.sh.wifi.lnf, s'.sh.wifi.lnf;
            match e
            case Advance(i, _) => lnf == LnfAfter(s.sh.wifi, s.sh, s.threads[i])
            case Hal(cb, _) =>
              lnf == if cb.code != HalSuccess || cb.action != OnConnect then was
                     else if cb.lnf then ConnectedLnf else ConnectedPrivate
            case Inside(_, effect) =>
              lnf == if effect == SetBusy then LnfInProgress else if effect == SetPrivate then ConnectedPrivate else was
            case _ => lnf == was
  {
    assert s'.sh.wifi == WifiAfter(s, e, lostFound);
    if e.Hal? {
      LnfAfterCallback(s.sh.wifi, e.cb, lostFound);
    }
  }

  function OnLnf(): State -> bool {
    (s: State) => s.sh.wifi.lnf == ConnectedLnf
  }

  predicate BecomesLnf(s: State, e: Event) {
    match e
    case Hal(cb, _) => cb.code == HalSuccess && cb.action == OnConnect && cb.lnf
    case Advance(i, _) => i < |s.threads| && FindsLnf(s.threads[i])
    case _ => false
  }

  predicate StopsBeingLnf(s: State, e: Event) {
    match e
    case Hal(cb, _) => Joins(cb)
    case Advance(i, _) =>
      i < |s.threads| && (FindsPrivate(s.sh, s.threads[i]) || GivesUp(s.sh, s.threads[i]) || Begins(s.sh, s.threads[i]))
    case Inside(_, effect) => effect == SetBusy || effect == SetPrivate
    case _ => false
  }

  function LnfFound(): (State, Event) -> bool {
    (s: State, e: Event) => BecomesLnf(s, e)
  }

  function LnfLeft(): (State, Event) -> bool {
    (s: State, e: Event) => StopsBeingLnf(s, e)
  }

  lemma OnLnfFollows(s: State, e: Event, s': State, lostFound: bool)
    requires Next(s, e, s', lostFound)
    ensures Follows(s, e, s', OnLnf(), LnfFound(), LnfLeft())
  {
    EventLnfStep(s, e, s', lostFound);
    if e.Advance? {
      ThreadLnfStep(s.sh, s.threads[e.i]);
    }
  }

  /** In every run the status is connected to lost-and-found if and only if a connect, or an attempt
      found successful, made it so and nothing changed it since. */
  lemma OnLnfIff(b: seq<State>, es: seq<Event>, lostFound: bool, n: nat)
    requires IsRun(b, es, lostFound) && n <= |es|
    ensures b[n].sh.wifi.lnf == ConnectedLnf <==> Since(b, es, LnfFound(), LnfLeft(), n)
  {
    forall s, e, s' | Next(s, e, s', lostFound)
      ensures Follows(s, e, s', OnLnf(), LnfFound(), LnfLeft())
    {
      OnLnfFollows(s, e, s', lostFound);
    }
    SharedSince(b, es, lostFound, OnLnf(), LnfFound(), LnfLeft(), n);
  }

  // ---------- connect requests ----------

  predicate AnnouncesConnecting(s: State, e: Event) {
    match e
    case Advance(i, _) => i < |s.threads| && s.threads[i].pc == ManualAnnounce
    case Inside(_, effect) => effect == AnnounceConnecting
    case Outside(effect) => effect == AnnounceConnecting
    case _ => false
  }

  predicate AnnouncesFailure(s: State, e: Event) {
    match e
    case Advance(i, inp) => i < |s.threads| && s.threads[i].pc == ManualResult && !inp.ok
    case Inside(_, effect) => effect == AnnounceFailure
    case Outside(effect) => effect == AnnounceFailure
    case _ => false
  }

  /** Outside callbacks, only connect requests announce anything, and exactly this. */
  lemma RequestAnnouncements(s: State, e: Event, s': State, lostFound: bool)
    requires Next(s, e, s', lostFound) && !e.Hal?
    ensures s'.sh.wifi.broadcasts ==
            if AnnouncesConnecting(s, e) then s.sh.wifi.broadcasts + [StateChanged(Connecting)]
            else if AnnouncesFailure(s, e) then s.sh.wifi.broadcasts + [StateChanged(Failed)]
            else s.sh.wifi.broadcasts
  {
    assert s'.sh.wifi == WifiAfter(s, e, lostFound);
  }

  /** Outside callbacks, the saved network changes only when it is read again. */
  lemma SavedNetwork(s: State, e: Event, s': State, lostFound: bool)
    requires Next(s, e, s', lostFound) && !e.Hal?
    ensures s'.sh.wifi.savedSsid ==
            match e
            case Advance(i, inp) =>
              if s.threads[i].pc == ManualConnect && inp.stored.Some? then inp.stored.value else s.sh.wifi.savedSsid
            case Inside(_, effect) => if effect.ReloadSaved? then effect.ssid else s.sh.wifi.savedSsid
            case Outside(effect) => if effect.ReloadSaved? then effect.ssid else s.sh.wifi.savedSsid
            case _ => s.sh.wifi.savedSsid
  {
    assert s'.sh.wifi == WifiAfter(s, e, lostFound);
  }

  /** A requested thread comes to each of these points exactly from the one before: the loop top
      first drops requests, and a round forgets the loss before it chooses. After an attempt, a manual
      connect sets the status before it announces it. */
  lemma ArrivesIff(sh: Shared, t: Thread, inp: Input)
    requires t.kind == Requested && Proper(t) && t.pc != Asleep
    ensures PcAfter(sh, t, inp) == Suppress <==> t.pc == LockStart
    ensures PcAfter(sh, t, inp) == TestStart <==> t.pc == Suppress || t.pc == Woken
    ensures PcAfter(sh, t, inp) == Asleep <==> t.pc == TestStart && !sh.startLaf
    ensures PcAfter(sh, t, inp) == EnterRound <==> t.pc == UnlockStart
    ensures PcAfter(sh, t, inp) == ForgetLoss <==> t.pc == EnterRound
    ensures PcAfter(sh, t, inp) == ChooseRequest <==> t.pc == ForgetLoss || (t.pc == LoopTest && TriesOn(sh))
    ensures PcAfter(sh, t, inp) == TestStop <==> t.pc == ChooseRequest
  {
  }

  lemma ArrivesAfterAttemptIff(sh: Shared, t: Thread, inp: Input)
    requires t.kind == Requested && Proper(t) && t.pc != Asleep
    ensures PcAfter(sh, t, inp) == MarkBusy <==> t.pc == CheckUnderLock && !PrivateUp(sh.wifi)
    ensures PcAfter(sh, t, inp) == ManualConnect <==> t.pc == AfterAttempt(false) && !sh.wifi.stop
    ensures PcAfter(sh, t, inp) == ManualSet <==> t.pc == ManualConnect && inp.found
    ensures PcAfter(sh, t, inp) == ManualAnnounce <==> t.pc == ManualSet
    ensures PcAfter(sh, t, inp) == ManualResult <==> t.pc == ManualAnnounce
    ensures PcAfter(sh, t, inp) == LoopTest <==> t.pc == ManualResult || (t.pc == ManualConnect && !inp.found)
  {
  }
}
