/**
 Rounds of the lost-and-found threads: when a thread is in one, which tests stand before an
 attempt, and when a failed attempt is tried again. Everything is said by what the thread's own
 steps saw of the shared flags.
 */
module LnfRounds {
  import opened Basics
  import opened WifiStatus
  import opened LnfProtocol
  import opened LnfHistory

  // ---------- rounds of lafConnPrivThread ----------

  /** From taking a request up to the reason that ends the round. */
  predicate InRound(pc: Pc) {
    || pc.UnlockStart? || pc.EnterRound? || pc.ForgetLoss? || pc.ChooseRequest? || pc.TestStop? || pc.TestPrivate?
    || pc.LockTrigger? || pc.CheckUnderLock? || pc.MarkBusy? || pc.StartAttempt? || pc.Attempting?
    || (pc.AttemptUnlock? && !pc.done) || (pc.AfterAttempt? && !pc.ok)
    || pc.ManualConnect? || pc.ManualSet? || pc.ManualAnnounce? || pc.ManualResult? || pc.LoopTest?
  }

  predicate SeesPrivate(w: Wifi) {
    w.adapter == Connected && !w.isLaf
  }

  /** Automatic switching is on and private Wi-Fi is not marked connected. */
  predicate TriesOn(sh: Shared) {
    sh.autoSwitch && sh.wifi.lnf != ConnectedPrivate
  }

  /** The reasons that end a round: the stop flag, private Wi-Fi, success, or nothing to go on for. */
  predicate RoundOver(sh: Shared, t: Thread, inp: Input) {
    match t.pc
    case TestStop => sh.wifi.stop
    case TestPrivate => SeesPrivate(sh.wifi)
    case CheckUnderLock => PrivateUp(sh.wifi)
    case Attempting => inp.ok
    case AfterAttempt(_) => sh.wifi.stop
    case LoopTest => !TriesOn(sh)
    case _ => false
  }

  function Takings(i: nat): (State, Event) -> bool {
    (s: State, e: Event) => Own(s, e, i) && Takes(s, e)
  }

  function Endings(i: nat): (State, Event) -> bool {
    (s: State, e: Event) => Own(s, e, i) && RoundOver(s.sh, s.threads[i], e.inp)
  }

  lemma RoundThread(sh: Shared, t: Thread, inp: Input)
    requires t.kind == Requested && Proper(t)
    ensures InRound(PcAfter(sh, t, inp)) <==>
            (t.pc == TestStart && sh.startLaf) || (InRound(t.pc) && !RoundOver(sh, t, inp))
  {
  }

  /** In every run, a requested thread is in a round if and only if it has taken a request and met no
      reason to end the round since. */
  lemma InRoundIff(b: seq<State>, es: seq<Event>, lostFound: bool, i: nat, n: nat)
    requires IsRun(b, es, lostFound) && n <= |es| && i < |b[0].threads| && b[0].threads[i].kind == Requested
    ensures i < |b[n].threads|
    ensures InRound(b[n].threads[i].pc) <==> Since(b, es, Takings(i), Endings(i), n)
  {
    var up := (s: State) => i < |s.threads| && InRound(s.threads[i].pc);
    forall l | 0 <= l < n
      ensures Follows(b[l], es[l], b[l + 1], up, Takings(i), Endings(i))
    {
      StepMoves(b, es, lostFound, i, l);
      RoundFollows(b[l], es[l], b[l + 1], i, up);
    }
    HoldsSince(b, es, up, Takings(i), Endings(i), n);
    SameThreads(b, es, lostFound, n);
  }

  lemma RoundFollows(s: State, e: Event, s': State, i: nat, up: State -> bool)
    requires i < |s.threads| && Proper(s.threads[i]) && s.threads[i].kind == Requested && Moves(s, e, s', i)
    requires up(s) == InRound(s.threads[i].pc) && up(s') == InRound(s'.threads[i].pc)
    ensures Follows(s, e, s', up, Takings(i), Endings(i))
  {
    if Own(s, e, i) {
      RoundThread(s.sh, s.threads[i], e.inp);
    }
  }

  lemma SameThreads(b: seq<State>, es: seq<Event>, lostFound: bool, n: nat)
    requires IsRun(b, es, lostFound) && n <= |es|
    ensures |b[n].threads| == |b[0].threads|
  {
    RunsAreFramed(b, es, lostFound);
    AlwaysProper(b, es, n);
  }

  // ---------- the tests before an attempt ----------

  /** Stop tests of thread `i` that saw the flag down. */
  function StopTests(i: nat): (State, Event) -> bool {
    (s: State, e: Event) =>
      Own(s, e, i) && (s.threads[i].pc == TestStop || s.threads[i].pc == ActTestStop) && !s.sh.wifi.stop
  }

  /** What thread `i` does with a passed stop test: it gives up on private Wi-Fi, or starts. */
  function Spendings(i: nat): (State, Event) -> bool {
    (s: State, e: Event) => Own(s, e, i) && Spends(s.sh, s.threads[i])
  }

  /** The check of the activation thread does not ask whether the adapter is connected. */
  predicate Declines(sh: Shared, t: Thread) {
    t.pc == CheckUnderLock
    && (if t.kind == Requested then PrivateUp(sh.wifi) else sh.wifi.lnf == ConnectedPrivate)
  }

  predicate Spends(sh: Shared, t: Thread) {
    t.pc == StartAttempt || Declines(sh, t) || (t.pc == TestPrivate && SeesPrivate(sh.wifi))
  }

  lemma StopTestThread(sh: Shared, t: Thread, inp: Input)
    requires Proper(t)
    ensures PastStopTest(PcAfter(sh, t, inp)) <==>
            || ((t.pc == TestStop || t.pc == ActTestStop) && !sh.wifi.stop)
            || (PastStopTest(t.pc) && !Spends(sh, t))
  {
  }

  /** In every run, a thread is on its way to an attempt if and only if it has passed a stop test
      that it has not spent since. */
  lemma OnItsWayIff(b: seq<State>, es: seq<Event>, lostFound: bool, i: nat, n: nat)
    requires IsRun(b, es, lostFound) && n <= |es| && i < |b[0].threads|
    ensures i < |b[n].threads|
    ensures PastStopTest(b[n].threads[i].pc) <==> Since(b, es, StopTests(i), Spendings(i), n)
  {
    var up := (s: State) => i < |s.threads| && PastStopTest(s.threads[i].pc);
    forall l | 0 <= l < n
      ensures Follows(b[l], es[l], b[l + 1], up, StopTests(i), Spendings(i))
    {
      StepMoves(b, es, lostFound, i, l);
      StopTestFollows(b[l], es[l], b[l + 1], i, up);
    }
    HoldsSince(b, es, up, StopTests(i), Spendings(i), n);
    SameThreads(b, es, lostFound, n);
  }

  lemma StopTestFollows(s: State, e: Event, s': State, i: nat, up: State -> bool)
    requires i < |s.threads| && Proper(s.threads[i]) && Moves(s, e, s', i)
    requires up(s) == PastStopTest(s.threads[i].pc) && up(s') == PastStopTest(s'.threads[i].pc)
    ensures Follows(s, e, s', up, StopTests(i), Spendings(i))
  {
    if Own(s, e, i) {
      StopTestThread(s.sh, s.threads[i], e.inp);
    }
  }

  /** The points between a passed test for private Wi-Fi and the attempt. */
  predicate PastPrivateTest(pc: Pc) {
    pc == LockTrigger || pc == CheckUnderLock || pc == MarkBusy || pc == StartAttempt
  }

  /** Tests of requested thread `i` that did not see private Wi-Fi. */
  function PrivateTests(i: nat): (State, Event) -> bool {
    (s: State, e: Event) => Own(s, e, i) && s.threads[i].pc == TestPrivate && !SeesPrivate(s.sh.wifi)
  }

  lemma PrivateTestThread(sh: Shared, t: Thread, inp: Input)
    requires Proper(t) && t.kind == Requested
    ensures PastPrivateTest(PcAfter(sh, t, inp)) <==>
            (t.pc == TestPrivate && !SeesPrivate(sh.wifi)) || (PastPrivateTest(t.pc) && !Spends(sh, t))
  {
  }

  /** In every run, a requested thread is at the trigger lock or behind it if and only if it has found
      no private Wi-Fi and not spent that since. */
  lemma AtTheLockIff(b: seq<State>, es: seq<Event>, lostFound: bool, i: nat, n: nat)
    requires IsRun(b, es, lostFound) && n <= |es| && i < |b[0].threads| && b[0].threads[i].kind == Requested
    ensures i < |b[n].threads|
    ensures PastPrivateTest(b[n].threads[i].pc) <==> Since(b, es, PrivateTests(i), Spendings(i), n)
  {
    var up := (s: State) => i < |s.threads| && PastPrivateTest(s.threads[i].pc);
    forall l | 0 <= l < n
      ensures Follows(b[l], es[l], b[l + 1], up, PrivateTests(i), Spendings(i))
    {
      StepMoves(b, es, lostFound, i, l);
      PrivateTestFollows(b[l], es[l], b[l + 1], i, up);
    }
    HoldsSince(b, es, up, PrivateTests(i), Spendings(i), n);
    SameThreads(b, es, lostFound, n);
  }

  lemma PrivateTestFollows(s: State, e: Event, s': State, i: nat, up: State -> bool)
    requires i < |s.threads| && Proper(s.threads[i]) && s.threads[i].kind == Requested && Moves(s, e, s', i)
    requires up(s) == PastPrivateTest(s.threads[i].pc) && up(s') == PastPrivateTest(s'.threads[i].pc)
    ensures Follows(s, e, s', up, PrivateTests(i), Spendings(i))
  {
    if Own(s, e, i) {
      PrivateTestThread(s.sh, s.threads[i], e.inp);
    }
  }

  // ---------- failed attempts are tried again ----------

  /** From an attempt on, as long as no request is taken and no round goes on. */
  predicate Resting(pc: Pc) {
    || pc.Attempting? || pc.AttemptUnlock? || pc.AfterAttempt? || pc.AbortUnlock?
    || pc.ManualConnect? || pc.ManualSet? || pc.ManualAnnounce? || pc.ManualResult? || pc.LoopTest?
    || pc.LockStart? || pc.Suppress? || pc.TestStart? || pc.Asleep? || pc.Woken?
  }

  predicate LoopTests(pc: Pc) {
    pc == LoopTest
  }

  lemma RestingThread(sh: Shared, t: Thread, inp: Input)
    requires t.kind == Requested && Resting(t.pc)
    requires !(t.pc == TestStart && sh.startLaf) && !(t.pc == LoopTest && TriesOn(sh))
    ensures Resting(PcAfter(sh, t, inp))
  {
  }

  /** Step `l` is the end of a failed turn of thread `i` that sees a reason to try on. */
  ghost predicate TriesOnAt(b: seq<State>, es: seq<Event>, i: nat, l: nat)
    requires l < |es| < |b|
  {
    StepFrom(b[l], es[l], i, LoopTests) && TriesOn(b[l].sh)
  }

  lemma RestsAfterStart(b: seq<State>, es: seq<Event>, lostFound: bool, i: nat, k: nat, n: nat)
    requires IsRun(b, es, lostFound) && k < n <= |es| && i < |b[0].threads| && b[0].threads[i].kind == Requested
    requires StepFrom(b[k], es[k], i, Starts)
    requires forall l :: k < l < n ==> !At(b, es, Takings(i), l) && !TriesOnAt(b, es, i, l)
    ensures i < |b[n].threads| && Resting(b[n].threads[i].pc)
  {
    var p := (s: State) => i < |s.threads| && Resting(s.threads[i].pc);
    StepMoves(b, es, lostFound, i, k);
    forall l | k + 1 <= l < n
      ensures p(b[l]) ==> p(b[l + 1])
    {
      StepMoves(b, es, lostFound, i, l);
      assert !At(b, es, Takings(i), l) && !TriesOnAt(b, es, i, l);
      if p(b[l]) {
        RestingMove(b[l], es[l], b[l + 1], i);
      }
    }
    Stays(b, p, k + 1, n);
  }

  lemma RestingMove(s: State, e: Event, s': State, i: nat)
    requires i < |s.threads| && s.threads[i].kind == Requested && Moves(s, e, s', i) && Resting(s.threads[i].pc)
    requires !(Own(s, e, i) && Takes(s, e)) && !(StepFrom(s, e, i, LoopTests) && TriesOn(s.sh))
    ensures Resting(s'.threads[i].pc)
  {
    if Own(s, e, i) {
      RestingThread(s.sh, s.threads[i], e.inp);
    }
  }

  /** In every run, a requested thread that starts a second attempt without taking another request
      has come to the end of a failed turn in between, and seen there that automatic switching is on
      and private Wi-Fi not marked connected. */
  lemma RetriesSawAutoSwitch(b: seq<State>, es: seq<Event>, lostFound: bool, i: nat, k: nat, n: nat) returns (l: nat)
    requires IsRun(b, es, lostFound) && k < n < |es| && i < |b[0].threads| && b[0].threads[i].kind == Requested
    requires StepFrom(b[k], es[k], i, Starts) && StepFrom(b[n], es[n], i, Starts)
    requires forall m :: k < m < n ==> !At(b, es, Takings(i), m)
    ensures k < l < n && StepFrom(b[l], es[l], i, LoopTests)
    ensures b[l].sh.autoSwitch && b[l].sh.wifi.lnf != ConnectedPrivate
  {
    if forall m :: k < m < n ==> !TriesOnAt(b, es, i, m) {
      RestsAfterStart(b, es, lostFound, i, k, n);
    }
    l :| k < l < n && TriesOnAt(b, es, i, l);
  }

  /** Between a failed attempt and the next stop test. */
  predicate Returning(pc: Pc) {
    || (pc.AttemptUnlock? && !pc.done) || (pc.AfterAttempt? && !pc.ok)
    || pc.ManualConnect? || pc.ManualSet? || pc.ManualAnnounce? || pc.ManualResult? || pc.LoopTest?
    || pc.ChooseRequest? || pc.TestStop?
  }

  /** What makes thread `t` leave the way back: the stop flag, no reason to try on, or its arrival. */
  predicate LeavesWayBack(sh: Shared, t: Thread) {
    match t.pc
    case AfterAttempt(_) => sh.wifi.stop
    case LoopTest => !TriesOn(sh)
    case TestStop => true
    case _ => false
  }

  lemma ReturningThread(sh: Shared, t: Thread, inp: Input)
    requires t.kind == Requested && Returning(t.pc) && !LeavesWayBack(sh, t)
    ensures Returning(PcAfter(sh, t, inp))
  {
  }

  predicate Attempts(pc: Pc) {
    pc == Attempting
  }

  /** In every run, a requested thread whose attempt has failed goes on to the next stop test, without
      taking a request and without waiting for one, as long as it does not see the stop flag up after
      the attempt and does see a reason to try on at the end of the turn. */
  lemma FailedAttemptsAreRetried(b: seq<State>, es: seq<Event>, lostFound: bool, i: nat, k: nat, n: nat)
    requires IsRun(b, es, lostFound) && k < n <= |es| && i < |b[0].threads| && b[0].threads[i].kind == Requested
    requires StepFrom(b[k], es[k], i, Attempts) && !es[k].inp.ok
    requires forall l :: k < l < n && Own(b[l], es[l], i) ==> !LeavesWayBack(b[l].sh, b[l].threads[i])
    ensures i < |b[n].threads| && Returning(b[n].threads[i].pc)
  {
    var p := (s: State) => i < |s.threads| && Returning(s.threads[i].pc);
    StepMoves(b, es, lostFound, i, k);
    forall l | k + 1 <= l < n
      ensures p(b[l]) ==> p(b[l + 1])
    {
      StepMoves(b, es, lostFound, i, l);
      if p(b[l]) {
        ReturningMove(b[l], es[l], b[l + 1], i);
      }
    }
    Stays(b, p, k + 1, n);
  }

  lemma ReturningMove(s: State, e: Event, s': State, i: nat)
    requires i < |s.threads| && s.threads[i].kind == Requested && Moves(s, e, s', i) && Returning(s.threads[i].pc)
    requires Own(s, e, i) ==> !LeavesWayBack(s.sh, s.threads[i])
    ensures Returning(s'.threads[i].pc)
  {
    if Own(s, e, i) {
      ReturningThread(s.sh, s.threads[i], e.inp);
    }
  }

  // ---------- the loop of lafConnThread ----------

  /** One turn of the activation loop. */
  predicate InTurn(pc: Pc) {
    || pc.ActInner? || pc.ActTestConnected? || pc.ActTestStop? || pc.LockTrigger? || pc.CheckUnderLock?
    || pc.StartAttempt? || pc.Attempting? || pc.AbortUnlock? || pc.AttemptUnlock? || pc.AfterAttempt?
    || pc.ActSettle? || pc.ActTestStopAgain?
  }

  /** Thread `i` found the device not activated. */
  function TurnStarts(i: nat): (State, Event) -> bool {
    (s: State, e: Event) => Own(s, e, i) && s.threads[i].pc == ActOuter && !s.sh.activated
  }

  /** The reasons that end a turn: the stop flag, private Wi-Fi, or its end. */
  predicate TurnOver(sh: Shared, t: Thread) {
    match t.pc
    case ActTestConnected => SeesPrivate(sh.wifi)
    case ActTestStop => sh.wifi.stop
    case AfterAttempt(ok) => !ok && sh.wifi.stop
    case ActTestStopAgain => true
    case _ => false
  }

  function TurnEnds(i: nat): (State, Event) -> bool {
    (s: State, e: Event) => Own(s, e, i) && TurnOver(s.sh, s.threads[i])
  }

  lemma TurnThread(sh: Shared, t: Thread, inp: Input)
    requires t.kind == Activation && Proper(t)
    ensures InTurn(PcAfter(sh, t, inp)) <==>
            (t.pc == ActOuter && !sh.activated) || (InTurn(t.pc) && !TurnOver(sh, t))
  {
  }

  /** In every run, an activation thread is in a turn if and only if it found the device not activated
      and met no reason to end the turn since. */
  lemma InTurnIff(b: seq<State>, es: seq<Event>, lostFound: bool, i: nat, n: nat)
    requires IsRun(b, es, lostFound) && n <= |es| && i < |b[0].threads| && b[0].threads[i].kind == Activation
    ensures i < |b[n].threads|
    ensures InTurn(b[n].threads[i].pc) <==> Since(b, es, TurnStarts(i), TurnEnds(i), n)
  {
    var up := (s: State) => i < |s.threads| && InTurn(s.threads[i].pc);
    forall l | 0 <= l < n
      ensures Follows(b[l], es[l], b[l + 1], up, TurnStarts(i), TurnEnds(i))
    {
      StepMoves(b, es, lostFound, i, l);
      TurnFollows(b[l], es[l], b[l + 1], i, up);
    }
    HoldsSince(b, es, up, TurnStarts(i), TurnEnds(i), n);
    SameThreads(b, es, lostFound, n);
  }

  lemma TurnFollows(s: State, e: Event, s': State, i: nat, up: State -> bool)
    requires i < |s.threads| && Proper(s.threads[i]) && s.threads[i].kind == Activation && Moves(s, e, s', i)
    requires up(s) == InTurn(s.threads[i].pc) && up(s') == InTurn(s'.threads[i].pc)
    ensures Follows(s, e, s', up, TurnStarts(i), TurnEnds(i))
  {
    if Own(s, e, i) {
      TurnThread(s.sh, s.threads[i], e.inp);
    }
  }

  /** The reasons for which an activation thread ends: the stop flag, private Wi-Fi, or having left
      the loop with the device activated. */
  predicate Quits(sh: Shared, t: Thread) {
    match t.pc
    case ActTestConnected => SeesPrivate(sh.wifi)
    case ActTestStop => sh.wifi.stop
    case AfterAttempt(ok) => !ok && sh.wifi.stop
    case ActTestStopAgain => sh.wifi.stop
    case ActLeave => sh.wifi.lnf != ConnectedLnf
    case ActSignal => true
    case Done => true
    case _ => false
  }

  /** An activation thread ends at exactly these steps, and asks for private credentials after the
      loop exactly if it is connected to a lost-and-found network then. */
  lemma ActivationEndsIff(sh: Shared, t: Thread, inp: Input)
    requires t.kind == Activation && Proper(t)
    ensures PcAfter(sh, t, inp) == Done <==> Quits(sh, t)
    ensures PcAfter(sh, t, inp) == ActSignal <==> t.pc == ActLeave && sh.wifi.lnf == ConnectedLnf
    ensures PcAfter(sh, t, inp) == ActLeave <==> t.pc == ActOuter && sh.activated
  {
  }

  /** Inside a turn, an activation thread that is not connected heads for an attempt, and one that is
      connected or done settles. */
  lemma TurnsAttempt(sh: Shared, t: Thread, inp: Input)
    requires t.kind == Activation && Proper(t)
    ensures PcAfter(sh, t, inp) == ActTestStop <==> t.pc == ActTestConnected && sh.wifi.adapter != Connected
    ensures PcAfter(sh, t, inp) == ActTestConnected <==> t.pc == ActInner && sh.wifi.lnf != ConnectedLnf
    ensures PcAfter(sh, t, inp) == ActSettle <==>
            || (t.pc == ActInner && sh.wifi.lnf == ConnectedLnf)
            || (t.pc == ActTestConnected && sh.wifi.adapter == Connected && sh.wifi.isLaf)
            || t.pc == AbortUnlock || (t.pc.AfterAttempt? && t.pc.ok)
    ensures PcAfter(sh, t, inp) == ActInner <==>
            (t.pc == ActOuter && !sh.activated) || (t.pc.AfterAttempt? && !t.pc.ok && !sh.wifi.stop)
  {
  }
}
