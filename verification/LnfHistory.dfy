/**
 Conditions that steps raise and lower. A condition of the protocol is said exactly by the steps
 since which it holds, over every interleaved run.
 */
module LnfHistory {
  import opened Basics
  import opened WifiStatus
  import opened LnfProtocol

  /** Step `l` of the run satisfies `f`. */
  ghost predicate At(b: seq<State>, es: seq<Event>, f: (State, Event) -> bool, l: nat) {
    l < |es| && l < |b| && f(b[l], es[l])
  }

  /** Before point `n`, some step satisfied `raises`, and none after it satisfied `lowers`. */
  ghost predicate Since(b: seq<State>, es: seq<Event>,
                        raises: (State, Event) -> bool, lowers: (State, Event) -> bool, n: nat)
  {
    exists j :: 0 <= j < n && At(b, es, raises, j) && forall l :: j < l < n ==> !At(b, es, lowers, l)
  }

  /** One step raises `up`, or keeps it by not lowering it. */
  ghost predicate Follows(s: State, e: Event, s': State, up: State -> bool,
                          raises: (State, Event) -> bool, lowers: (State, Event) -> bool)
  {
    up(s') <==> raises(s, e) || (up(s) && !lowers(s, e))
  }

  /** A condition that is false at first and follows every step holds exactly since it was raised. */
  lemma {:induction false} HoldsSince(b: seq<State>, es: seq<Event>, up: State -> bool,
                                      raises: (State, Event) -> bool, lowers: (State, Event) -> bool, n: nat)
    requires n <= |es| < |b| && !up(b[0])
    requires forall l :: 0 <= l < n ==> Follows(b[l], es[l], b[l + 1], up, raises, lowers)
    ensures up(b[n]) <==> Since(b, es, raises, lowers, n)
  {
    if n > 0 {
      HoldsSince(b, es, up, raises, lowers, n - 1);
      assert Follows(b[n - 1], es[n - 1], b[n - 1 + 1], up, raises, lowers);
      SinceStep(b, es, raises, lowers, n);
    }
  }

  lemma SinceStep(b: seq<State>, es: seq<Event>, raises: (State, Event) -> bool, lowers: (State, Event) -> bool, n: nat)
    requires 0 < n <= |es| < |b|
    ensures Since(b, es, raises, lowers, n) <==>
            At(b, es, raises, n - 1) || (Since(b, es, raises, lowers, n - 1) && !At(b, es, lowers, n - 1))
  {
    if j :| 0 <= j < n - 1 && At(b, es, raises, j) && forall l :: j < l < n - 1 ==> !At(b, es, lowers, l) {
      if !At(b, es, lowers, n - 1) {
        assert forall l :: j < l < n ==> !At(b, es, lowers, l);
      }
    }
  }

  /** A condition that every step from `m` on keeps. */
  lemma {:induction false} Stays(b: seq<State>, p: State -> bool, m: nat, n: nat)
    requires m <= n < |b| && p(b[m]) && forall l :: m <= l < n ==> p(b[l]) ==> p(b[l + 1])
    ensures p(b[n])
  {
    if m < n {
      Stays(b, p, m, n - 1);
      assert p(b[n - 1]) ==> p(b[n - 1 + 1]);
    }
  }

  // ---------- threads keep to their own loop ----------

  /** The points only lafConnThread reaches. */
  predicate ActivationOnly(pc: Pc) {
    || pc.ActStart? || pc.ActOuter? || pc.ActInner? || pc.ActTestConnected? || pc.ActTestStop?
    || pc.ActSettle? || pc.ActTestStopAgain? || pc.ActLeave? || pc.ActSignal? || pc.Done?
  }

  predicate Proper(t: Thread) {
    if t.kind == Requested then !ActivationOnly(t.pc) else !RequestedOnly(t.pc)
  }

  predicate AllProper(s: State) {
    forall i :: 0 <= i < |s.threads| ==> Proper(s.threads[i])
  }

  lemma ProperStep(sh: Shared, t: Thread, inp: Input)
    requires Proper(t)
    ensures Proper(ThreadAfter(sh, t, inp))
  {
  }

  lemma ProperKept(s: State, e: Event, s': State)
    requires Framed(s, e, s') && AllProper(s)
    ensures AllProper(s')
  {
    forall i | 0 <= i < |s'.threads|
      ensures Proper(s'.threads[i])
    {
      assert MovesTo(s, e, i, s'.threads[i]);
      if e.Advance? && e.i == i {
        ProperStep(s.sh, s.threads[i], e.inp);
      }
    }
  }

  lemma {:induction false} AlwaysProper(b: seq<State>, es: seq<Event>, k: nat)
    requires FramedRun(b, es) && k <= |es|
    ensures AllProper(b[k]) && |b[k].threads| == |b[0].threads|
  {
    if k > 0 {
      AlwaysProper(b, es, k - 1);
      ProperKept(b[k - 1], es[k - 1], b[k]);
    }
  }

  /** Event `e` is a step of thread `i`. */
  predicate Own(s: State, e: Event, i: nat) {
    e.Advance? && e.i == i && i < |s.threads|
  }

  /** What a step does to thread `i`: its own moves it, and another can only wake it. */
  predicate Moves(s: State, e: Event, s': State, i: nat)
    requires i < |s.threads|
  {
    && i < |s'.threads|
    && if Own(s, e, i) then s'.threads[i] == ThreadAfter(s.sh, s.threads[i], e.inp)
       else s'.threads[i] == s.threads[i] || (s.threads[i].pc == Asleep && s'.threads[i] == s.threads[i].(pc := Woken))
  }

  lemma StepMoves(b: seq<State>, es: seq<Event>, lostFound: bool, i: nat, k: nat)
    requires IsRun(b, es, lostFound) && k < |es| && i < |b[0].threads|
    ensures |b[k].threads| == |b[0].threads| && Proper(b[k].threads[i]) && Moves(b[k], es[k], b[k + 1], i)
    ensures b[k].threads[i].kind == b[0].threads[i].kind
  {
    RunsAreFramed(b, es, lostFound);
    AlwaysProper(b, es, k);
    KindStays(b, es, i, k);
    assert MovesTo(b[k], es[k], i, b[k + 1].threads[i]);
  }

  lemma {:induction false} KindStays(b: seq<State>, es: seq<Event>, i: nat, k: nat)
    requires FramedRun(b, es) && k <= |es| && i < |b[0].threads|
    ensures |b[k].threads| == |b[0].threads| && b[k].threads[i].kind == b[0].threads[i].kind
  {
    if k > 0 {
      KindStays(b, es, i, k - 1);
      assert MovesTo(b[k - 1], es[k - 1], i, b[k].threads[i]);
    }
  }
}
