/**
 How the route thread learns of new discovery data: the bus handler publishes a length under
 mutexRoute and signals condRoute; the thread waits for the flag, takes the length and
 works on it outside the lock. A step is one statement of the thread or one whole bus event.
 */
module RouteSignal {

  datatype Pc = Lock | Test | Asleep | Woken | Unlock | Work

  datatype State = State(
    ready: bool,      // signalUpnpDataReady
    length: int,      // messageLength
    locked: bool,     // the thread holds mutexRoute
    pc: Pc,
    taken: int)       // the thread's own msgLength

  /** A published length is stored, and the thread woken, only if signalling succeeds. */
  datatype Event = Publish(length: int, signalled: bool) | Advance | SpuriousWake

  predicate Init(s: State) {
    s.ready && s.length == 0 && !s.locked && s.pc == Lock
  }

  predicate Takes(s: State, e: Event) {
    e == Advance && s.pc == Test && s.ready
  }

  predicate Enabled(s: State, e: Event) {
    match e
    case Publish(_, _) => !s.locked
    case Advance => s.pc != Asleep
    case SpuriousWake => s.pc == Asleep
  }

  function Step(s: State, e: Event): State {
    match e
    case Publish(n, signalled) =>
      if signalled then s.(ready := true, length := n, pc := if s.pc == Asleep then Woken else s.pc)
      else s.(ready := true)
    case SpuriousWake => s.(pc := Woken)
    case Advance =>
      match s.pc
      case Lock => s.(locked := true, pc := Test)
      case Woken => s.(locked := true, pc := Test)
      case Test =>
        if s.ready then s.(ready := false, taken := s.length, pc := Unlock)
        else s.(locked := false, pc := Asleep)
      case Unlock => s.(locked := false, pc := Work)
      case Work => s.(pc := Lock)
      case Asleep => s
  }

  ghost predicate IsRun(b: seq<State>, es: seq<Event>) {
    && |b| == |es| + 1
    && Init(b[0])
    && forall k :: 0 <= k < |es| ==> Enabled(b[k], es[k]) && b[k + 1] == Step(b[k], es[k])
  }

  function LastPublished(es: seq<Event>): int {
    if es == [] then 0
    else
      var last := es[|es| - 1];
      if last.Publish? && last.signalled then last.length else LastPublished(es[..|es| - 1])
  }

  function Events(es: seq<Event>, k: nat): nat
    requires k <= |es|
  {
    if k == 0 then 0 else Events(es, k - 1) + if es[k - 1].Publish? then 1 else 0
  }

  ghost function Takings(b: seq<State>, es: seq<Event>, k: nat): nat
    requires k <= |es| <= |b|
  {
    if k == 0 then 0 else Takings(b, es, k - 1) + if Takes(b[k - 1], es[k - 1]) then 1 else 0
  }

  /** Signalling failed while the thread slept, and it sleeps on. */
  ghost predicate Unheard(b: seq<State>, es: seq<Event>, k: nat)
    requires k <= |es| < |b|
  {
    exists m :: 0 <= m < k && FailedPublish(es[m]) && forall j :: m <= j <= k ==> b[j].pc == Asleep
  }

  predicate FailedPublish(e: Event) {
    e.Publish? && !e.signalled
  }

  /** In every run: nothing pending means the thread holds the last length published; a sleeping
      thread has something pending exactly if signalling failed while it slept; and takings never
      outnumber the events by more than the one for the flag that starts out set. */
  lemma {:induction false} NothingIsMissed(b: seq<State>, es: seq<Event>, k: nat)
    requires IsRun(b, es) && k <= |es|
    ensures b[k].length == LastPublished(es[..k])
    ensures !b[k].ready ==> b[k].taken == LastPublished(es[..k])
    ensures b[k].pc == Asleep ==> (b[k].ready <==> Unheard(b, es, k))
    ensures b[k].locked <==> b[k].pc == Test || b[k].pc == Unlock
    ensures Takings(b, es, k) + (if b[k].ready then 1 else 0) <= Events(es, k) + 1
  {
    if k > 0 {
      NothingIsMissed(b, es, k - 1);
      assert es[..k][..k - 1] == es[..k - 1];
      assert Enabled(b[k - 1], es[k - 1]) && b[k] == Step(b[k - 1], es[k - 1]);
      if FailedPublish(es[k - 1]) && b[k].pc == Asleep {
        assert forall j :: k - 1 <= j <= k ==> b[j].pc == Asleep;
      }
    }
  }

  /** While signalling succeeds, a sleeping thread has nothing pending. */
  lemma SleepersMissNothing(b: seq<State>, es: seq<Event>, k: nat)
    requires IsRun(b, es) && k <= |es| && forall m :: 0 <= m < k ==> !FailedPublish(es[m])
    ensures b[k].pc == Asleep ==> !b[k].ready
  {
    NothingIsMissed(b, es, k);
  }

  /** Every taking gets the most recently published length. */
  lemma TakingsAreCurrent(b: seq<State>, es: seq<Event>, k: nat)
    requires IsRun(b, es) && k < |es| && Takes(b[k], es[k])
    ensures b[k + 1].taken == LastPublished(es[..k])
  {
    NothingIsMissed(b, es, k);
  }

  /** Every event is still pending, or was followed by a taking. */
  lemma {:induction false} PublishedIsTaken(b: seq<State>, es: seq<Event>, k: nat, n: nat)
    requires IsRun(b, es) && k < n <= |es| && es[k].Publish?
    ensures b[n].ready || exists m :: k < m < n && Takes(b[m], es[m])
  {
    assert b[n] == Step(b[n - 1], es[n - 1]);
    if k < n - 1 {
      PublishedIsTaken(b, es, k, n - 1);
    }
  }
}
