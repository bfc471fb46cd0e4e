/**
 The STUN client: the retry loop of bind with its time budget and growing sleeps, and the
 cache that answers a repeated call.
 */
module StunClient {
  import opened Basics
  import opened StunCodec

  type Ip = s: string | s != "" witness "0"

  datatype Protocol = Inet | Inet6

  datatype Params = Params(
    hostname: string,
    port: U16,
    iface: string,
    proto: Protocol,
    bindTimeout: U16,
    cacheTimeout: U16)

  /** How one binding request ends. */
  datatype Attempt =
    | SendFails                    // resolving, the socket or the send throws
    | Silent                       // no response before the wait ends
    | NoAddress                    // a response without MAPPED-ADDRESS
    | BadFamily                    // a MAPPED-ADDRESS that throws
    | Answer(ip: Ip, at: nat)      // a public address, cached at this time

  const WAIT_INTERVAL := 2000  // STUN_DEFAULT_WAIT_INTERVAL
  const MAX_ATTEMPTS := 30     // STUN_DEFAULT_MAX_ATTEMPTS
  const MAX_SLEEP := 32

  // ---------- from received bytes to the end of an attempt ----------

  /** The first MAPPED-ADDRESS of a response, if there is one, is large enough for its family. */
  predicate Readable(response: Option<seq<Byte>>) {
    response.Some? ==>
      && Decodable(response.value)
      && (U16At(response.value, 0) == BINDING_RESPONSE ==>
            var o := FirstOnWire(response.value, HEADER_SIZE, MAPPED_ADDRESS);
            o.Some? ==> HoldsAddress(WireValue(response.value, o.value)))
  }

  /** How an attempt ends whose request was sent, from the bytes that came back, if any. `show`
      is the text of an address; a message of another type counts as no response. */
  method ReadResponse(response: Option<seq<Byte>>, show: seq<Byte> -> Ip, at: nat) returns (a: Attempt)
    requires Readable(response)
    ensures if response.None? || U16At(response.value, 0) != BINDING_RESPONSE then a == Silent
            else
              var o := FirstOnWire(response.value, HEADER_SIZE, MAPPED_ADDRESS);
              if o.None? then a == NoAddress
              else
                var ip := AddressBytes(WireValue(response.value, o.value));
                a == if ip.None? then BadFamily else Answer(show(ip.value), at)
  {
    if response.None? {
      return Silent;
    }
    var m := DecodeMessage(response.value);
    if m.None? {
      return Silent;
    }
    FoundIsFirstOnWire(response.value, HEADER_SIZE, MAPPED_ADDRESS);
    var found := FindAttribute(m.value, MAPPED_ADDRESS);
    if found.None? {
      return NoAddress;
    }
    var ip := AddressOf(found.value.value);
    a := if ip.None? then BadFamily else Answer(show(ip.value), at);
  }

  // ---------- the budget ----------

  /** The sleep after attempt `i`, counted from 0, when it is not cut short. */
  function SleepAfter(i: nat): nat {
    if i == 0 then 0
    else if i == 1 then 1
    else if i == 2 then 2
    else if i == 3 then 4
    else if i == 4 then 8
    else if i == 5 then 16
    else MAX_SLEEP
  }

  /** The time charged before attempt `i`: a fixed amount per attempt, plus the sleeps. */
  function Spent(i: nat): nat {
    if i == 0 then 0 else Spent(i - 1) + WAIT_INTERVAL + SleepAfter(i - 1)
  }

  /** The response to attempt `i` is looked at: the budget is not exceeded right after it. */
  predicate Kept(timeout: U16, i: nat) {
    i == 0 || Spent(i) + WAIT_INTERVAL <= timeout
  }

  lemma {:induction false} SpentAtLeast(i: nat)
    ensures Spent(i) >= WAIT_INTERVAL * i
  {
    if i > 0 {
      SpentAtLeast(i - 1);
    }
  }

  lemma {:induction false} SpentGrows(i: nat, j: nat)
    requires i <= j
    ensures Spent(i) <= Spent(j)
  {
    if i < j {
      SpentGrows(i, j - 1);
    }
  }

  // ---------- which attempts are made ----------

  predicate Throws(a: Attempt) {
    a.SendFails? || a.BadFamily?
  }

  /** Attempt `k` fits the budget and does not throw. */
  predicate Goes(attempts: nat -> Attempt, timeout: U16, k: nat) {
    Spent(k) < timeout && !Throws(attempts(k))
  }

  /** Exactly the attempts before `n` end normally. */
  predicate EndsAt(attempts: nat -> Attempt, timeout: U16, n: nat) {
    && n <= MAX_ATTEMPTS
    && (forall k :: 0 <= k < n ==> Goes(attempts, timeout, k))
    && (n == MAX_ATTEMPTS || !Goes(attempts, timeout, n))
  }

  lemma {:induction false} SomewhereItEnds(attempts: nat -> Attempt, timeout: U16, i: nat)
    requires i <= MAX_ATTEMPTS && forall k :: 0 <= k < i ==> Goes(attempts, timeout, k)
    ensures exists n :: EndsAt(attempts, timeout, n)
    decreases MAX_ATTEMPTS - i
  {
    if i == MAX_ATTEMPTS || !Goes(attempts, timeout, i) {
      assert EndsAt(attempts, timeout, i);
    } else {
      SomewhereItEnds(attempts, timeout, i + 1);
    }
  }

  ghost function Completed(attempts: nat -> Attempt, timeout: U16): (n: nat)
    ensures EndsAt(attempts, timeout, n)
  {
    SomewhereItEnds(attempts, timeout, 0);
    var n :| EndsAt(attempts, timeout, n);
    n
  }

  lemma EndIsUnique(attempts: nat -> Attempt, timeout: U16, m: nat, n: nat)
    requires EndsAt(attempts, timeout, m) && EndsAt(attempts, timeout, n)
    ensures m == n
  {
    assert m < n ==> Goes(attempts, timeout, m);
    assert n < m ==> Goes(attempts, timeout, n);
  }

  /** How often the loop body is entered: the completed attempts and the one that throws. */
  ghost function Entered(attempts: nat -> Attempt, timeout: U16): nat {
    var n := Completed(attempts, timeout);
    if n < MAX_ATTEMPTS && Spent(n) < timeout then n + 1 else n
  }

  /** For every timeout the loop makes at most 30 attempts and at most one per started 2000, and
      a timeout from 1 to 2000, such as the default of 30, always means exactly one. A longer
      timeout means more, unless the first attempt throws. */
  lemma AttemptsAreBounded(attempts: nat -> Attempt, timeout: U16)
    ensures var n := Entered(attempts, timeout);
            && n <= 30 && n <= (timeout + 1999) / 2000
            && (n == 0 <==> timeout == 0)
            && (n == 1 <==> 1 <= timeout && (timeout <= 2000 || Throws(attempts(0))))
  {
    var n := Entered(attempts, timeout);
    if n > 0 {
      assert n - 1 < Completed(attempts, timeout) ==> Goes(attempts, timeout, n - 1);
      SpentAtLeast(n - 1);
    }
    if n > 1 {
      assert Goes(attempts, timeout, 0);
    }
    assert Spent(0) == 0;
    assert Spent(1) == WAIT_INTERVAL;
  }

  lemma {:induction false} SpentAtMost(i: nat)
    ensures Spent(i) <= 2032 * i
  {
    if i > 0 {
      SpentAtMost(i - 1);
    }
  }

  /** If no attempt throws, attempt `i` is made exactly if it is one of the first 30 and the budget is
      not used up before it. */
  lemma AttemptMadeIff(attempts: nat -> Attempt, timeout: U16, i: nat)
    requires forall k :: !Throws(attempts(k))
    ensures i < Entered(attempts, timeout) <==> i < 30 && Spent(i) < timeout
  {
    var n := Completed(attempts, timeout);
    if i < n {
      assert Goes(attempts, timeout, i);
    } else if n < MAX_ATTEMPTS {
      SpentGrows(n, i);
    }
  }

  /** So a timeout from 58929 on means exactly 30 attempts. */
  lemma LongTimeouts(attempts: nat -> Attempt, timeout: U16)
    requires timeout >= 58929 && forall k :: !Throws(attempts(k))
    ensures Entered(attempts, timeout) == 30
  {
    SpentAtMost(29);
    AttemptMadeIff(attempts, timeout, 29);
    AttemptMadeIff(attempts, timeout, 30);
  }

  /** Only the last of the completed attempts can overrun the budget. */
  lemma OnlyTheLastOverruns(attempts: nat -> Attempt, timeout: U16, i: nat)
    requires i < Completed(attempts, timeout)
    ensures !Kept(timeout, i) ==> i + 1 == Completed(attempts, timeout)
  {
    if i + 1 < Completed(attempts, timeout) {
      assert Goes(attempts, timeout, i + 1);
    }
  }

  /** The last answer that is looked at among the first `n` attempts. */
  function LastAnswer(attempts: nat -> Attempt, timeout: U16, n: nat): (r: Option<Attempt>)
    ensures r.Some? ==> r.value.Answer?
  {
    if n == 0 then None
    else if attempts(n - 1).Answer? && Kept(timeout, n - 1) then Some(attempts(n - 1))
    else LastAnswer(attempts, timeout, n - 1)
  }

  ghost function Outcome(attempts: nat -> Attempt, timeout: U16): Option<Attempt> {
    LastAnswer(attempts, timeout, Completed(attempts, timeout))
  }

  // ---------- the retry loop ----------

  function Sum(s: seq<int>): int {
    if s == [] then 0 else Sum(s[..|s| - 1]) + s[|s| - 1]
  }

  lemma SumSnoc(s: seq<int>, n: int)
    ensures Sum(s + [n]) == Sum(s) + n
  {
    assert (s + [n])[..|s|] == s;
  }

  /** The sleeps follow the doubling schedule to the end. */
  predicate OnSchedule(sleeps: seq<int>) {
    forall k :: 0 <= k < |sleeps| ==> sleeps[k] == SleepAfter(k + 1)
  }

  /** The sleeps follow the doubling schedule; only the last may be cut short. */
  predicate Scheduled(sleeps: seq<int>) {
    sleeps == [] ||
    (var n := |sleeps| - 1; OnSchedule(sleeps[..n]) && 0 <= sleeps[n] <= SleepAfter(n + 1))
  }

  lemma ScheduledSnoc(sleeps: seq<int>, pause: int)
    requires OnSchedule(sleeps) && 0 <= pause <= SleepAfter(|sleeps| + 1)
    ensures Scheduled(sleeps + [pause])
    ensures pause == SleepAfter(|sleeps| + 1) ==> OnSchedule(sleeps + [pause])
  {
    assert (sleeps + [pause])[..|sleeps|] == sleeps;
  }

  /** The sleep after attempt `i`, cut short where the budget would be exceeded. */
  function SleepLength(timeout: U16, i: nat): int {
    var left := timeout - Spent(i) - WAIT_INTERVAL;
    if SleepAfter(i) <= left then SleepAfter(i) else left
  }

  /** How many sleeps there are: one after each charged attempt but the first, and none after
      one that overruns the budget. */
  function SleepCount(timeout: U16, tries: nat): nat {
    if tries <= 1 then 0 else if Kept(timeout, tries - 1) then tries - 1 else tries - 2
  }

  /** `sleeps` are all the sleeps of a loop that charged `tries` attempts. */
  predicate Slept(timeout: U16, tries: nat, sleeps: seq<int>) {
    |sleeps| == SleepCount(timeout, tries) && Lengths(timeout, sleeps) && Scheduled(sleeps)
  }

  predicate Lengths(timeout: U16, sleeps: seq<int>) {
    forall k :: 0 <= k < |sleeps| ==> sleeps[k] == SleepLength(timeout, k + 1)
  }

  /** What charging attempt `i` does: a sleep follows unless the attempt is the first or the
      budget is overrun. */
  predicate Charged(timeout: U16, i: nat, before: int, total: int, next: int, pause: Option<int>) {
    && (pause.Some? <==> i > 0 && Kept(timeout, i))
    && total == before + WAIT_INTERVAL + (if pause.Some? then pause.value else 0)
    && (pause.Some? ==> 0 <= pause.value <= SleepAfter(i) && pause.value == SleepLength(timeout, i) && total <= timeout)
    && (total < timeout ==> total == Spent(i + 1) && next == SleepAfter(i + 1))
    && (total < timeout && pause.Some? ==> pause.value == SleepAfter(i))
    && (total >= timeout ==> Spent(i + 1) >= timeout)
  }

  /** The sleep before attempt `i + 1` as the loop keeps it; it is set to 1 before the first. */
  function Planned(i: nat): nat {
    if i == 0 then 1 else SleepAfter(i)
  }

  method Charge(timeout: U16, i: nat, before: int, planned: int) returns (total: int, next: int, pause: Option<int>)
    requires before == Spent(i) < timeout && planned == Planned(i)
    ensures Charged(timeout, i, before, total, next, pause)
  {
    total, next, pause := before + WAIT_INTERVAL, planned, None;
    if i > 0 {
      if total + next > timeout {
        next := timeout - total;
      }
      if next < 0 {
        return;
      }
      pause := Some(next);
      total := total + next;
      if next < MAX_SLEEP {
        next := next * 2;
      }
    }
  }

  /** The time side of the loop before attempt `i`. */
  predicate Budget(timeout: U16, i: nat, total: int, sleepTime: int, sleeps: seq<int>) {
    && total == WAIT_INTERVAL * i + Sum(sleeps) && total < timeout + WAIT_INTERVAL
    && |sleeps| == (if i == 0 then 0 else i - 1) && Slept(timeout, i, sleeps)
    && (total < timeout ==> total == Spent(i) && sleepTime == Planned(i) && OnSchedule(sleeps))
    && (total >= timeout ==> Spent(i) >= timeout)
  }

  lemma BudgetStep(timeout: U16, i: nat, before: int, sleepTime: int, sleeps: seq<int>,
                   total: int, next: int, pause: Option<int>)
    requires before < timeout && Budget(timeout, i, before, sleepTime, sleeps)
    requires Charged(timeout, i, before, total, next, pause)
    ensures if pause.Some? then Budget(timeout, i + 1, total, next, sleeps + [pause.value])
            else if i == 0 then Budget(timeout, 1, total, next, sleeps)
            else Spent(i + 1) >= timeout && total == WAIT_INTERVAL * (i + 1) + Sum(sleeps)
                 && total < timeout + WAIT_INTERVAL && Slept(timeout, i + 1, sleeps)
  {
    if pause.Some? {
      SumSnoc(sleeps, pause.value);
      ScheduledSnoc(sleeps, pause.value);
    }
  }

  /** The answer side of the loop before attempt `i`. */
  predicate Heard(attempts: nat -> Attempt, timeout: U16, i: nat, answer: Option<Attempt>) {
    && (forall k :: 0 <= k < i ==> Goes(attempts, timeout, k))
    && answer == LastAnswer(attempts, timeout, i)
  }

  lemma HeardStep(attempts: nat -> Attempt, timeout: U16, i: nat, answer: Option<Attempt>)
    requires Heard(attempts, timeout, i, answer) && Goes(attempts, timeout, i)
    ensures Heard(attempts, timeout, i + 1,
                  if attempts(i).Answer? && Kept(timeout, i) then Some(attempts(i)) else answer)
  {
  }

  /** How many attempts are charged: all that are entered but one whose request cannot be sent. */
  ghost function Tried(attempts: nat -> Attempt, timeout: U16): nat {
    var n := Completed(attempts, timeout);
    if n < MAX_ATTEMPTS && Spent(n) < timeout && attempts(n).BadFamily? then n + 1 else n
  }

  /** What the loop delivers: the last answer looked at, how many attempts were entered, how many
      of them were charged, and every sleep. */
  ghost predicate Delivers(timeout: U16, attempts: nat -> Attempt, answer: Option<Attempt>,
                           entered: nat, tries: nat, total: int, sleeps: seq<int>)
  {
    && answer == Outcome(attempts, timeout)
    && entered == Entered(attempts, timeout) && tries == Tried(attempts, timeout)
    && total == WAIT_INTERVAL * tries + Sum(sleeps) && total < timeout + WAIT_INTERVAL
    && Slept(timeout, tries, sleeps)
  }

  /** Leaving at attempt `i` with `tries` charged: the budget is used up, attempt `i` throws, or
      it is the attempt that overruns. */
  lemma Leave(timeout: U16, attempts: nat -> Attempt, i: nat, answer: Option<Attempt>,
              entered: nat, tries: nat, total: int, sleeps: seq<int>)
    requires i <= MAX_ATTEMPTS && Heard(attempts, timeout, i, answer)
    requires i == MAX_ATTEMPTS || !Goes(attempts, timeout, i)
    requires entered == if i < MAX_ATTEMPTS && Spent(i) < timeout then i + 1 else i
    requires tries == if i < MAX_ATTEMPTS && Spent(i) < timeout && attempts(i).BadFamily? then i + 1 else i
    requires total == WAIT_INTERVAL * tries + Sum(sleeps) && total < timeout + WAIT_INTERVAL
    requires Slept(timeout, tries, sleeps)
    ensures Delivers(timeout, attempts, answer, entered, tries, total, sleeps)
  {
    EndIsUnique(attempts, timeout, i, Completed(attempts, timeout));
  }

  /** The loop of client::bind. It does not stop at an answer: the last one counts. */
  method Retry(timeout: U16, attempts: nat -> Attempt)
    returns (answer: Option<Attempt>, entered: nat, tries: nat, total: int, sleeps: seq<int>)
    ensures Delivers(timeout, attempts, answer, entered, tries, total, sleeps)
  {
    var i, sleepTime := 0, 1;
    answer, entered, tries, total, sleeps := None, 0, 0, 0, [];
    while i < MAX_ATTEMPTS && total < timeout
      invariant 0 <= i == tries == entered <= MAX_ATTEMPTS
      invariant Budget(timeout, i, total, sleepTime, sleeps)
      invariant Heard(attempts, timeout, i, answer)
    {
      entered := entered + 1;
      var attempt := attempts(i);
      if attempt.SendFails? {
        Leave(timeout, attempts, i, answer, entered, tries, total, sleeps);
        return;
      }
      var newTotal, newSleep, pause := Charge(timeout, i, total, sleepTime);
      BudgetStep(timeout, i, total, sleepTime, sleeps, newTotal, newSleep, pause);
      if !attempt.BadFamily? {
        HeardStep(attempts, timeout, i, answer);
      }
      tries, total, sleepTime := tries + 1, newTotal, newSleep;
      if i > 0 {
        if pause.None? {
          Leave(timeout, attempts, if attempt.BadFamily? then i else i + 1, answer, entered, tries, total, sleeps);
          return;
        }
        sleeps := sleeps + [pause.value];
      }
      if attempt.Answer? {
        answer := Some(attempt);
      } else if attempt.BadFamily? {
        Leave(timeout, attempts, i, answer, entered, tries, total, sleeps);
        return;
      }
      i := i + 1;
    }
    Leave(timeout, attempts, i, answer, entered, tries, total, sleeps);
  }

  // ---------- what the loop does, read off its results ----------

  /** Any timeout from 1 to 2000 runs the body once and never sleeps. */
  lemma ShortTimeoutsNeverSleep(timeout: U16, attempts: nat -> Attempt, answer: Option<Attempt>,
                                entered: nat, tries: nat, total: int, sleeps: seq<int>)
    requires 1 <= timeout <= WAIT_INTERVAL && Delivers(timeout, attempts, answer, entered, tries, total, sleeps)
    ensures entered == 1 && sleeps == []
    ensures total == if attempts(0).SendFails? then 0 else WAIT_INTERVAL
  {
    AttemptsAreBounded(attempts, timeout);
    assert Spent(1) == WAIT_INTERVAL;
    if Completed(attempts, timeout) == 1 {
      assert Goes(attempts, timeout, 0);
    }
  }

  /** The sleep after the attempt with index `i`, if it is not cut: 1, 2, 4 and so on up to 32. */
  function Doubling(i: nat): nat {
    if i <= 1 then 1 else if Doubling(i - 1) < 32 then 2 * Doubling(i - 1) else 32
  }

  lemma {:induction false} SleepsDouble(i: nat)
    requires i > 0
    ensures SleepAfter(i) == Doubling(i)
  {
    if i > 7 {
      SleepsDouble(i - 1);
    } else {
      assert Doubling(1) == 1 && Doubling(2) == 2 && Doubling(3) == 4 && Doubling(4) == 8;
      assert Doubling(5) == 16 && Doubling(6) == 32 && Doubling(7) == 32;
    }
  }

  predicate DoublesUpTo32(sleeps: seq<int>) {
    && (forall k :: 0 <= k < |sleeps| ==> 0 <= sleeps[k] <= Doubling(k + 1) <= 32)
    && forall k :: 0 <= k < |sleeps| - 1 ==> sleeps[k] == Doubling(k + 1)
  }

  /** Every sleep but the last follows that sequence, the last is no longer, and all that was charged
      is 2000 per attempt and the sleeps. */
  lemma SleepsOfTheLoop(timeout: U16, attempts: nat -> Attempt, answer: Option<Attempt>,
                        entered: nat, tries: nat, total: int, sleeps: seq<int>)
    requires Delivers(timeout, attempts, answer, entered, tries, total, sleeps)
    ensures DoublesUpTo32(sleeps)
    ensures total == 2000 * tries + Sum(sleeps) && total < timeout + 2000
    ensures tries == entered || (tries + 1 == entered && attempts(tries).SendFails?)
    ensures |sleeps| + 1 == tries || (tries == 0 && sleeps == [])
            || (|sleeps| + 2 == tries && timeout < Spent(tries - 1) + 2000)
  {
    ScheduleDoubles(sleeps);
    CountSleeps(attempts, timeout, sleeps);
  }

  lemma ScheduleDoubles(sleeps: seq<int>)
    requires Scheduled(sleeps)
    ensures DoublesUpTo32(sleeps)
  {
    forall k | 0 <= k < |sleeps|
      ensures 0 <= sleeps[k] <= Doubling(k + 1) <= 32
      ensures k < |sleeps| - 1 ==> sleeps[k] == Doubling(k + 1)
    {
      SleepsDouble(k + 1);
      assert k < |sleeps| - 1 ==> sleeps[..|sleeps| - 1][k] == sleeps[k];
    }
  }

  lemma CountSleeps(attempts: nat -> Attempt, timeout: U16, sleeps: seq<int>)
    requires |sleeps| == SleepCount(timeout, Tried(attempts, timeout))
    ensures var entered, tries := Entered(attempts, timeout), Tried(attempts, timeout);
            && (tries == entered || (tries + 1 == entered && attempts(tries).SendFails?))
            && (|| |sleeps| + 1 == tries || (tries == 0 && sleeps == [])
                || (|sleeps| + 2 == tries && timeout < Spent(tries - 1) + 2000))
  {
    var n := Completed(attempts, timeout);
    assert n == MAX_ATTEMPTS || !Goes(attempts, timeout, n);
    var tries := Tried(attempts, timeout);
    if tries == 0 {
      assert sleeps == [];
    }
  }

  /** What becomes of the last answer: it is delivered if and only if its attempt is the first
      or does not overrun the budget. Otherwise its attempt ended the loop, and an earlier
      answer is delivered, if there is one. */
  lemma LastAnswerIsLostIff(timeout: U16, attempts: nat -> Attempt, answer: Option<Attempt>,
                            entered: nat, tries: nat, total: int, sleeps: seq<int>, i: nat)
    requires Delivers(timeout, attempts, answer, entered, tries, total, sleeps)
    requires i < Completed(attempts, timeout) && attempts(i).Answer?
    requires forall k :: i < k < Completed(attempts, timeout) ==> !attempts(k).Answer?
    ensures var overruns := i > 0 && timeout < Spent(i) + WAIT_INTERVAL;
            && (!overruns ==> answer == Some(attempts(i)))
            && (overruns ==> i + 1 == Completed(attempts, timeout) && answer == LastAnswer(attempts, timeout, i))
            && ((forall k :: 0 <= k < i ==> !attempts(k).Answer?) ==> (answer.None? <==> overruns))
  {
    OnlyTheLastOverruns(attempts, timeout, i);
    QuietTail(attempts, timeout, i + 1, Completed(attempts, timeout));
    if forall k :: 0 <= k < i ==> !attempts(k).Answer? {
      QuietTail(attempts, timeout, 0, i);
    }
  }

  lemma {:induction false} QuietTail(attempts: nat -> Attempt, timeout: U16, m: nat, n: nat)
    requires m <= n && forall k :: m <= k < n ==> !attempts(k).Answer?
    ensures LastAnswer(attempts, timeout, n) == LastAnswer(attempts, timeout, m)
  {
    if m < n {
      QuietTail(attempts, timeout, m, n - 1);
    }
  }

  // ---------- the client ----------

  /** The fields of client that outlive a call; an empty address is an invalid result. */
  datatype Client = Client(params: Params, cacheTime: nat, lastIp: string)

  const NEW_CLIENT := Client(Params("", 0, "", Inet, 30, 30), 0, "")

  /** One call of bind: its arguments, the clock at the cache test and how its attempts end. */
  datatype Call = Call(params: Params, now: nat, attempts: nat -> Attempt)

  datatype Reply = Reply(ok: bool, ip: string)

  /** The cache answers: caching is on, no parameter changed, the last result is valid and its
      age in whole seconds is below the timeout. */
  predicate FromCache(c: Client, call: Call) {
    && call.params.cacheTimeout > 0 && call.params == c.params && c.lastIp != ""
    && call.now - c.cacheTime < 1000 * call.params.cacheTimeout
  }

  ghost function ClientAfter(c: Client, call: Call): Client {
    var answer := Outcome(call.attempts, call.params.bindTimeout);
    if FromCache(c, call) || answer.None? then c.(params := call.params)
    else Client(call.params, answer.value.at, answer.value.ip)
  }

  ghost function ReplyTo(c: Client, call: Call): Reply {
    var answer := Outcome(call.attempts, call.params.bindTimeout);
    if FromCache(c, call) then Reply(true, c.lastIp)
    else if answer.Some? then Reply(true, answer.value.ip)
    else Reply(false, "")
  }

  class StunClient {
    var hostname: string
    var port: U16
    var iface: string
    var proto: Protocol
    var bindTimeout: U16
    var cacheTimeout: U16
    var lastCacheTime: nat
    var lastIp: string

    ghost function View(): Client
      reads this
    {
      Client(Params(hostname, port, iface, proto, bindTimeout, cacheTimeout), lastCacheTime, lastIp)
    }

    constructor ()
      ensures View() == NEW_CLIENT
    {
      hostname, port, iface, proto := "", 0, "", Inet;
      bindTimeout, cacheTimeout, lastCacheTime, lastIp := 30, 30, 0, "";
    }

    /** Takes over the arguments field by field and says whether any of them was new. */
    method SetParams(p: Params) returns (dirty: bool)
      modifies this
      ensures View() == old(View()).(params := p)
      ensures dirty <==> old(View()).params != p
    {
      dirty := false;
      if hostname != p.hostname {
        hostname, dirty := p.hostname, true;
      }
      if port != p.port {
        port, dirty := p.port, true;
      }
      if iface != p.iface {
        iface, dirty := p.iface, true;
      }
      if proto != p.proto {
        proto, dirty := p.proto, true;
      }
      if bindTimeout != p.bindTimeout {
        bindTimeout, dirty := p.bindTimeout, true;
      }
      if cacheTimeout != p.cacheTimeout {
        cacheTimeout, dirty := p.cacheTimeout, true;
      }
    }

    /** client::bind. The clock is steady, so it never stands before the cache time. */
    method Bind(call: Call) returns (reply: Reply)
      requires lastCacheTime <= call.now
      modifies this
      ensures View() == ClientAfter(old(View()), call)
      ensures reply == ReplyTo(old(View()), call)
    {
      var dirty := SetParams(call.params);
      if cacheTimeout > 0 && !dirty && lastIp != "" {
        var timeInCache := (call.now - lastCacheTime) / 1000;
        if timeInCache < cacheTimeout {
          return Reply(true, lastIp);
        }
      }
      var answer, _, _, _, _ := Retry(bindTimeout, call.attempts);
      if answer.Some? {
        lastIp, lastCacheTime := answer.value.ip, answer.value.at;
        reply := Reply(true, answer.value.ip);
      } else {
        reply := Reply(false, "");
      }
    }
  }

  // ---------- runs of bind calls ----------

  ghost function RunCalls(calls: seq<Call>): Client {
    if calls == [] then NEW_CLIENT
    else ClientAfter(RunCalls(calls[..|calls| - 1]), calls[|calls| - 1])
  }

  lemma RunSnoc(calls: seq<Call>, call: Call)
    ensures RunCalls(calls + [call]) == ClientAfter(RunCalls(calls), call)
  {
    assert (calls + [call])[..|calls|] == calls;
  }

  /** Call `k` of a run went to the network and came back with an address. */
  ghost predicate Exchanged(calls: seq<Call>, k: nat)
    requires k < |calls|
  {
    var answer := Outcome(calls[k].attempts, calls[k].params.bindTimeout);
    !FromCache(RunCalls(calls[..k]), calls[k]) && answer.Some?
  }

  /** Call `j` is the most recent of the first `n` calls that exchanged, and `ip` its address. */
  ghost predicate LastExchange(calls: seq<Call>, n: nat, j: nat, ip: string, at: nat)
    requires j < n <= |calls|
  {
    && Exchanged(calls, j)
    && (forall i :: j < i < n ==> !Exchanged(calls, i))
    && var answer := Outcome(calls[j].attempts, calls[j].params.bindTimeout).value;
       ip == answer.ip && at == answer.at
  }

  /** The fields of the client, read off the calls alone. */
  lemma {:induction false} ClientRemembers(calls: seq<Call>, n: nat)
    requires n <= |calls|
    ensures var c := RunCalls(calls[..n]);
            && (n > 0 ==> c.params == calls[n - 1].params)
            && (c.lastIp != "" ==> exists j :: 0 <= j < n && LastExchange(calls, n, j, c.lastIp, c.cacheTime))
  {
    if n > 0 {
      ClientRemembers(calls, n - 1);
      var c, c' := RunCalls(calls[..n - 1]), RunCalls(calls[..n]);
      LastCall(calls, n);
      if Exchanged(calls, n - 1) {
        assert LastExchange(calls, n, n - 1, c'.lastIp, c'.cacheTime);
      } else if c.lastIp != "" {
        var j :| 0 <= j < n - 1 && LastExchange(calls, n - 1, j, c.lastIp, c.cacheTime);
        StillLast(calls, n, j, c.lastIp, c.cacheTime);
      }
    }
  }

  /** What the last of the first `n` calls does to the client. */
  lemma LastCall(calls: seq<Call>, n: nat)
    requires 0 < n <= |calls|
    ensures var c, c' := RunCalls(calls[..n - 1]), RunCalls(calls[..n]);
            && c'.params == calls[n - 1].params
            && (Exchanged(calls, n - 1) ==> LastExchange(calls, n, n - 1, c'.lastIp, c'.cacheTime))
            && (!Exchanged(calls, n - 1) ==> c'.lastIp == c.lastIp && c'.cacheTime == c.cacheTime)
  {
    assert calls[..n][..n - 1] == calls[..n - 1];
    assert RunCalls(calls[..n]) == ClientAfter(RunCalls(calls[..n - 1]), calls[n - 1]);
  }

  lemma StillLast(calls: seq<Call>, n: nat, j: nat, ip: string, at: nat)
    requires j < n - 1 < |calls| && LastExchange(calls, n - 1, j, ip, at) && !Exchanged(calls, n - 1)
    ensures LastExchange(calls, n, j, ip, at)
  {
  }

  /** Over every run: an answer from the cache is that of the most recent exchange, is younger
      than the cache timeout, and is given only if all six parameters are those of the call
      before. */
  lemma CachedAnswersAreRecent(calls: seq<Call>, k: nat)
    requires k < |calls| && FromCache(RunCalls(calls[..k]), calls[k])
    ensures k > 0 && calls[k].params == calls[k - 1].params
    ensures exists j, at :: 0 <= j < k && LastExchange(calls, k, j, ReplyTo(RunCalls(calls[..k]), calls[k]).ip, at)
                            && calls[k].now - at < 1000 * calls[k].params.cacheTimeout
  {
    ClientRemembers(calls, k);
    assert calls[..0] == [];
    var c := RunCalls(calls[..k]);
    var j :| 0 <= j < k && LastExchange(calls, k, j, c.lastIp, c.cacheTime);
    assert calls[k].now - c.cacheTime < 1000 * calls[k].params.cacheTimeout;
    assert ReplyTo(c, calls[k]).ip == c.lastIp;
  }

  /** Over every run: a call that is not served from the cache is answered if and only if it
      exchanged, with the address of its own last answer that was looked at. A call that did not
      exchange carries no address. */
  lemma RepliesAreItsOwn(calls: seq<Call>, k: nat)
    requires k < |calls| && !FromCache(RunCalls(calls[..k]), calls[k])
    ensures var reply := ReplyTo(RunCalls(calls[..k]), calls[k]);
            && (reply.ok <==> Exchanged(calls, k))
            && (Exchanged(calls, k) ==>
                  reply.ip == Outcome(calls[k].attempts, calls[k].params.bindTimeout).value.ip)
            && (!Exchanged(calls, k) ==> reply.ip == "")
  {
  }

  /** Over every run: a call is served from the cache if and only if caching is on, its six parameters
      are those of the call before, and some exchange succeeded, of which the most recent is younger
      than the timeout. Then it is answered with the address of that exchange. */
  lemma FromCacheIff(calls: seq<Call>, k: nat)
    requires k < |calls|
    ensures FromCache(RunCalls(calls[..k]), calls[k]) <==>
            && calls[k].params.cacheTimeout > 0 && k > 0 && calls[k].params == calls[k - 1].params
            && exists j, ip, at :: 0 <= j < k && LastExchange(calls, k, j, ip, at)
                                   && calls[k].now - at < 1000 * calls[k].params.cacheTimeout
    ensures FromCache(RunCalls(calls[..k]), calls[k]) ==> ReplyTo(RunCalls(calls[..k]), calls[k]).ok
  {
    var c := RunCalls(calls[..k]);
    ClientRemembers(calls, k);
    assert calls[..0] == [];
    if FromCache(c, calls[k]) {
      CachedAnswersAreRecent(calls, k);
    }
    if j, ip, at :| 0 <= j < k && LastExchange(calls, k, j, ip, at)
                    && calls[k].now - at < 1000 * calls[k].params.cacheTimeout {
      AnswerIsKept(calls, k, j, ip, at);
    }
  }

  /** The client holds the answer of its most recent exchange. */
  lemma {:induction false} AnswerIsKept(calls: seq<Call>, n: nat, j: nat, ip: string, at: nat)
    requires j < n <= |calls| && LastExchange(calls, n, j, ip, at)
    ensures RunCalls(calls[..n]).lastIp == ip != "" && RunCalls(calls[..n]).cacheTime == at
  {
    LastCall(calls, n);
    if j < n - 1 {
      assert !Exchanged(calls, n - 1);
      AnswerIsKept(calls, n - 1, j, ip, at);
    }
  }

  /** The parameters last changed at call `since`, as seen from call `k`. */
  predicate LastChange(calls: seq<Call>, since: nat, k: nat)
    requires since <= k < |calls|
  {
    && (forall m :: since <= m <= k ==> calls[m].params == calls[k].params)
    && (since > 0 ==> calls[since - 1].params != calls[k].params)
  }

  /** A cached answer comes from after the last change of parameters if and only if some exchange
      succeeded since, and then it was obtained under this call's parameters. Otherwise it dates
      from before the change, and it was obtained under other parameters if it is from the call
      just before the change. */
  lemma CachedAnswersFit(calls: seq<Call>, k: nat, since: nat, j: nat, ip: string, at: nat)
    requires since <= k < |calls| && LastChange(calls, since, k) && j < k && LastExchange(calls, k, j, ip, at)
    ensures since <= j <==> exists i :: since <= i < k && Exchanged(calls, i)
    ensures since <= j ==> calls[j].params == calls[k].params
    ensures j + 1 == since ==> calls[j].params != calls[k].params
  {
    if i :| since <= i < k && Exchanged(calls, i) {
      assert !(j < i);
    }
  }

  /** Otherwise it need not be: with any two different parameter sets, a failed exchange under
      the second leaves the answer of the first to be returned for it. */
  lemma StaleAnswerAfterFailure(first: Call, failed: Call, again: Call)
    requires first.params.bindTimeout > 0 && first.attempts(0).Answer?
    requires forall i :: i > 0 ==> first.attempts(i).Silent?
    requires forall i :: failed.attempts(i).Silent?
    requires failed.params == again.params != first.params && again.params.cacheTimeout > 0
    requires first.attempts(0).at <= again.now < first.attempts(0).at + 1000 * again.params.cacheTimeout
    ensures FromCache(RunCalls([first] + [failed]), again)
    ensures ReplyTo(RunCalls([first] + [failed]), again) == Reply(true, first.attempts(0).ip)
  {
    FirstAnswerStays(first);
    RunSnoc([first], failed);
    FailureKeepsAnswer(RunCalls([first]), failed);
  }

  /** The client after a first call whose first attempt alone is answered. */
  lemma FirstAnswerStays(first: Call)
    requires first.params.bindTimeout > 0 && first.attempts(0).Answer?
    requires forall i :: i > 0 ==> first.attempts(i).Silent?
    ensures RunCalls([first]) == Client(first.params, first.attempts(0).at, first.attempts(0).ip)
  {
    AnsweredAtOnce(first.attempts, first.params.bindTimeout);
    RunSnoc([], first);
    assert [] + [first] == [first];
  }

  lemma AnsweredAtOnce(attempts: nat -> Attempt, timeout: U16)
    requires timeout > 0 && attempts(0).Answer? && forall i :: i > 0 ==> attempts(i).Silent?
    ensures Outcome(attempts, timeout) == Some(attempts(0))
  {
    var n := Completed(attempts, timeout);
    assert Spent(0) == 0 && Goes(attempts, timeout, 0);
    assert n > 0;
    OneAnswer(attempts, timeout, n);
  }

  /** A call that nobody answers changes only the parameters. */
  lemma FailureKeepsAnswer(c: Client, failed: Call)
    requires forall i :: failed.attempts(i).Silent?
    ensures ClientAfter(c, failed) == c.(params := failed.params)
  {
    NoAnswer(failed.attempts, failed.params.bindTimeout, Completed(failed.attempts, failed.params.bindTimeout));
  }

  /** And an answer from before the change may fit: the parameters change and change back, with
      every exchange after the first failing. */
  lemma OldAnswerFitsAgain(first: Call, failed: Call, back: Call, again: Call)
    requires first.params.bindTimeout > 0 && first.attempts(0).Answer?
    requires forall i :: i > 0 ==> first.attempts(i).Silent?
    requires forall i :: failed.attempts(i).Silent? && back.attempts(i).Silent?
    requires first.params == back.params == again.params != failed.params && again.params.cacheTimeout > 0
    requires first.attempts(0).at <= again.now < first.attempts(0).at + 1000 * again.params.cacheTimeout
    ensures FromCache(RunCalls([first] + [failed] + [back]), again)
    ensures ReplyTo(RunCalls([first] + [failed] + [back]), again) == Reply(true, first.attempts(0).ip)
  {
    FirstAnswerStays(first);
    RunSnoc([first], failed);
    FailureKeepsAnswer(RunCalls([first]), failed);
    RunSnoc([first] + [failed], back);
    FailureKeepsAnswer(RunCalls([first] + [failed]), back);
  }

  lemma {:induction false} OneAnswer(attempts: nat -> Attempt, timeout: U16, n: nat)
    requires attempts(0).Answer? && forall i :: i > 0 ==> attempts(i).Silent?
    ensures n > 0 ==> LastAnswer(attempts, timeout, n) == Some(attempts(0))
  {
    if n > 1 {
      OneAnswer(attempts, timeout, n - 1);
    }
  }

  lemma {:induction false} NoAnswer(attempts: nat -> Attempt, timeout: U16, n: nat)
    requires forall i :: attempts(i).Silent?
    ensures LastAnswer(attempts, timeout, n) == None
  {
    if n > 0 {
      NoAnswer(attempts, timeout, n - 1);
    }
  }
}
