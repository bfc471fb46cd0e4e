/**
 The preferred-network-interface controller: a script that decides from marker files and the
 Ethernet carrier which of the two interfaces to bring up and configure, and, when the
 feature is on, tries the preferred and the other one in turn until one has connectivity.
 */
module PniController {
  import opened Basics

  datatype Iface = Ethernet | Wifi

  function Other(i: Iface): Iface {
    if i == Ethernet then Wifi else Ethernet
  }

  datatype Command =
    | LinkUp(i: Iface)
    | LinkDown(i: Iface)
    | V6On(i: Iface)
    | V6Off(i: Iface)
    | V4On(i: Iface)        // dhcp, or the manual settings
    | V4Off(i: Iface)       // dhcp stopped, routes and addresses flushed
    | MarkActive(i: Iface)  // /tmp/ani_wifi and /tmp/wifi-on

  datatype Port = Port(up: bool, v4: bool, v6: bool)

  datatype Net = Net(eth: Port, wifi: Port, active: Iface)

  /** What the script finds when it starts. */
  datatype Env = Env(
    ethDisallowed: bool,
    wifiDisallowed: bool,
    carrier: bool,
    pniEnabled: bool,       // the feature is on and not disabled by configuration
    preferWifi: bool,       // /tmp/pni_wifi exists
    mayDropWifi: bool)      // CONFIG_ALLOW_PNI_TO_DISABLE_WIFI is not "false"

  predicate Disallowed(env: Env, i: Iface) {
    if i == Ethernet then env.ethDisallowed else env.wifiDisallowed
  }

  // ---------- what the commands do ----------

  function PortOf(n: Net, i: Iface): Port {
    if i == Ethernet then n.eth else n.wifi
  }

  function WithPort(n: Net, i: Iface, p: Port): Net {
    if i == Ethernet then n.(eth := p) else n.(wifi := p)
  }

  function Exec(n: Net, c: Command): Net {
    match c
    case LinkUp(i) => WithPort(n, i, PortOf(n, i).(up := true))
    case LinkDown(i) => WithPort(n, i, PortOf(n, i).(up := false))
    case V6On(i) => WithPort(n, i, PortOf(n, i).(v6 := true))
    case V6Off(i) => WithPort(n, i, PortOf(n, i).(v6 := false))
    case V4On(i) => WithPort(n, i, PortOf(n, i).(v4 := true))
    case V4Off(i) => WithPort(n, i, PortOf(n, i).(v4 := false))
    case MarkActive(i) => n.(active := i)
  }

  function ExecAll(n: Net, cs: seq<Command>): Net
    decreases |cs|
  {
    if cs == [] then n else ExecAll(Exec(n, cs[0]), cs[1..])
  }

  // ---------- what the script issues ----------

  function Deconfigure(i: Iface): seq<Command> {
    [V4Off(i), V6Off(i)]
  }

  function Configure(i: Iface): seq<Command> {
    [V6On(i), V4On(i)]
  }

  /** try_ethernet or try_wifi: bring one up, clear the other, configure the one; a successful
      Ethernet of the PNI loop may then take Wi-Fi down. */
  function Try(i: Iface, dropWifi: bool): seq<Command> {
    [MarkActive(i), LinkUp(i)] + Deconfigure(Other(i)) + Configure(i)
    + if dropWifi && i == Ethernet then [LinkDown(Wifi)] else []
  }

  /** The PNI loop from interface `i` on, with the outcomes of the tries to come. It stops at
      the first success; with the outcomes used up it is still retrying. */
  function Loop(i: Iface, mayDropWifi: bool, tests: seq<bool>): seq<Command>
    decreases |tests|
  {
    if tests == [] then []
    else if tests[0] then Try(i, mayDropWifi)
    else Try(i, false) + Loop(Other(i), mayDropWifi, tests[1..])
  }

  function LoopEnd(i: Iface, tests: seq<bool>): Option<Iface>
    decreases |tests|
  {
    if tests == [] then None else if tests[0] then Some(i) else LoopEnd(Other(i), tests[1..])
  }

  function Preferred(env: Env): Iface {
    if env.preferWifi then Wifi else Ethernet
  }

  function PniFront(env: Env): seq<Command> {
    if !env.preferWifi && !env.mayDropWifi then [LinkUp(Wifi)] else []
  }

  /** The whole decision chain. */
  function Script(env: Env, tests: seq<bool>): seq<Command> {
    if env.ethDisallowed && env.wifiDisallowed then [LinkDown(Ethernet), LinkDown(Wifi)]
    else if env.wifiDisallowed then [LinkDown(Wifi)] + Try(Ethernet, false)
    else if env.ethDisallowed then [LinkDown(Ethernet)] + Try(Wifi, false)
    else if !env.carrier then Try(Wifi, false)
    else if !env.pniEnabled then [LinkUp(Wifi)] + Try(Ethernet, false)
    else PniFront(env) + Loop(Preferred(env), env.mayDropWifi, tests)
  }

  /** The interface the script ends on, if it ends on one. */
  function Ending(env: Env, tests: seq<bool>): Option<Iface> {
    if env.ethDisallowed && env.wifiDisallowed then None
    else if env.wifiDisallowed then Some(Ethernet)
    else if env.ethDisallowed || !env.carrier then Some(Wifi)
    else if !env.pniEnabled then Some(Ethernet)
    else LoopEnd(Preferred(env), tests)
  }

  lemma {:induction false} ExecConcat(n: Net, a: seq<Command>, b: seq<Command>)
    ensures ExecAll(n, a + b) == ExecAll(ExecAll(n, a), b)
    decreases |a|
  {
    if a == [] {
      assert a + b == b;
    } else {
      ExecConcat(Exec(n, a[0]), a[1..], b);
      assert (a + b)[1..] == a[1..] + b;
    }
  }

  // ---------- the script itself ----------

  class Controller {
    const boot: Net
    var net: Net
    var log: seq<Command>

    /** The interfaces are in the state the commands so far lead to. */
    ghost predicate Valid()
      reads this
    {
      net == ExecAll(boot, log)
    }

    constructor (boot: Net)
      ensures Valid() && this.boot == boot && log == []
    {
      this.boot, net, log := boot, boot, [];
    }

    method Do(c: Command)
      requires Valid()
      modifies this
      ensures Valid() && log == old(log) + [c]
    {
      ExecConcat(boot, log, [c]);
      log := log + [c];
      net := Exec(net, c);
    }

    /** try_interface. `test` is the outcome of the connectivity test, which is only made, and
        only matters, in the PNI loop. */
    method TryInterface(i: Iface, inLoop: bool, mayDropWifi: bool, test: bool) returns (ok: bool)
      requires Valid()
      modifies this
      ensures Valid() && ok == (inLoop ==> test)
      ensures log == old(log) + Try(i, inLoop && test && mayDropWifi)
    {
      Do(MarkActive(i));
      Do(LinkUp(i));
      Do(V4Off(Other(i)));
      Do(V6Off(Other(i)));
      Do(V6On(i));
      Do(V4On(i));
      ok := !inLoop || test;
      if i == Ethernet && ok && inLoop && mayDropWifi {
        Do(LinkDown(Wifi));
      }
    }

    /** The PNI loop: the preferred interface, then the other, round after round. */
    method RunLoop(pni: Iface, mayDropWifi: bool, tests: seq<bool>) returns (ended: Option<Iface>)
      requires Valid()
      modifies this
      ensures Valid() && log == old(log) + Loop(pni, mayDropWifi, tests)
      ensures ended == LoopEnd(pni, tests)
    {
      var k := 0;
      var nonpni := Other(pni);
      assert tests[0..] == tests;
      while k < |tests|
        invariant Valid() && 0 <= k <= |tests|
        invariant log + Loop(pni, mayDropWifi, tests[k..]) == old(log) + Loop(pni, mayDropWifi, tests)
        invariant LoopEnd(pni, tests[k..]) == LoopEnd(pni, tests)
        decreases |tests| - k
      {
        LoopStep(log, pni, mayDropWifi, tests, k);
        var ok := TryInterface(pni, true, mayDropWifi, tests[k]);
        if ok {
          return Some(pni);
        }
        k := k + 1;
        if k == |tests| {
          break;
        }
        LoopStep(log, nonpni, mayDropWifi, tests, k);
        ok := TryInterface(nonpni, true, mayDropWifi, tests[k]);
        if ok {
          return Some(nonpni);
        }
        k := k + 1;
      }
      return None;
    }

    /** A link command, then one try that nothing tests. */
    method TryAfter(c: Command, i: Iface)
      requires Valid()
      modifies this
      ensures Valid() && log == old(log) + ([c] + Try(i, false))
    {
      Assoc(log, [c], Try(i, false));
      Do(c);
      var _ := TryInterface(i, false, false, false);
    }

    /** pni_controller.sh without arguments. */
    method Run(env: Env, tests: seq<bool>) returns (ended: Option<Iface>)
      requires Valid()
      modifies this
      ensures Valid() && log == old(log) + Script(env, tests)
      ensures ended == Ending(env, tests)
    {
      if env.ethDisallowed && env.wifiDisallowed {
        Do(LinkDown(Ethernet));
        Do(LinkDown(Wifi));
        ended := None;
      } else if env.wifiDisallowed {
        TryAfter(LinkDown(Wifi), Ethernet);
        ended := Some(Ethernet);
      } else if env.ethDisallowed {
        TryAfter(LinkDown(Ethernet), Wifi);
        ended := Some(Wifi);
      } else if !env.carrier {
        var _ := TryInterface(Wifi, false, false, false);
        ended := Some(Wifi);
      } else if !env.pniEnabled {
        TryAfter(LinkUp(Wifi), Ethernet);
        ended := Some(Ethernet);
      } else {
        ended := RunPni(env, tests);
      }
    }

    /** The branch of the decision chain that runs the PNI loop. */
    method RunPni(env: Env, tests: seq<bool>) returns (ended: Option<Iface>)
      requires Valid()
      modifies this
      ensures Valid() && log == old(log) + (PniFront(env) + Loop(Preferred(env), env.mayDropWifi, tests))
      ensures ended == LoopEnd(Preferred(env), tests)
    {
      Assoc(log, PniFront(env), Loop(Preferred(env), env.mayDropWifi, tests));
      var pni := if env.preferWifi then Wifi else Ethernet;
      if !env.preferWifi && !env.mayDropWifi {
        Do(LinkUp(Wifi));
      } else {
        assert log + [] == log;
      }
      ended := RunLoop(pni, env.mayDropWifi, tests);
    }
  }

  lemma LoopStep(l: seq<Command>, i: Iface, mayDropWifi: bool, tests: seq<bool>, k: nat)
    requires k < |tests|
    ensures LoopEnd(i, tests[k..]) == if tests[k] then Some(i) else LoopEnd(Other(i), tests[k + 1..])
    ensures l + Loop(i, mayDropWifi, tests[k..])
         == (l + Try(i, tests[k] && mayDropWifi)) + if tests[k] then [] else Loop(Other(i), mayDropWifi, tests[k + 1..])
  {
    assert tests[k..][0] == tests[k] && tests[k..][1..] == tests[k + 1..];
    Assoc(l, Try(i, tests[k] && mayDropWifi), if tests[k] then [] else Loop(Other(i), mayDropWifi, tests[k + 1..]));
  }

  // ---------- at most one interface is configured ----------

  predicate Configured(n: Net, i: Iface) {
    PortOf(n, i).v4 || PortOf(n, i).v6
  }

  predicate AtMostOne(n: Net) {
    !(Configured(n, Ethernet) && Configured(n, Wifi))
  }

  /** Nothing is switched on at one interface while the other is configured. */
  predicate Clean(n: Net, cs: seq<Command>)
    decreases |cs|
  {
    cs == [] ||
    (((cs[0].V4On? || cs[0].V6On?) ==> !Configured(n, Other(cs[0].i))) && Clean(Exec(n, cs[0]), cs[1..]))
  }

  lemma {:induction false} CleanConcat(n: Net, a: seq<Command>, b: seq<Command>)
    requires Clean(n, a) && Clean(ExecAll(n, a), b)
    ensures Clean(n, a + b)
    decreases |a|
  {
    if a == [] {
      assert a + b == b;
    } else {
      CleanConcat(Exec(n, a[0]), a[1..], b);
      assert (a + b)[1..] == a[1..] + b;
    }
  }

  lemma {:induction false} CleanKeepsOne(n: Net, cs: seq<Command>, m: nat)
    requires AtMostOne(n) && Clean(n, cs) && m <= |cs|
    ensures AtMostOne(ExecAll(n, cs[..m])) && Clean(n, cs[..m])
    decreases |cs|
  {
    if m > 0 {
      CleanKeepsOne(Exec(n, cs[0]), cs[1..], m - 1);
      assert cs[..m][1..] == cs[1..][..m - 1];
    }
  }

  lemma TryIsClean(n: Net, i: Iface, dropWifi: bool)
    ensures Clean(n, Try(i, dropWifi))
  {
    var a, n1 := [MarkActive(i), LinkUp(i)], Exec(Exec(n, MarkActive(i)), LinkUp(i));
    var b, n2 := a + Deconfigure(Other(i)), Exec(Exec(n1, V4Off(Other(i))), V6Off(Other(i)));
    CleanPair(n, MarkActive(i), LinkUp(i));
    CleanPair(n1, V4Off(Other(i)), V6Off(Other(i)));
    CleanPair(n2, V6On(i), V4On(i));
    CleanConcat(n, a, Deconfigure(Other(i)));
    ExecConcat(n, a, Deconfigure(Other(i)));
    CleanConcat(n, b, Configure(i));
    CleanConcat(n, b + Configure(i), if dropWifi && i == Ethernet then [LinkDown(Wifi)] else []);
  }

  lemma CleanPair(n: Net, c: Command, d: Command)
    ensures ExecAll(n, [c, d]) == Exec(Exec(n, c), d)
    ensures Clean(n, [c, d]) <==> Clean(n, [c]) && Clean(Exec(n, c), [d])
  {
    var cs, ds := [c, d], [d];
    assert cs[1..] == ds && ds[1..] == [] && [c][1..] == [];
    assert ExecAll(n, cs) == ExecAll(Exec(n, c), ds);
    assert ExecAll(Exec(n, c), ds) == ExecAll(Exec(Exec(n, c), d), ds[1..]);
  }

  lemma {:induction false} LoopIsClean(n: Net, i: Iface, mayDropWifi: bool, tests: seq<bool>)
    ensures Clean(n, Loop(i, mayDropWifi, tests))
    decreases |tests|
  {
    if tests != [] {
      TryIsClean(n, i, tests[0] && mayDropWifi);
      if !tests[0] {
        LoopIsClean(ExecAll(n, Try(i, false)), Other(i), mayDropWifi, tests[1..]);
        CleanConcat(n, Try(i, false), Loop(Other(i), mayDropWifi, tests[1..]));
      }
    }
  }

  /** Whatever state it starts in, the script never switches an interface on beside another. */
  lemma ScriptIsClean(n: Net, env: Env, tests: seq<bool>)
    ensures Clean(n, Script(env, tests))
  {
    var down, up := [LinkDown(if env.wifiDisallowed then Wifi else Ethernet)], [LinkUp(Wifi)];
    TryIsClean(ExecAll(n, down), Ethernet, false);
    TryIsClean(ExecAll(n, down), Wifi, false);
    CleanConcat(n, down, Try(Ethernet, false));
    CleanConcat(n, down, Try(Wifi, false));
    TryIsClean(n, Wifi, false);
    TryIsClean(ExecAll(n, up), Ethernet, false);
    CleanConcat(n, up, Try(Ethernet, false));
    var loop := Loop(Preferred(env), env.mayDropWifi, tests);
    LoopIsClean(n, Preferred(env), env.mayDropWifi, tests);
    LoopIsClean(ExecAll(n, up), Preferred(env), env.mayDropWifi, tests);
    CleanConcat(n, up, loop);
    assert [] + loop == loop;
    assert [LinkDown(Ethernet), LinkDown(Wifi)][1..] == [LinkDown(Wifi)];
  }

  /** One start of the script, cut off after `cut` commands when the service is restarted. */
  datatype Start = Start(env: Env, tests: seq<bool>, cut: nat)

  function Issued(st: Start): seq<Command> {
    var cs := Script(st.env, st.tests);
    if st.cut <= |cs| then cs[..st.cut] else cs
  }

  function History(starts: seq<Start>): seq<Command> {
    if starts == [] then [] else History(starts[..|starts| - 1]) + Issued(starts[|starts| - 1])
  }

  lemma {:induction false} HistoryIsClean(boot: Net, starts: seq<Start>)
    requires AtMostOne(boot)
    ensures Clean(boot, History(starts))
  {
    if starts != [] {
      var k := |starts| - 1;
      var past := History(starts[..k]);
      HistoryIsClean(boot, starts[..k]);
      CleanKeepsOne(boot, past, |past|);
      assert past[..|past|] == past;
      StartIsClean(ExecAll(boot, past), starts[k]);
      CleanConcat(boot, past, Issued(starts[k]));
    }
  }

  lemma StartIsClean(n: Net, st: Start)
    requires AtMostOne(n)
    ensures Clean(n, Issued(st))
  {
    ScriptIsClean(n, st.env, st.tests);
    CleanKeepsOne(n, Script(st.env, st.tests), |Issued(st)|);
  }

  /** At every step of every history of starts, with any markers and any restarts in between,
      at most one of the two interfaces is configured. */
  lemma OneInterfaceAtATime(boot: Net, starts: seq<Start>, m: nat)
    requires AtMostOne(boot) && m <= |History(starts)|
    ensures AtMostOne(ExecAll(boot, History(starts)[..m]))
  {
    HistoryIsClean(boot, starts);
    CleanKeepsOne(boot, History(starts), m);
  }

  // ---------- disallowed interfaces ----------

  predicate Raises(c: Command, i: Iface) {
    c == LinkUp(i) || c == V4On(i) || c == V6On(i)
  }

  /** A disallowed interface is never brought up or configured, at any step of any run, and a
      complete run leaves its link down. */
  lemma DisallowedStaysDown(n: Net, env: Env, tests: seq<bool>, i: Iface)
    requires Disallowed(env, i)
    ensures forall c :: c in Script(env, tests) ==> !Raises(c, i)
    ensures !PortOf(ExecAll(n, Script(env, tests)), i).up
  {
    if Disallowed(env, Other(i)) {
      assert [LinkDown(Ethernet), LinkDown(Wifi)][1..] == [LinkDown(Wifi)];
    } else {
      var down, cs := [LinkDown(i)], Try(Other(i), false);
      assert Script(env, tests) == down + cs;
      ExecConcat(n, down, cs);
      NotRaised(Exec(n, LinkDown(i)), cs, i);
    }
  }

  lemma {:induction false} NotRaised(n: Net, cs: seq<Command>, i: Iface)
    requires !PortOf(n, i).up && forall c :: c in cs ==> !Raises(c, i)
    ensures !PortOf(ExecAll(n, cs), i).up
    decreases |cs|
  {
    if cs != [] {
      assert cs[0] in cs && forall c :: c in cs[1..] ==> c in cs;
      NotRaised(Exec(n, cs[0]), cs[1..], i);
    }
  }

  // ---------- where the script ends ----------

  /** The state a run that ends on `i` leaves: `i` is up, configured and marked active, and the
      other interface is not configured. */
  predicate Settled(n: Net, i: Iface) {
    PortOf(n, i) == Port(true, true, true) && !Configured(n, Other(i)) && n.active == i
  }

  lemma TrySettles(n: Net, i: Iface, dropWifi: bool)
    ensures Settled(ExecAll(n, Try(i, dropWifi)), i)
  {
    var a, n1 := [MarkActive(i), LinkUp(i)], Exec(Exec(n, MarkActive(i)), LinkUp(i));
    var b, n2 := a + Deconfigure(Other(i)), Exec(Exec(n1, V4Off(Other(i))), V6Off(Other(i)));
    CleanPair(n, MarkActive(i), LinkUp(i));
    CleanPair(n1, V4Off(Other(i)), V6Off(Other(i)));
    CleanPair(n2, V6On(i), V4On(i));
    ExecConcat(n, a, Deconfigure(Other(i)));
    ExecConcat(n, b, Configure(i));
    ExecConcat(n, b + Configure(i), if dropWifi && i == Ethernet then [LinkDown(Wifi)] else []);
  }

  lemma {:induction false} LoopSettles(n: Net, i: Iface, mayDropWifi: bool, tests: seq<bool>)
    requires LoopEnd(i, tests).Some?
    ensures Settled(ExecAll(n, Loop(i, mayDropWifi, tests)), LoopEnd(i, tests).value)
    decreases |tests|
  {
    if tests[0] {
      TrySettles(n, i, mayDropWifi);
    } else {
      ExecConcat(n, Try(i, false), Loop(Other(i), mayDropWifi, tests[1..]));
      LoopSettles(ExecAll(n, Try(i, false)), Other(i), mayDropWifi, tests[1..]);
    }
  }

  lemma RunsSettle(n: Net, env: Env, tests: seq<bool>)
    requires Ending(env, tests).Some?
    ensures Settled(ExecAll(n, Script(env, tests)), Ending(env, tests).value)
  {
    var i := Ending(env, tests).value;
    if env.ethDisallowed || env.wifiDisallowed || !env.carrier || !env.pniEnabled {
      var front :=
        if Disallowed(env, Other(i)) then [LinkDown(Other(i))] else if !env.carrier then [] else [LinkUp(Wifi)];
      assert Script(env, tests) == front + Try(i, false);
      ExecConcat(n, front, Try(i, false));
      TrySettles(ExecAll(n, front), i, false);
    } else {
      var front := PniFront(env);
      ExecConcat(n, front, Loop(Preferred(env), env.mayDropWifi, tests));
      LoopSettles(ExecAll(n, front), Preferred(env), env.mayDropWifi, tests);
    }
  }

  /** Index of the first successful try, or the number of tries. */
  function FirstPass(tests: seq<bool>): (k: nat)
    ensures k <= |tests| && (k < |tests| ==> tests[k]) && forall j :: 0 <= j < k ==> !tests[j]
  {
    if tests == [] || tests[0] then 0 else 1 + FirstPass(tests[1..])
  }

  /** The loop ends exactly at the first success, on the preferred interface if that is the first
      try of its round, and on the other only if the preferred one failed in that same round. */
  lemma {:induction false} EndsOnFirstPass(pni: Iface, tests: seq<bool>)
    ensures var k := FirstPass(tests);
            && (LoopEnd(pni, tests) == None <==> k == |tests|)
            && (LoopEnd(pni, tests) == Some(pni) <==> k < |tests| && k % 2 == 0)
            && (LoopEnd(pni, tests) == Some(Other(pni)) <==> k < |tests| && k % 2 == 1 && !tests[k - 1])
    decreases |tests|
  {
    if tests != [] && !tests[0] {
      EndsOnFirstPass(Other(pni), tests[1..]);
      var k := FirstPass(tests[1..]);
      assert k < |tests[1..]| && k % 2 == 0 ==> !tests[k];
    }
  }

  // ---------- what a run leaves, by the environment ----------

  lemma TryLinks(n: Net, i: Iface, dropWifi: bool)
    ensures var n' := ExecAll(n, Try(i, dropWifi));
            if i == Wifi then n'.wifi.up && n'.eth.up == n.eth.up
            else n'.eth.up && n'.wifi.up == (n.wifi.up && !dropWifi)
  {
    var a, n1 := [MarkActive(i), LinkUp(i)], Exec(Exec(n, MarkActive(i)), LinkUp(i));
    var b, n2 := a + Deconfigure(Other(i)), Exec(Exec(n1, V4Off(Other(i))), V6Off(Other(i)));
    CleanPair(n, MarkActive(i), LinkUp(i));
    CleanPair(n1, V4Off(Other(i)), V6Off(Other(i)));
    CleanPair(n2, V6On(i), V4On(i));
    ExecConcat(n, a, Deconfigure(Other(i)));
    ExecConcat(n, b, Configure(i));
    ExecConcat(n, b + Configure(i), if dropWifi && i == Ethernet then [LinkDown(Wifi)] else []);
  }

  /** A loop that ends on Ethernet takes the Wi-Fi link down if it may, and otherwise leaves it up if it
      was, or if Wi-Fi was tried. */
  lemma {:induction false} LoopWifiLink(n: Net, i: Iface, mayDropWifi: bool, tests: seq<bool>)
    requires LoopEnd(i, tests) == Some(Ethernet)
    ensures var n' := ExecAll(n, Loop(i, mayDropWifi, tests));
            (mayDropWifi ==> !n'.wifi.up) && (!mayDropWifi && (n.wifi.up || i == Wifi) ==> n'.wifi.up)
    decreases |tests|
  {
    TryLinks(n, i, tests[0] && mayDropWifi);
    if !tests[0] {
      ExecConcat(n, Try(i, false), Loop(Other(i), mayDropWifi, tests[1..]));
      LoopWifiLink(ExecAll(n, Try(i, false)), Other(i), mayDropWifi, tests[1..]);
    }
  }

  /** The commands of a try, in order. */
  lemma LiteralTries()
    ensures Try(Ethernet, false) == [MarkActive(Ethernet), LinkUp(Ethernet), V4Off(Wifi), V6Off(Wifi), V6On(Ethernet),
                                     V4On(Ethernet)]
    ensures Try(Ethernet, true) == Try(Ethernet, false) + [LinkDown(Wifi)]
    ensures Try(Wifi, false) == [MarkActive(Wifi), LinkUp(Wifi), V4Off(Ethernet), V6Off(Ethernet), V6On(Wifi),
                                 V4On(Wifi)]
    ensures Try(Wifi, true) == Try(Wifi, false)
  {
  }

  /** With an interface disallowed, no carrier, or the feature off: which interface a run leaves active
      and configured, and which links. */
  lemma FixedChoice(n: Net, env: Env, tests: seq<bool>)
    ensures var n' := ExecAll(n, Script(env, tests));
            if env.ethDisallowed && env.wifiDisallowed then !n'.eth.up && !n'.wifi.up
            else if env.wifiDisallowed then Settled(n', Ethernet) && !n'.wifi.up
            else if env.ethDisallowed then Settled(n', Wifi) && !n'.eth.up
            else if !env.carrier then Settled(n', Wifi)
            else !env.pniEnabled ==> Settled(n', Ethernet) && n'.wifi.up
  {
    if env.ethDisallowed && env.wifiDisallowed {
      CleanPair(n, LinkDown(Ethernet), LinkDown(Wifi));
    } else if env.wifiDisallowed {
      AfterLink(n, LinkDown(Wifi), Ethernet);
    } else if env.ethDisallowed {
      AfterLink(n, LinkDown(Ethernet), Wifi);
    } else if !env.carrier {
      TrySettles(n, Wifi, false);
    } else if !env.pniEnabled {
      AfterLink(n, LinkUp(Wifi), Ethernet);
    }
  }

  lemma AfterLink(n: Net, c: Command, i: Iface)
    ensures var n' := ExecAll(n, [c] + Try(i, false));
            Settled(n', i) && PortOf(n', Other(i)).up == PortOf(Exec(n, c), Other(i)).up
  {
    ExecConcat(n, [c], Try(i, false));
    assert [c][1..] == [];
    TrySettles(Exec(n, c), i, false);
    TryLinks(Exec(n, c), i, false);
  }

  /** With the feature on and both interfaces allowed and a carrier: the run ends at the first try that
      passes, on Wi-Fi or Ethernet as the preference and the parity of that try say. Wi-Fi is left up
      unless Ethernet won and may take it down. */
  lemma PreferredChoice(n: Net, env: Env, tests: seq<bool>)
    requires !env.ethDisallowed && !env.wifiDisallowed && env.carrier && env.pniEnabled
    requires FirstPass(tests) < |tests|
    ensures var n' := ExecAll(n, Script(env, tests));
            var onWifi := env.preferWifi == (FirstPass(tests) % 2 == 0);
            Settled(n', if onWifi then Wifi else Ethernet) && (n'.wifi.up <==> onWifi || !env.mayDropWifi)
  {
    var pni := if env.preferWifi then Wifi else Ethernet;
    EndsOnFirstPass(pni, tests);
    RunsSettle(n, env, tests);
    var front, loop := PniFront(env), Loop(pni, env.mayDropWifi, tests);
    ExecConcat(n, front, loop);
    if LoopEnd(pni, tests) == Some(Ethernet) {
      assert front != [] ==> front[1..] == [];
      LoopWifiLink(ExecAll(n, front), pni, env.mayDropWifi, tests);
    }
  }
}
