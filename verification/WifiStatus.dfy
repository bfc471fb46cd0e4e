/**
 The callback state machine of the Wi-Fi HAL: every connect or disconnect callback
 ends in wifi_status_action, which updates the adapter status, the lost-and-found
 flags and two static switches, and broadcasts events on the bus.

 `StatusMonitor.StatusAction` follows the switch statement of the source. `Act` is a
 table-driven specification of one callback, and the lemmas are about whole runs.
 */
module WifiStatus {
  import opened Basics

  datatype HalCode =
    | HalSuccess
    | HalConnecting
    | HalDisconnecting
    | HalNotFound
    | HalTimeoutExpired
    | HalDevDisconnect
    | HalSsidChanged
    | HalConnectionLost
    | HalConnectionFailed
    | HalConnectionInterrupted
    | HalInvalidCredentials
    | HalAuthFailed
    | HalUnrecoverable
    | HalUnknown
    | HalOther(n: int)  // any code the switch does not name

  datatype Action = OnConnect | OnDisconnect

  datatype AdapterStatus = Uninstalled | Disconnected | Connecting | Connected | Failed

  datatype LnfStatus = LnfUninitialized | LnfInProgress | ConnectedLnf | ConnectedPrivate

  datatype ErrorCode =
    | ErrSsidChanged
    | ErrConnectionLost
    | ErrConnectionFailed
    | ErrConnectionInterrupted
    | ErrInvalidCredentials
    | ErrNoSsid
    | ErrUnknown
    | ErrAuthFailed

  datatype Broadcast =
    | StateChanged(state: AdapterStatus)
    | SsidsChanged
    | OnError(code: ErrorCode)

  /** One HAL callback. `lnf` is what laf_is_lnfssid says of `ssid`; `stored` is what a
      following lastConnectedSSID reads from the store, if it succeeds. */
  datatype Callback = Callback(code: HalCode, ssid: string, lnf: bool, action: Action, stored: Option<string>)

  const WIFI_NETWORK_CHANGE := 20
  const LNF_TO_PRIVATE := 21

  /** Everything wifi_status_action reads or writes. */
  datatype Wifi = Wifi(
    adapter: AdapterStatus,
    lnf: LnfStatus,
    isLaf: bool,               // isLAFCurrConnectedssid
    stop: bool,                // bStopLNFWhileDisconnected
    privLost: bool,            // bPrivConnectionLost
    prevCode: HalCode,         // connCode_prev_state
    lnf2priv: nat,             // static switchLnf2Priv
    priv2lnf: nat,             // static switchPriv2Lnf
    savedSsid: string,         // savedWiFiConnList.ssidSession.ssid
    broadcasts: seq<Broadcast>,
    refreshes: seq<int>)       // reasons of the XRE session refreshes

  /** Static initialisation: the enumerator zero of the HAL codes is HalSuccess. */
  const BOOT := Wifi(Uninstalled, LnfUninitialized, false, false, false, HalSuccess, 0, 0, "", [], [])

  // ---------- specification of one callback ----------

  /** The codes whose effects are skipped when the previous callback had the same code. */
  predicate Guarded(code: HalCode) {
    !(code.HalSuccess? || code.HalConnecting? || code.HalInvalidCredentials? || code.HalAuthFailed?)
  }

  predicate Debounced(w: Wifi, cb: Callback) {
    Guarded(cb.code) && w.prevCode == cb.code
  }

  predicate AsksForLnf(code: HalCode) {
    code.HalNotFound? || code.HalSsidChanged? || code.HalInvalidCredentials? || code.HalAuthFailed?
  }

  predicate PrivateConnect(cb: Callback) {
    cb.code == HalSuccess && cb.action == OnConnect && !cb.lnf
  }

  predicate LnfConnect(cb: Callback) {
    cb.code == HalSuccess && cb.action == OnConnect && cb.lnf
  }

  function EventsOf(cb: Callback): seq<Broadcast> {
    match cb.code
    case HalSuccess => [StateChanged(if cb.action == OnConnect then Connected else Disconnected)]
    case HalConnecting => [StateChanged(Connecting)]
    case HalDisconnecting => []
    case HalNotFound => [OnError(ErrNoSsid)]
    case HalTimeoutExpired => [OnError(ErrUnknown)]
    case HalDevDisconnect => [OnError(ErrConnectionLost)]
    case HalSsidChanged => [SsidsChanged, OnError(ErrSsidChanged)]
    case HalConnectionLost => [OnError(ErrConnectionLost)]
    case HalConnectionFailed => [OnError(ErrConnectionFailed)]
    case HalConnectionInterrupted => [OnError(ErrConnectionInterrupted)]
    case HalInvalidCredentials => [OnError(ErrInvalidCredentials)]
    case HalAuthFailed => [OnError(ErrAuthFailed)]
    case HalUnrecoverable => [StateChanged(Failed)]
    case HalUnknown => [OnError(ErrUnknown)]
    case HalOther(_) => [OnError(ErrUnknown)]
  }

  function AdapterAfter(was: AdapterStatus, cb: Callback): AdapterStatus {
    match cb.code
    case HalSuccess => if cb.action == OnConnect then Connected else Disconnected
    case HalConnecting => Connecting
    case HalUnrecoverable => Failed
    case HalDisconnecting => was
    case HalUnknown => was
    case HalOther(_) => was
    case _ => Disconnected
  }

  function RefreshesOf(w: Wifi, cb: Callback): seq<int> {
    if !PrivateConnect(cb) then []
    else
      (if w.savedSsid != cb.ssid then [WIFI_NETWORK_CHANGE] else []) +
      (if w.lnf2priv != 0 then [LNF_TO_PRIVATE] else [])
  }

  /** One callback, on a box with or without the lost-and-found feature configured. */
  function Act(w: Wifi, cb: Callback, lostFound: bool): Wifi {
    if Debounced(w, cb) then w
    else
      var shared := w.(adapter := AdapterAfter(w.adapter, cb),
                       prevCode := cb.code,
                       broadcasts := w.broadcasts + EventsOf(cb),
                       refreshes := w.refreshes + RefreshesOf(w, cb),
                       privLost := w.privLost || (lostFound && AsksForLnf(cb.code)));
      if PrivateConnect(cb) then
        shared.(lnf := ConnectedPrivate, isLaf := false, stop := false,
                lnf2priv := 0, priv2lnf := if w.priv2lnf != 0 then w.priv2lnf else 1,
                savedSsid := if cb.stored.Some? then cb.stored.value else w.savedSsid)
      else if LnfConnect(cb) then
        shared.(lnf := ConnectedLnf, isLaf := true,
                lnf2priv := if w.lnf2priv != 0 then w.lnf2priv else 1, priv2lnf := 0)
      else shared
  }

  // ---------- the callback itself ----------

  class StatusMonitor {
    const lostFound: bool  // confProp.wifiProps.bEnableLostFound
    var adapter: AdapterStatus
    var lnf: LnfStatus
    var isLaf: bool
    var stop: bool
    var privLost: bool
    var prevCode: HalCode
    var switchLnf2Priv: nat
    var switchPriv2Lnf: nat
    var savedSsid: string
    var broadcasts: seq<Broadcast>
    var refreshes: seq<int>

    ghost function View(): Wifi
      reads this
    {
      Wifi(adapter, lnf, isLaf, stop, privLost, prevCode, switchLnf2Priv, switchPriv2Lnf,
           savedSsid, broadcasts, refreshes)
    }

    constructor (lostFound: bool)
      ensures this.lostFound == lostFound
      ensures View() == BOOT
    {
      this.lostFound := lostFound;
      adapter, lnf, isLaf, stop, privLost := Uninstalled, LnfUninitialized, false, false, false;
      prevCode, switchLnf2Priv, switchPriv2Lnf := HalSuccess, 0, 0;
      savedSsid, broadcasts, refreshes := "", [], [];
    }

    /** The flags and refreshes of a connect to a private network. */
    method ConnectPrivate(ssid: string, stored: Option<string>)
      modifies this`isLaf, this`lnf, this`stop, this`savedSsid, this`switchPriv2Lnf, this`switchLnf2Priv, this`refreshes
      ensures !isLaf && lnf == ConnectedPrivate && !stop
      ensures savedSsid == if stored.Some? then stored.value else old(savedSsid)
      ensures switchLnf2Priv == 0
      ensures switchPriv2Lnf == if old(switchPriv2Lnf) != 0 then old(switchPriv2Lnf) else 1
      ensures refreshes == old(refreshes)
                           + (if old(savedSsid) != ssid then [WIFI_NETWORK_CHANGE] else [])
                           + (if old(switchLnf2Priv) != 0 then [LNF_TO_PRIVATE] else [])
    {
      if savedSsid != ssid {
        refreshes := refreshes + [WIFI_NETWORK_CHANGE];
      }
      isLaf := false;
      lnf := ConnectedPrivate;
      if stop {
        stop := false;
      }
      if stored.Some? {
        savedSsid := stored.value;
      }
      if switchPriv2Lnf == 0 {
        switchPriv2Lnf := 1;
      }
      if switchLnf2Priv != 0 {
        refreshes := refreshes + [LNF_TO_PRIVATE];
        switchLnf2Priv := 0;
      }
    }

    /** The flags of a connect to a lost-and-found network. */
    method ConnectLnf()
      modifies this`isLaf, this`lnf, this`switchPriv2Lnf, this`switchLnf2Priv
      ensures isLaf && lnf == ConnectedLnf && switchPriv2Lnf == 0
      ensures switchLnf2Priv == if old(switchLnf2Priv) != 0 then old(switchLnf2Priv) else 1
    {
      isLaf := true;
      if switchLnf2Priv == 0 {
        switchLnf2Priv := 1;
      }
      if switchPriv2Lnf != 0 {
        switchPriv2Lnf := 0;
      }
      lnf := ConnectedLnf;
    }

    /** The connected half of the HalSuccess case, up to the event it raises. */
    method Connect(cb: Callback)
      requires cb.code == HalSuccess && cb.action == OnConnect
      modifies this
      ensures prevCode == old(prevCode) && broadcasts == old(broadcasts)
      ensures View().(prevCode := HalSuccess, broadcasts := broadcasts + EventsOf(cb))
           == Act(old(View()), cb, lostFound)
    {
      ghost var w := View();
      adapter := Connected;
      if !cb.lnf {
        ConnectPrivate(cb.ssid, cb.stored);
      } else {
        ConnectLnf();
      }
      assert refreshes == w.refreshes + RefreshesOf(w, cb);
    }

    /** All cases of the switch but HalSuccess, and the event they raise. */
    method Otherwise(cb: Callback) returns (asked: bool)
      requires cb.code != HalSuccess
      modifies `adapter, `broadcasts, `privLost
      ensures asked <==> lostFound && AsksForLnf(cb.code) && !Debounced(old(View()), cb)
      ensures privLost == (old(privLost) || asked)
      ensures adapter == if Debounced(old(View()), cb) then old(adapter) else AdapterAfter(old(adapter), cb)
      ensures broadcasts == old(broadcasts) + if Debounced(old(View()), cb) then [] else EventsOf(cb)
    {
      asked := false;
      var event: Option<Broadcast> := None;
      match cb.code {
        case HalConnecting =>
          adapter := Connecting;
          event := Some(StateChanged(Connecting));
        case HalDisconnecting =>
        case HalNotFound =>
          if prevCode != cb.code {
            event := Some(OnError(ErrNoSsid));
            adapter := Disconnected;
            asked := LosePrivate();
          }
        case HalTimeoutExpired =>
          if prevCode != cb.code {
            event := Some(OnError(ErrUnknown));
            adapter := Disconnected;
          }
        case HalDevDisconnect =>
          if prevCode != cb.code {
            event := Some(OnError(ErrConnectionLost));
            adapter := Disconnected;
          }
        case HalSsidChanged =>
          if prevCode != cb.code {
            adapter := Disconnected;
            asked := LosePrivate();
            broadcasts := broadcasts + [SsidsChanged];
            event := Some(OnError(ErrSsidChanged));
          }
        case HalConnectionLost =>
          if prevCode != cb.code {
            adapter := Disconnected;
            event := Some(OnError(ErrConnectionLost));
          }
        case HalConnectionFailed =>
          if prevCode != cb.code {
            adapter := Disconnected;
            event := Some(OnError(ErrConnectionFailed));
          }
        case HalConnectionInterrupted =>
          if prevCode != cb.code {
            adapter := Disconnected;
            event := Some(OnError(ErrConnectionInterrupted));
          }
        case HalInvalidCredentials =>
          adapter := Disconnected;
          asked := LosePrivate();
          event := Some(OnError(ErrInvalidCredentials));
        case HalAuthFailed =>
          adapter := Disconnected;
          asked := LosePrivate();
          event := Some(OnError(ErrAuthFailed));
        case HalUnrecoverable =>
          if prevCode != cb.code {
            adapter := Failed;
            event := Some(StateChanged(Failed));
          }
        case _ =>
          if prevCode != cb.code {
            event := Some(OnError(ErrUnknown));
          }
      }
      if event.Some? {
        broadcasts := broadcasts + [event.value];
      }
    }

    /** wifi_status_action. `asked` says whether lnfConnectPrivCredentials was called. */
    method StatusAction(cb: Callback) returns (asked: bool)
      modifies this
      ensures View() == Act(old(View()), cb, lostFound)
      ensures asked <==> lostFound && AsksForLnf(cb.code) && !Debounced(old(View()), cb)
    {
      asked := false;
      if cb.code == HalSuccess && cb.action == OnConnect {
        Connect(cb);
        broadcasts := broadcasts + [StateChanged(Connected)];
      } else if cb.code == HalSuccess {
        adapter := Disconnected;
        broadcasts := broadcasts + [StateChanged(Disconnected)];
        assert refreshes + [] == refreshes;
      } else {
        asked := Otherwise(cb);
        assert refreshes + [] == refreshes;
      }
      prevCode := cb.code;
    }

    /** Marks the private connection as lost when lost-and-found is configured. */
    method LosePrivate() returns (asked: bool)
      modifies `privLost
      ensures asked == lostFound
      ensures privLost == (old(privLost) || lostFound)
    {
      asked := lostFound;
      if lostFound {
        privLost := true;
      }
    }
  }

  // ---------- runs of callbacks ----------

  function Run(w: Wifi, cbs: seq<Callback>, lostFound: bool): Wifi {
    if cbs == [] then w
    else Act(Run(w, cbs[..|cbs| - 1], lostFound), cbs[|cbs| - 1], lostFound)
  }

  lemma RunSnoc(w: Wifi, cbs: seq<Callback>, cb: Callback, lostFound: bool)
    ensures Run(w, cbs + [cb], lostFound) == Act(Run(w, cbs, lostFound), cb, lostFound)
  {
    assert (cbs + [cb])[..|cbs|] == cbs;
  }

  function LastCode(first: HalCode, cbs: seq<Callback>): HalCode {
    if cbs == [] then first else cbs[|cbs| - 1].code
  }

  lemma ActRemembersCode(w: Wifi, cb: Callback, lostFound: bool)
    ensures Act(w, cb, lostFound).prevCode == cb.code
  {
  }

  lemma PrevCodeIsLastCode(w: Wifi, cbs: seq<Callback>, lostFound: bool)
    ensures Run(w, cbs, lostFound).prevCode == LastCode(w.prevCode, cbs)
  {
  }

  /** `cbs` without every callback that repeats the code of the callback before it. */
  function DropRepeats(first: HalCode, cbs: seq<Callback>): seq<Callback> {
    if cbs == [] then []
    else
      var init, last := cbs[..|cbs| - 1], cbs[|cbs| - 1];
      if Guarded(last.code) && last.code == LastCode(first, init) then DropRepeats(first, init)
      else DropRepeats(first, init) + [last]
  }

  /** Debouncing is invisible: deleting all repeats at once gives the same state and the
      same broadcast and refresh logs. */
  lemma {:induction false} RepeatsAreInvisible(w: Wifi, cbs: seq<Callback>, lostFound: bool)
    ensures Run(w, DropRepeats(w.prevCode, cbs), lostFound) == Run(w, cbs, lostFound)
  {
    if cbs != [] {
      var init, last := cbs[..|cbs| - 1], cbs[|cbs| - 1];
      RepeatsAreInvisible(w, init, lostFound);
      PrevCodeIsLastCode(w, init, lostFound);
      var kept := DropRepeats(w.prevCode, init);
      if !(Guarded(last.code) && last.code == LastCode(w.prevCode, init)) {
        assert (kept + [last])[..|kept|] == kept;
      }
    }
  }

  // ---------- network switches ----------

  datatype Network = LnfNetwork | PrivateNetwork

  /** The networks of the successful connects, in order. */
  function Connects(cbs: seq<Callback>): seq<Network> {
    if cbs == [] then []
    else
      var init, last := cbs[..|cbs| - 1], cbs[|cbs| - 1];
      Connects(init) + NetworkOf(last)
  }

  function NetworkOf(cb: Callback): seq<Network> {
    if PrivateConnect(cb) then [PrivateNetwork] else if LnfConnect(cb) then [LnfNetwork] else []
  }

  /** How often a private connect directly follows a lost-and-found connect. */
  function LnfToPrivate(ns: seq<Network>): nat {
    if |ns| < 2 then 0
    else
      LnfToPrivate(ns[..|ns| - 1]) +
      (if ns[|ns| - 2] == LnfNetwork && ns[|ns| - 1] == PrivateNetwork then 1 else 0)
  }

  function Count(reason: int, rs: seq<int>): nat {
    if rs == [] then 0 else Count(reason, rs[..|rs| - 1]) + (if rs[|rs| - 1] == reason then 1 else 0)
  }

  lemma {:induction false} CountConcat(reason: int, a: seq<int>, b: seq<int>)
    ensures Count(reason, a + b) == Count(reason, a) + Count(reason, b)
  {
    if b == [] {
      assert a + b == a;
    } else {
      assert (a + b)[..|a + b| - 1] == a + b[..|b| - 1];
      CountConcat(reason, a, b[..|b| - 1]);
    }
  }

  /** isLaf and the two switches agree on the kind of the last successful connect. */
  predicate FlagsFollow(w: Wifi, ns: seq<Network>) {
    if ns == [] then !w.isLaf && w.lnf2priv == 0 && w.priv2lnf == 0
    else if ns[|ns| - 1] == LnfNetwork then w.isLaf && w.lnf2priv == 1 && w.priv2lnf == 0
    else !w.isLaf && w.lnf2priv == 0 && w.priv2lnf == 1
  }

  /** One callback keeps the flags in step with the connects, and logs reason 21 exactly
      when it completes a switch from lost-and-found to private. */
  lemma SwitchStep(w: Wifi, cb: Callback, ns: seq<Network>, lostFound: bool)
    requires FlagsFollow(w, ns)
    requires Count(LNF_TO_PRIVATE, w.refreshes) == LnfToPrivate(ns)
    ensures var ns' := ns + NetworkOf(cb);
            FlagsFollow(Act(w, cb, lostFound), ns') &&
            Count(LNF_TO_PRIVATE, Act(w, cb, lostFound).refreshes) == LnfToPrivate(ns')
  {
    FlagsStep(w, cb, ns, lostFound);
    RefreshStep(w, cb);
    PairsStep(ns, cb);
    CountConcat(LNF_TO_PRIVATE, w.refreshes, RefreshesOf(w, cb));
    assert [] + w.refreshes == w.refreshes && w.refreshes + [] == w.refreshes;
  }

  lemma FlagsStep(w: Wifi, cb: Callback, ns: seq<Network>, lostFound: bool)
    requires FlagsFollow(w, ns)
    ensures FlagsFollow(Act(w, cb, lostFound), ns + NetworkOf(cb))
    ensures Act(w, cb, lostFound).refreshes == w.refreshes + RefreshesOf(w, cb)
  {
    if !PrivateConnect(cb) && !LnfConnect(cb) {
      assert ns + [] == ns;
    }
  }

  lemma RefreshStep(w: Wifi, cb: Callback)
    ensures Count(LNF_TO_PRIVATE, RefreshesOf(w, cb)) == if PrivateConnect(cb) && w.lnf2priv != 0 then 1 else 0
  {
    CountConcat(LNF_TO_PRIVATE, if w.savedSsid != cb.ssid then [WIFI_NETWORK_CHANGE] else [],
                if w.lnf2priv != 0 then [LNF_TO_PRIVATE] else []);
  }

  lemma PairsStep(ns: seq<Network>, cb: Callback)
    ensures LnfToPrivate(ns + NetworkOf(cb)) ==
            LnfToPrivate(ns) + if PrivateConnect(cb) && ns != [] && ns[|ns| - 1] == LnfNetwork then 1 else 0
  {
    var ns' := ns + NetworkOf(cb);
    if PrivateConnect(cb) || LnfConnect(cb) {
      assert ns'[..|ns'| - 1] == ns;
    } else {
      assert ns' == ns;
    }
  }

  lemma {:induction false} SwitchesAreCounted(cbs: seq<Callback>, lostFound: bool)
    ensures var w := Run(BOOT, cbs, lostFound);
            FlagsFollow(w, Connects(cbs)) && Count(LNF_TO_PRIVATE, w.refreshes) == LnfToPrivate(Connects(cbs))
  {
    if cbs != [] {
      var init, last := cbs[..|cbs| - 1], cbs[|cbs| - 1];
      SwitchesAreCounted(init, lostFound);
      SwitchStep(Run(BOOT, init, lostFound), last, Connects(init), lostFound);
    }
  }

  // ---------- what subscribers can reconstruct ----------

  /** The adapter status a subscriber infers from the last event it received. */
  function Inferred(b: Broadcast): AdapterStatus {
    match b
    case StateChanged(st) => st
    case SsidsChanged => Disconnected
    case OnError(_) => Disconnected
  }

  predicate Last(w: Wifi, b: Broadcast) {
    |w.broadcasts| > 0 && w.broadcasts[|w.broadcasts| - 1] == b
  }

  lemma EventsMatchStatus(cb: Callback, was: AdapterStatus)
    ensures var es := EventsOf(cb);
            if es == [] then AdapterAfter(was, cb) == was
            else es[|es| - 1] != OnError(ErrUnknown) ==> AdapterAfter(was, cb) == Inferred(es[|es| - 1])
  {
  }

  /** One callback: a new last event fixes the status, and no event leaves it alone. */
  lemma CallbackTellsStatus(w: Wifi, cb: Callback, lostFound: bool, b: Broadcast)
    requires Last(Act(w, cb, lostFound), b) && b != OnError(ErrUnknown)
    requires Last(w, b) ==> w.adapter == Inferred(b)
    ensures Act(w, cb, lostFound).adapter == Inferred(b)
  {
    EventsMatchStatus(cb, w.adapter);
    if !Debounced(w, cb) {
      var bs := w.broadcasts + EventsOf(cb);
      assert Act(w, cb, lostFound).broadcasts == bs && Act(w, cb, lostFound).adapter == AdapterAfter(w.adapter, cb);
    }
  }

  /** After every run, the last event fixes the adapter status unless it is OnError(ErrUnknown). */
  lemma {:induction false} SubscribersKnowTheStatus(cbs: seq<Callback>, lostFound: bool, b: Broadcast)
    requires Last(Run(BOOT, cbs, lostFound), b) && b != OnError(ErrUnknown)
    ensures Run(BOOT, cbs, lostFound).adapter == Inferred(b)
  {
    var init, last := cbs[..|cbs| - 1], cbs[|cbs| - 1];
    var w := Run(BOOT, init, lostFound);
    if Last(w, b) {
      SubscribersKnowTheStatus(init, lostFound, b);
    }
    CallbackTellsStatus(w, last, lostFound, b);
  }

  /** The exception is real: two runs with the same whole event log, ending in
      OnError(ErrUnknown), leave the adapter in different states. */
  lemma UnknownErrorsHideTheStatus(lostFound: bool) returns (p: seq<Callback>, q: seq<Callback>)
    ensures Run(BOOT, p, lostFound).broadcasts == Run(BOOT, q, lostFound).broadcasts
    ensures Last(Run(BOOT, p, lostFound), OnError(ErrUnknown))
    ensures Run(BOOT, p, lostFound).adapter != Run(BOOT, q, lostFound).adapter
  {
    var up := Callback(HalSuccess, "home", false, OnConnect, None);
    var timeout := Callback(HalTimeoutExpired, "home", false, OnConnect, None);
    var unknown := Callback(HalUnknown, "home", false, OnConnect, None);
    p, q := [up] + [timeout], [up] + [unknown];
    TwoCallbacks(BOOT, up, timeout, lostFound);
    TwoCallbacks(BOOT, up, unknown, lostFound);
    TimeoutLooksUnknown(Act(BOOT, up, lostFound), timeout, unknown, lostFound);
  }

  lemma TwoCallbacks(w: Wifi, a: Callback, b: Callback, lostFound: bool)
    ensures Run(w, [a] + [b], lostFound) == Act(Act(w, a, lostFound), b, lostFound)
  {
    RunSnoc(w, [], a, lostFound);
    assert [] + [a] == [a];
    RunSnoc(w, [a], b, lostFound);
  }

  /** From any connected state, a timeout and an unknown error announce the same, and only the
      timeout disconnects. */
  lemma TimeoutLooksUnknown(w: Wifi, timeout: Callback, unknown: Callback, lostFound: bool)
    requires timeout.code.HalTimeoutExpired? && unknown.code.HalUnknown?
    requires w.adapter == Connected && w.prevCode != timeout.code && w.prevCode != unknown.code
    ensures var w1, w2 := Act(w, timeout, lostFound), Act(w, unknown, lostFound);
            && w1.broadcasts == w2.broadcasts && Last(w1, OnError(ErrUnknown))
            && w1.adapter == Disconnected && w2.adapter == Connected
  {
  }
}
