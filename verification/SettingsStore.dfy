/**
 setIPSettings: switching an interface between automatic and manual configuration, with one
 settings file per interface.
 */
module SettingsStore {
  import opened Basics
  import opened Netmask
  import opened IpSettings

  datatype Iface = Ethernet | Wifi | Unsupported

  /** A request, with what the environment answers while it is served. */
  datatype Request = Request(
    iface: Iface,
    ifaceKnown: bool,   // the environment names the interface
    autoconfig: bool,
    featureOn: bool,    // manual IP settings are enabled
    ipv4: bool,         // the requested version is ipv4
    settings: Settings,
    removable: bool,    // remove succeeds
    openable: bool)     // fopen for writing succeeds

  datatype Disk = Disk(eth: Option<string>, wifi: Option<string>, reconfigured: seq<Iface>)

  const FRESH := Disk(None, None, [])

  function FileOf(d: Disk, i: Iface): Option<string> {
    if i == Ethernet then d.eth else d.wifi
  }

  function WithFile(d: Disk, i: Iface, file: Option<string>): Disk {
    if i == Ethernet then d.(eth := file) else d.(wifi := file)
  }

  function Reconfigure(d: Disk, i: Iface): Disk {
    d.(reconfigured := d.reconfigured + [i])
  }

  predicate Acceptable(r: Request) {
    r.featureOn && r.ipv4 && Validated(r.settings)
  }

  function After(d: Disk, r: Request): (Disk, bool) {
    var file := FileOf(d, r.iface);
    if r.iface == Unsupported || !r.ifaceKnown then (d, false)
    else if r.autoconfig then
      if file.None? then (d, true)
      else if !r.removable then (d, false)
      else (Reconfigure(WithFile(d, r.iface, None), r.iface), true)
    else if !Acceptable(r) then (d, false)
    else if file.Some? && ReadFrom(BLANK, file.value) == Some(r.settings) then (d, true)
    else if r.openable then (Reconfigure(WithFile(d, r.iface, Some(Render(r.settings))), r.iface), true)
    else (Reconfigure(if r.removable then WithFile(d, r.iface, None) else d, r.iface), false)
  }

  class Store {
    var eth: Option<string>
    var wifi: Option<string>
    var reconfigured: seq<Iface>

    ghost function View(): Disk
      reads this
    {
      Disk(eth, wifi, reconfigured)
    }

    ghost predicate Valid()
      reads this
    {
      (eth.Some? ==> Readable(eth.value)) && (wifi.Some? ==> Readable(wifi.value))
    }

    constructor ()
      ensures Valid() && View() == FRESH
    {
      eth, wifi, reconfigured := None, None, [];
    }

    method Put(ethernet: bool, file: Option<string>)
      modifies `eth, `wifi
      ensures View() == WithFile(old(View()), if ethernet then Ethernet else Wifi, file)
    {
      if ethernet {
        eth := file;
      } else {
        wifi := file;
      }
    }

    /** The address checks of a manual request, in order. */
    static method Check(s: Settings) returns (valid: bool)
      ensures valid <==> Validated(s)
    {
      if Pton(s.ip).None? {
        return false;
      }
      if Pton(s.mask).None? || !ValidNetmask(Pton(s.mask).value) {
        return false;
      }
      if Pton(s.gateway).None? {
        return false;
      }
      if Pton(s.dns1).None? {
        return false;
      }
      if s.dns2 != "" && Pton(s.dns2).None? {
        return false;
      }
      return true;
    }

    /** ip_settings_compare with the settings in a file. */
    static method SameAsFile(text: string, s: Settings) returns (same: bool)
      requires Readable(text)
      ensures same <==> ReadFrom(BLANK, text) == Some(s)
    {
      var current := ReadFile(text);
      same := current.ip == s.ip && current.mask == s.mask && current.gateway == s.gateway
              && current.dns1 == s.dns1 && current.dns2 == s.dns2;
    }

    /** setIPSettings, on files it can read. */
    method SetIPSettings(r: Request) returns (ok: bool)
      requires Valid()
      modifies this
      ensures (View(), ok) == After(old(View()), r)
      ensures Fits(r.settings) ==> Valid()
    {
      if r.iface == Unsupported || !r.ifaceKnown {
        return false;
      }
      var ethernet := r.iface == Ethernet;
      var file := if ethernet then eth else wifi;
      var autoconfig := file.None?;
      if r.autoconfig {
        if autoconfig {
          return true;
        } else if !r.removable {
          return false;
        }
        Put(ethernet, None);
        reconfigured := reconfigured + [r.iface];
        return true;
      }
      if !r.featureOn || !r.ipv4 {
        return false;
      }
      var valid := Check(r.settings);
      if !valid {
        return false;
      }
      if !autoconfig {
        var same := SameAsFile(file.value, r.settings);
        if same {
          return true;
        }
      }
      ok := r.openable;
      if ok {
        RenderedIsReadable(r.settings);
        Put(ethernet, Some(Render(r.settings)));
      } else if r.removable {
        Put(ethernet, None);
      }
      reconfigured := reconfigured + [r.iface];
    }
  }

  lemma RenderedIsReadable(s: Settings)
    ensures Validated(s) && Fits(s) ==> Readable(Render(s))
  {
    if Validated(s) && Fits(s) {
      ValidatedIsWritable(s);
      ReadBack(s);
    }
  }

  // ---------- one request ----------

  /** Automatic configuration: it succeeds exactly if the interface is known and its file, if any, can
      be removed, and then there is no file and one more reconfiguration, or none if there was no file.
      Otherwise nothing changes. */
  lemma AutoconfigIff(d: Disk, r: Request)
    requires r.autoconfig
    ensures var (d', ok) := After(d, r);
            var had := FileOf(d, r.iface).Some?;
            && (ok <==> r.iface != Unsupported && r.ifaceKnown && (!had || r.removable))
            && (ok ==> FileOf(d', r.iface) == None
                       && d'.reconfigured == d.reconfigured + if had then [r.iface] else [])
            && (!ok ==> d' == d)
            && (r.iface != Ethernet ==> d'.eth == d.eth) && (r.iface == Ethernet ==> d'.wifi == d.wifi)
  {
    assert d.reconfigured + [] == d.reconfigured;
  }

  /** A manual request that is refused changes nothing: on an unknown interface, with the feature off,
      for another version than ipv4, or with settings that do not pass validation. */
  lemma RefusedRequests(d: Disk, r: Request)
    requires !r.autoconfig
    requires r.iface == Unsupported || !r.ifaceKnown || !r.featureOn || !r.ipv4 || !Validated(r.settings)
    ensures After(d, r) == (d, false)
  {
  }

  /** Any other manual request: settings that are stored already are left alone, and others are
      written and the interface reconfigured. A write that fails removes the file, if it can, and
      reconfigures all the same. Only the file of that interface is touched. */
  lemma AcceptedRequests(d: Disk, r: Request)
    requires !r.autoconfig && r.iface != Unsupported && r.ifaceKnown && r.featureOn && r.ipv4 && Validated(r.settings)
    ensures var (d', ok) := After(d, r);
            var file, file' := FileOf(d, r.iface), FileOf(d', r.iface);
            if file.Some? && ReadFrom(BLANK, file.value) == Some(r.settings) then d' == d && ok
            else
              && ok == r.openable && d'.reconfigured == d.reconfigured + [r.iface]
              && file' == (if ok then Some(Render(r.settings)) else if r.removable then None else file)
              && (r.iface != Ethernet ==> d'.eth == d.eth) && (r.iface == Ethernet ==> d'.wifi == d.wifi)
  {
  }

  // ---------- every run ----------

  /** A file that holds settings which passed validation. */
  ghost predicate FromValidated(file: Option<string>) {
    file.Some? ==> exists s :: Validated(s) && Fits(s) && file.value == Render(s)
  }

  ghost predicate AllValidated(d: Disk) {
    FromValidated(d.eth) && FromValidated(d.wifi)
  }

  lemma RequestKeepsValidated(d: Disk, r: Request)
    requires AllValidated(d) && Fits(r.settings)
    ensures AllValidated(After(d, r).0)
  {
    if Acceptable(r) {
      assert FromValidated(Some(Render(r.settings)));
    }
  }

  function Served(rs: seq<Request>): Disk {
    if rs == [] then FRESH else After(Served(rs[..|rs| - 1]), rs[|rs| - 1]).0
  }

  /** A file that holds validated settings with a mask of prefix length 1 to 32. */
  ghost predicate HoldsPrefix(text: string) {
    exists s, p: nat :: Validated(s) && text == Render(s) && HasPrefix(Pton(s.mask).value, 32, p)
  }

  /** Starting with no file, over every run of requests, every stored file holds settings that
      passed validation, and the mask in it has a prefix length from 1 to 32. */
  lemma {:induction false} FilesAreAlwaysValidated(rs: seq<Request>)
    requires forall i :: 0 <= i < |rs| ==> Fits(rs[i].settings)
    ensures AllValidated(Served(rs))
    ensures forall i :: FileOf(Served(rs), i).Some? ==> HoldsPrefix(FileOf(Served(rs), i).value)
  {
    if rs != [] {
      var n := |rs| - 1;
      FilesAreAlwaysValidated(rs[..n]);
      RequestKeepsValidated(Served(rs[..n]), rs[n]);
    }
    forall i | FileOf(Served(rs), i).Some?
      ensures HoldsPrefix(FileOf(Served(rs), i).value)
    {
      assert FromValidated(FileOf(Served(rs), i));
      var s :| Validated(s) && Fits(s) && FileOf(Served(rs), i).value == Render(s);
      TrickFindsPrefixes(Pton(s.mask).value);
      var p: nat :| HasPrefix(Pton(s.mask).value, 32, p);
    }
  }

  /** Every file of every run can be read, so the request handler never sees a null key. */
  lemma FilesAreAlwaysReadable(rs: seq<Request>, i: Iface)
    requires forall k :: 0 <= k < |rs| ==> Fits(rs[k].settings)
    ensures FileOf(Served(rs), i).Some? ==> Readable(FileOf(Served(rs), i).value)
  {
    FilesAreAlwaysValidated(rs);
    var file := FileOf(Served(rs), i);
    if file.Some? {
      var s :| Validated(s) && Fits(s) && file.value == Render(s);
      RenderedIsReadable(s);
    }
  }

  /** What a stored file reads as, compared with settings that passed validation. */
  lemma StoredFileReadsAs(file: Option<string>, t: Settings)
    requires file.Some? && FromValidated(file)
    ensures t.dns2 == "" ==> ReadFrom(BLANK, file.value) != Some(t)
    ensures Validated(t) && Fits(t) && file.value == Render(t) && t.dns2 != ""
            ==> ReadFrom(BLANK, file.value) == Some(t)
  {
    var s :| Validated(s) && Fits(s) && file.value == Render(s);
    ValidatedIsWritable(s);
    ReadBack(s);
    if Validated(t) && Fits(t) && file.value == Render(t) {
      ValidatedIsWritable(t);
      ReadBack(t);
    }
  }

  /** Repeating a manual request that succeeded, however the disk behaves the second time,
      changes nothing exactly when it names a secondary DNS server. Without one the file is
      written and the interface reconfigured every time. */
  lemma RepeatIsIdleIffSecondaryDns(d: Disk, r: Request, removable: bool, openable: bool)
    requires AllValidated(d) && Fits(r.settings) && !r.autoconfig
    ensures var d1, again := After(d, r).0, r.(removable := removable, openable := openable);
            After(d, r).1 ==>
              && (After(d1, again).0 == d1 <==> r.settings.dns2 != "")
              && (r.settings.dns2 != "" ==> After(d1, again).1)
  {
    if After(d, r).1 {
      var d1, again := After(d, r).0, r.(removable := removable, openable := openable);
      RequestKeepsValidated(d, r);
      var file := FileOf(d1, r.iface);
      assert file.Some? && FromValidated(file);
      StoredFileReadsAs(file, r.settings);
      if r.settings.dns2 == "" {
        var d2 := After(d1, again).0;
        assert |d2.reconfigured| == |d1.reconfigured| + 1;
      }
    }
  }
}
