/**
 Manual IP settings: requests are validated, written to a settings file line by line, and
 compared with what is read back from that file.
 */
module IpSettings {
  import opened Basics
  import opened Netmask

  datatype Field = IpAddress | Mask | Gateway | PrimaryDns | SecondaryDns

  datatype Settings = Settings(ip: string, mask: string, gateway: string, dns1: string, dns2: string)

  const MAX_FIELD := 45   // INET6_ADDRSTRLEN without the terminator
  const MAX_LINE := 511   // what fgets takes at once
  const NULL_TEXT := "(null)"
  const BLANK := Settings("", "", "", "", "")

  function KeyOf(f: Field): string {
    match f
    case IpAddress => "ipaddress"
    case Mask => "netmask"
    case Gateway => "gateway"
    case PrimaryDns => "primarydns"
    case SecondaryDns => "secondarydns"
  }

  function Get(s: Settings, f: Field): string {
    match f
    case IpAddress => s.ip
    case Mask => s.mask
    case Gateway => s.gateway
    case PrimaryDns => s.dns1
    case SecondaryDns => s.dns2
  }

  function Set(s: Settings, f: Field, v: string): Settings {
    match f
    case IpAddress => s.(ip := v)
    case Mask => s.(mask := v)
    case Gateway => s.(gateway := v)
    case PrimaryDns => s.(dns1 := v)
    case SecondaryDns => s.(dns2 := v)
  }

  // ---------- inet_pton for IPv4 ----------

  predicate Digit(c: char) {
    '0' <= c <= '9'
  }

  /** 256 to the power of `n`, for up to four octets. */
  function Cap(n: nat): nat
    requires n <= 4
  {
    if n == 0 then 1 else if n == 1 then 0x100 else if n == 2 then 0x1_0000 else if n == 3 then 0x100_0000 else WORD
  }

  /** The rest of a dotted quad. `octets` have been started, the last one has the value `cur` and
      is open if `open`; the closed ones make up `acc`. */
  function Quad(s: string, octets: nat, open: bool, cur: nat, acc: nat): (r: Option<Uint32>)
    requires octets <= 4 && (open ==> octets > 0) && cur < 0x100
    requires acc < Cap(if open then octets - 1 else octets)
  {
    if s == "" then if octets == 4 && open then Some(acc * 0x100 + cur) else None
    else if Digit(s[0]) then
      var d := (s[0] - '0') as int;
      if open then
        if cur == 0 || cur * 10 + d > 255 then None else Quad(s[1..], octets, true, cur * 10 + d, acc)
      else if octets == 4 then None
      else Quad(s[1..], octets + 1, true, d, acc)
    else if s[0] == '.' && open && octets < 4 then Quad(s[1..], octets, false, 0, acc * 0x100 + cur)
    else None
  }

  function Pton(s: string): Option<Uint32> {
    Quad(s, 0, false, 0, 0)
  }

  /** Text that strtok does not cut. */
  predicate Plain(s: string) {
    forall i :: 0 <= i < |s| ==> s[i] != '=' && s[i] != '\n'
  }

  lemma {:induction false} QuadIsPlain(s: string, octets: nat, open: bool, cur: nat, acc: nat)
    requires octets <= 4 && (open ==> octets > 0) && cur < 0x100
    requires acc < Cap(if open then octets - 1 else octets)
    requires Quad(s, octets, open, cur, acc).Some?
    ensures Plain(s)
  {
    if s != "" {
      if Digit(s[0]) {
        var d := (s[0] - '0') as int;
        if open {
          QuadIsPlain(s[1..], octets, true, cur * 10 + d, acc);
        } else {
          QuadIsPlain(s[1..], octets + 1, true, d, acc);
        }
      } else {
        QuadIsPlain(s[1..], octets, false, 0, acc * 0x100 + cur);
      }
    }
  }

  /** The checks setIPSettings makes before it stores anything. */
  predicate Validated(s: Settings) {
    && Pton(s.ip).Some?
    && Pton(s.mask).Some? && ValidNetmask(Pton(s.mask).value)
    && Pton(s.gateway).Some?
    && Pton(s.dns1).Some?
    && (s.dns2 == "" || Pton(s.dns2).Some?)
  }

  /** The fields of the request are C strings in fixed buffers. */
  predicate Fits(s: Settings) {
    forall f :: |Get(s, f)| <= MAX_FIELD
  }

  /** What validation gives the file format: plain fields, of which only the last may be empty. */
  predicate Writable(s: Settings) {
    forall f :: Plain(Get(s, f)) && |Get(s, f)| <= MAX_FIELD && (Get(s, f) == "" ==> f == SecondaryDns)
  }

  lemma ValidatedIsWritable(s: Settings)
    requires Validated(s) && Fits(s)
    ensures Writable(s)
  {
    QuadIsPlain(s.ip, 0, false, 0, 0);
    QuadIsPlain(s.mask, 0, false, 0, 0);
    QuadIsPlain(s.gateway, 0, false, 0, 0);
    QuadIsPlain(s.dns1, 0, false, 0, 0);
    if s.dns2 != "" {
      QuadIsPlain(s.dns2, 0, false, 0, 0);
    }
  }

  // ---------- the file ----------

  function Line(f: Field, v: string): string {
    KeyOf(f) + "=" + v + "\n"
  }

  /** ip_settings_file_write. */
  function Render(s: Settings): string {
    Line(IpAddress, s.ip) + (Line(Mask, s.mask) + (Line(Gateway, s.gateway)
      + (Line(PrimaryDns, s.dns1) + (Line(SecondaryDns, s.dns2) + ""))))
  }

  predicate Delimiter(c: char) {
    c == '=' || c == '\n'
  }

  /** How many characters from the start are delimiters, or are not. */
  function Span(s: string, delimiters: bool): (n: nat)
    ensures n <= |s|
    ensures forall i :: 0 <= i < n ==> Delimiter(s[i]) == delimiters
    ensures n < |s| ==> Delimiter(s[n]) != delimiters
  {
    if s == "" || Delimiter(s[0]) != delimiters then 0 else 1 + Span(s[1..], delimiters)
  }

  /** strtok: the next token and what is left for the next call, or no token. */
  function Token(s: string): Option<(string, string)> {
    var t := s[Span(s, true)..];
    if t == "" then None
    else
      var n := Span(t, false);
      Some((t[..n], if n < |t| then t[n + 1..] else ""))
  }

  /** How much fgets takes: a line with its end, but never more than the buffer holds. */
  function Chunk(text: string): (n: nat)
    requires text != ""
    ensures 1 <= n <= |text|
  {
    var n := NewLine(text);
    if n + 1 <= MAX_LINE && n < |text| then n + 1 else if |text| <= MAX_LINE then |text| else MAX_LINE
  }

  function NewLine(s: string): (n: nat)
    ensures n <= |s|
    ensures forall i :: 0 <= i < n ==> s[i] != '\n'
    ensures n < |s| ==> s[n] == '\n'
  {
    if s == "" || s[0] == '\n' then 0 else 1 + NewLine(s[1..])
  }

  function FieldFor(key: string): Option<Field> {
    if key == "ipaddress" then Some(IpAddress)
    else if key == "netmask" then Some(Mask)
    else if key == "gateway" then Some(Gateway)
    else if key == "primarydns" then Some(PrimaryDns)
    else if key == "secondarydns" then Some(SecondaryDns)
    else None
  }

  /** snprintf into a field buffer; a missing value prints as a null pointer does. */
  function Stored(value: Option<(string, string)>): string {
    var v := if value.Some? then value.value.0 else NULL_TEXT;
    if |v| <= MAX_FIELD then v else v[..MAX_FIELD]
  }

  /** One line of the file; no result where the source compares a null key. */
  function ReadLine(s: Settings, line: string): Option<Settings> {
    var key := Token(line);
    if key.None? then None
    else
      var f := FieldFor(key.value.0);
      Some(if f.None? then s else Set(s, f.value, Stored(Token(key.value.1))))
  }

  function ReadFrom(s: Settings, text: string): Option<Settings>
    decreases |text|
  {
    if text == "" then Some(s)
    else
      var n := Chunk(text);
      var s' := ReadLine(s, text[..n]);
      if s'.None? then None else ReadFrom(s'.value, text[n..])
  }

  /** The files ip_settings_file_read can read: no line without a key. */
  predicate Readable(text: string) {
    ReadFrom(BLANK, text).Some?
  }

  /** ip_settings_file_read. */
  method ReadFile(text: string) returns (s: Settings)
    requires Readable(text)
    ensures ReadFrom(BLANK, text) == Some(s)
  {
    s := BLANK;
    var rest := text;
    while rest != ""
      invariant ReadFrom(s, rest) == ReadFrom(BLANK, text)
      decreases |rest|
    {
      var n := Chunk(rest);
      var line := rest[..n];
      var key := Token(line);
      var value := Token(key.value.1);
      var f := FieldFor(key.value.0);
      if f.Some? {
        s := Set(s, f.value, Stored(value));
      }
      rest := rest[n..];
    }
  }

  // ---------- reading back what was written ----------

  lemma {:induction false} SpanStops(a: string, c: char, b: string, delimiters: bool)
    requires forall i :: 0 <= i < |a| ==> Delimiter(a[i]) == delimiters
    requires Delimiter(c) != delimiters
    ensures Span(a + [c] + b, delimiters) == |a|
  {
    var s := a + [c] + b;
    var n := Span(s, delimiters);
    assert s[|a|] == c && forall i :: 0 <= i < |a| ==> s[i] == a[i];
  }

  /** A token is read up to the delimiter after it. */
  lemma TokenOf(a: string, c: char, b: string)
    requires a != "" && Plain(a) && Delimiter(c)
    ensures Token(a + [c] + b) == Some((a, b))
  {
    var s := a + [c] + b;
    assert Span(s, true) == 0 by {
      assert s[0] == a[0];
    }
    assert s[0..] == s;
    SpanStops(a, c, b, false);
    assert s[..|a|] == a && s[|a| + 1..] == b;
  }

  lemma NoTokenOf(c: char)
    requires Delimiter(c)
    ensures Token([c]) == None
  {
    assert [c][1..] == "";
  }

  lemma KeysArePlain(f: Field)
    ensures KeyOf(f) != "" && Plain(KeyOf(f)) && |KeyOf(f)| <= 12 && FieldFor(KeyOf(f)) == Some(f)
  {
  }

  /** What a written value reads back as. */
  function ReadsAs(v: string): string {
    if v == "" then NULL_TEXT else v
  }

  lemma ValueToken(v: string)
    requires Plain(v) && |v| <= MAX_FIELD
    ensures Stored(Token(v + "\n")) == ReadsAs(v)
  {
    if v != "" {
      assert v + "\n" == v + ['\n'] + "";
      TokenOf(v, '\n', "");
    } else {
      assert v + "\n" == ['\n'];
      NoTokenOf('\n');
      assert |NULL_TEXT| == 6;
    }
  }

  lemma LineTokens(key: string, v: string)
    requires key != "" && Plain(key)
    ensures Token(key + "=" + v + "\n") == Some((key, v + "\n"))
  {
    assert key + "=" + v + "\n" == key + ['='] + (v + "\n");
    TokenOf(key, '=', v + "\n");
  }

  lemma ReadOneLine(s: Settings, f: Field, v: string)
    requires Plain(v) && |v| <= MAX_FIELD
    ensures ReadLine(s, Line(f, v)) == Some(Set(s, f, ReadsAs(v)))
  {
    KeysArePlain(f);
    var key := KeyOf(f);
    LineTokens(key, v);
    ValueToken(v);
  }

  lemma ChunkOfLine(f: Field, v: string, rest: string)
    requires Plain(v) && |v| <= MAX_FIELD
    ensures var text := Line(f, v) + rest;
            text != "" && text[..Chunk(text)] == Line(f, v) && text[Chunk(text)..] == rest
  {
    KeysArePlain(f);
    var text := Line(f, v) + rest;
    var body := KeyOf(f) + "=" + v;
    assert forall i :: 0 <= i < |body| ==> text[i] == body[i] != '\n';
    assert text[|body|] == '\n';
    assert NewLine(text) == |body|;
    assert |Line(f, v)| == |body| + 1;
  }

  lemma ReadLineThenRest(s: Settings, f: Field, v: string, rest: string)
    requires Plain(v) && |v| <= MAX_FIELD
    ensures ReadFrom(s, Line(f, v) + rest) == ReadFrom(Set(s, f, ReadsAs(v)), rest)
  {
    ChunkOfLine(f, v, rest);
    ReadOneLine(s, f, v);
  }

  /** A written file reads back as what was written, except that an empty secondary DNS comes
      back as the text of a null pointer. */
  lemma ReadBack(s: Settings)
    requires Writable(s)
    ensures ReadFrom(BLANK, Render(s)) == Some(s.(dns2 := ReadsAs(s.dns2)))
  {
    assert Plain(Get(s, IpAddress)) && Plain(Get(s, Mask)) && Plain(Get(s, Gateway)) && Plain(Get(s, PrimaryDns));
    assert Plain(Get(s, SecondaryDns));
    var last := Line(SecondaryDns, s.dns2) + "";
    var fourth := Line(PrimaryDns, s.dns1) + last;
    var third := Line(Gateway, s.gateway) + fourth;
    var second := Line(Mask, s.mask) + third;
    ReadLineThenRest(BLANK, IpAddress, s.ip, second);
    var s1 := BLANK.(ip := s.ip);
    ReadLineThenRest(s1, Mask, s.mask, third);
    var s2 := s1.(mask := s.mask);
    ReadLineThenRest(s2, Gateway, s.gateway, fourth);
    var s3 := s2.(gateway := s.gateway);
    ReadLineThenRest(s3, PrimaryDns, s.dns1, last);
    var s4 := s3.(dns1 := s.dns1);
    ReadLineThenRest(s4, SecondaryDns, s.dns2, "");
  }
}
