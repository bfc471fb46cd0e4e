/**
 Which texts inet_pton accepts as IPv4 addresses, and what the settings file looks like.
 */
module IpText {
  import opened Basics
  import opened Netmask
  import opened IpSettings

  // ---------- dotted quads ----------

  function DigitOf(d: nat): char
    requires d < 10
  {
    "0123456789"[d]
  }

  /** A number in decimal, without leading zeros. */
  function Dec(n: nat): (s: string)
    ensures s != ""
  {
    if n < 10 then [DigitOf(n)] else Dec(n / 10) + [DigitOf(n % 10)]
  }

  function Dotted(a: nat, b: nat, c: nat, d: nat): string {
    Dec(a) + ("." + (Dec(b) + ("." + (Dec(c) + ("." + (Dec(d) + ""))))))
  }

  lemma DigitValue(d: nat)
    requires d < 10
    ensures Digit(DigitOf(d)) && (DigitOf(d) - '0') as int == d
  {
  }

  lemma DigitText(c: char)
    requires Digit(c)
    ensures var d := (c - '0') as int; 0 <= d < 10 && DigitOf(d) == c
  {
  }

  /** Reading the digits of a number opens an octet with that value. */
  lemma {:induction false} ReadOctet(n: nat, rest: string, octets: nat, acc: nat)
    requires n <= 255 && octets < 4 && acc < Cap(octets)
    ensures Quad(Dec(n) + rest, octets, false, 0, acc) == Quad(rest, octets + 1, true, n, acc)
    decreases n
  {
    if n < 10 {
      DigitValue(n);
      assert (Dec(n) + rest)[1..] == rest;
    } else {
      var c := DigitOf(n % 10);
      DigitValue(n % 10);
      ReadOctet(n / 10, [c] + rest, octets, acc);
      assert Dec(n) + rest == Dec(n / 10) + ([c] + rest);
      assert ([c] + rest)[1..] == rest;
    }
  }

  lemma ReadDot(rest: string, octets: nat, cur: nat, acc: nat)
    requires 0 < octets < 4 && cur <= 255 && acc < Cap(octets - 1)
    ensures Quad("." + rest, octets, true, cur, acc) == Quad(rest, octets, false, 0, acc * 0x100 + cur)
  {
    assert ("." + rest)[1..] == rest;
  }

  predicate Octets(a: nat, b: nat, c: nat, d: nat) {
    a <= 255 && b <= 255 && c <= 255 && d <= 255
  }

  /** Every dotted quad of octets is accepted, and stands for the number it spells. */
  lemma DottedIsRead(a: nat, b: nat, c: nat, d: nat)
    requires Octets(a, b, c, d)
    ensures Pton(Dotted(a, b, c, d)) == Some(((a * 0x100 + b) * 0x100 + c) * 0x100 + d)
  {
    var fourth := Dec(d) + "";
    var third := Dec(c) + ("." + fourth);
    var second := Dec(b) + ("." + third);
    var two, three := a * 0x100 + b, (a * 0x100 + b) * 0x100 + c;
    ReadOctetAndDot(a, second, 0, 0);
    ReadOctetAndDot(b, third, 1, a);
    ReadOctetAndDot(c, fourth, 2, two);
    ReadLastOctet(d, three);
  }

  lemma ReadOctetAndDot(n: nat, rest: string, octets: nat, acc: nat)
    requires n <= 255 && octets < 3 && acc < Cap(octets)
    ensures acc * 0x100 + n < Cap(octets + 1)
    ensures Quad(Dec(n) + ("." + rest), octets, false, 0, acc) == Quad(rest, octets + 1, false, 0, acc * 0x100 + n)
  {
    ReadOctet(n, "." + rest, octets, acc);
    ReadDot(rest, octets + 1, n, acc);
  }

  lemma ReadLastOctet(n: nat, acc: nat)
    requires n <= 255 && acc < Cap(3)
    ensures Quad(Dec(n) + "", 3, false, 0, acc) == Some(acc * 0x100 + n)
  {
    ReadOctet(n, "", 3, acc);
  }

  /** An open octet is read up to a dot or the end, and spells a number up to 255. */
  lemma {:induction false} OctetEnds(s: string, octets: nat, cur: nat, acc: nat) returns (n: nat, tail: string)
    requires 0 < octets <= 4 && cur <= 255 && acc < Cap(octets - 1) && Quad(s, octets, true, cur, acc).Some?
    ensures n <= 255 && Dec(cur) + s == Dec(n) + tail && (tail == "" || tail[0] == '.')
    ensures Quad(tail, octets, true, n, acc) == Quad(s, octets, true, cur, acc)
  {
    if s == "" || s[0] == '.' {
      n, tail := cur, s;
    } else {
      var next := DigitIsRead(s, octets, cur, acc);
      n, tail := OctetEnds(s[1..], octets, next, acc);
      DecGrows(cur, s, next);
    }
  }

  lemma DigitIsRead(s: string, octets: nat, cur: nat, acc: nat) returns (next: nat)
    requires 0 < octets <= 4 && cur <= 255 && acc < Cap(octets - 1) && Quad(s, octets, true, cur, acc).Some?
    requires s != "" && s[0] != '.'
    ensures Digit(s[0]) && cur > 0 && next == cur * 10 + (s[0] - '0') as int && next <= 255
    ensures Quad(s[1..], octets, true, next, acc) == Quad(s, octets, true, cur, acc)
  {
    next := cur * 10 + (s[0] - '0') as int;
  }

  lemma DecGrows(cur: nat, s: string, next: nat)
    requires cur > 0 && s != "" && Digit(s[0]) && next == cur * 10 + (s[0] - '0') as int
    ensures Dec(cur) + s == Dec(next) + s[1..]
  {
    DigitText(s[0]);
    assert Dec(next) == Dec(cur) + [s[0]];
    assert s == [s[0]] + s[1..];
  }

  /** An accepted text begins with an octet; after it comes a dot, or the end if it was the fourth. */
  lemma OctetComesFirst(s: string, octets: nat, acc: nat) returns (n: nat, rest: string)
    requires octets < 4 && acc < Cap(octets) && Quad(s, octets, false, 0, acc).Some?
    ensures n <= 255
    ensures octets < 3 ==> s == Dec(n) + ("." + rest)
                           && Quad(rest, octets + 1, false, 0, acc * 0x100 + n) == Quad(s, octets, false, 0, acc)
    ensures octets == 3 ==> s == Dec(n) + rest && rest == "" && Quad(s, octets, false, 0, acc) == Some(acc * 0x100 + n)
  {
    DigitText(s[0]);
    var d := (s[0] - '0') as int;
    var tail;
    n, tail := OctetEnds(s[1..], octets + 1, d, acc);
    assert Dec(d) + s[1..] == s;
    if tail == "" {
      rest := "";
    } else {
      rest := tail[1..];
      assert tail == "." + rest;
    }
  }

  /** Nothing else is accepted. */
  lemma ReadIsDotted(s: string) returns (a: nat, b: nat, c: nat, d: nat)
    requires Pton(s).Some?
    ensures Octets(a, b, c, d) && s == Dotted(a, b, c, d)
    ensures Pton(s) == Some(((a * 0x100 + b) * 0x100 + c) * 0x100 + d)
  {
    var r1, r2, r3, r4;
    a, r1 := OctetComesFirst(s, 0, 0);
    b, r2 := OctetComesFirst(r1, 1, a);
    var two := a * 0x100 + b;
    c, r3 := OctetComesFirst(r2, 2, two);
    var three := two * 0x100 + c;
    d, r4 := OctetComesFirst(r3, 3, three);
    assert Pton(s) == Some(three * 0x100 + d);
  }

  /** inet_pton accepts exactly the dotted quads of octets 0 to 255 without leading zeros. */
  lemma AcceptedIffDotted(s: string)
    ensures Pton(s).Some? <==> exists a, b, c, d :: Octets(a, b, c, d) && s == Dotted(a, b, c, d)
  {
    if Pton(s).Some? {
      var a, b, c, d := ReadIsDotted(s);
      assert Octets(a, b, c, d) && s == Dotted(a, b, c, d);
    }
    if a, b, c, d :| Octets(a, b, c, d) && s == Dotted(a, b, c, d) {
      DottedIsRead(a, b, c, d);
    }
  }

  // ---------- the settings file ----------

  /** The file is these five lines. */
  lemma FileText(s: Settings)
    ensures Render(s) ==
            ("ipaddress=" + s.ip + "\n") + (("netmask=" + s.mask + "\n") + (("gateway=" + s.gateway + "\n")
            + (("primarydns=" + s.dns1 + "\n") + ("secondarydns=" + s.dns2 + "\n"))))
  {
    LineText(IpAddress, "ipaddress", s.ip);
    LineText(Mask, "netmask", s.mask);
    LineText(Gateway, "gateway", s.gateway);
    LineText(PrimaryDns, "primarydns", s.dns1);
    LineText(SecondaryDns, "secondarydns", s.dns2);
    Assoc("", Line(SecondaryDns, s.dns2), "");
  }

  lemma LineText(f: Field, key: string, v: string)
    requires KeyOf(f) == key
    ensures Line(f, v) == (key + "=") + v + "\n"
  {
  }

  /** A value longer than its field is cut to 45 characters, and a missing one reads as "(null)". */
  lemma StoredText(value: Option<(string, string)>)
    ensures value.None? ==> Stored(value) == "(null)"
    ensures value.Some? && |value.value.0| <= 45 ==> Stored(value) == value.value.0
    ensures value.Some? && |value.value.0| > 45 ==> Stored(value) == value.value.0[..45]
  {
  }

  // ---------- reading any file ----------

  /** A line of up to 510 characters is read whole, and a longer one in pieces of 511. */
  lemma LinesAreRead(line: string, rest: string)
    requires forall i :: 0 <= i < |line| ==> line[i] != '\n'
    ensures |line| <= 510 ==> Chunk(line + "\n" + rest) == |line| + 1
    ensures |line| > 510 ==> Chunk(line + "\n" + rest) == 511
  {
    var text := line + "\n" + rest;
    assert text[|line|] == '\n' && forall i :: 0 <= i < |line| ==> text[i] == line[i];
    assert NewLine(text) == |line|;
  }

  function Cut(v: string): string {
    if |v| <= 45 then v else v[..45]
  }

  /** A line with one of the five keys sets that field and no other, and any other key is ignored. */
  lemma KeysAreRead(s: Settings, key: string, v: string)
    requires key != "" && Plain(key) && v != "" && Plain(v)
    ensures ReadLine(s, key + "=" + v + "\n") ==
            Some(if key == "ipaddress" then s.(ip := Cut(v))
                 else if key == "netmask" then s.(mask := Cut(v))
                 else if key == "gateway" then s.(gateway := Cut(v))
                 else if key == "primarydns" then s.(dns1 := Cut(v))
                 else if key == "secondarydns" then s.(dns2 := Cut(v))
                 else s)
  {
    LineTokens(key, v);
    assert v + "\n" == v + ['\n'] + "";
    TokenOf(v, '\n', "");
    StoredText(Token(v + "\n"));
  }
}
