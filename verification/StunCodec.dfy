/**
 The classic STUN message format (sections 11.1, 11.2 and 11.2.1 of RFC 3489) as the client
 prints and parses it, byte by byte.
 */
module StunCodec {
  import opened Basics

  type Byte = n: int | 0 <= n < 0x100
  type U16 = n: int | 0 <= n < 0x1_0000
  type U32 = n: int | 0 <= n < 0x1_0000_0000

  datatype Attribute = Attribute(kind: U16, length: U16, value: seq<Byte>)

  datatype Header = Header(kind: U16, length: U16, id: seq<Byte>)

  datatype Message = Message(header: Header, attrs: seq<Attribute>)

  const BINDING_RESPONSE: U16 := 0x0101
  const MAPPED_ADDRESS: U16 := 0x0001
  const ID_SIZE := 16
  const HEADER_SIZE := 20

  // ---------- numbers in network order ----------

  function U16Bytes(n: U16): seq<Byte> {
    [n / 0x100, n % 0x100]
  }

  function U16At(b: seq<Byte>, i: nat): U16
    requires i + 2 <= |b|
  {
    b[i] as int * 0x100 + b[i + 1]
  }

  function U32Bytes(n: U32): seq<Byte> {
    [n / 0x100 / 0x100 / 0x100, n / 0x100 / 0x100 % 0x100, n / 0x100 % 0x100, n % 0x100]
  }

  function U32At(b: seq<Byte>, i: nat): U32
    requires i + 4 <= |b|
  {
    ((b[i] as int * 0x100 + b[i + 1]) * 0x100 + b[i + 2]) * 0x100 + b[i + 3]
  }

  lemma U32RoundTrip(b: seq<Byte>, i: nat)
    requires i + 4 <= |b|
    ensures U32Bytes(U32At(b, i)) == b[i..i + 4]
  {
    var x: int := b[i];
    LastByte(x, b[i + 1]);
    LastByte(x * 0x100 + b[i + 1], b[i + 2]);
    LastByte((x * 0x100 + b[i + 1]) * 0x100 + b[i + 2], b[i + 3]);
  }

  lemma LastByte(high: int, low: Byte)
    ensures (high * 0x100 + low) / 0x100 == high && (high * 0x100 + low) % 0x100 == low
  {
  }

  // ---------- specification ----------

  function EncodeAttr(a: Attribute): seq<Byte> {
    U16Bytes(a.kind) + U16Bytes(a.length) + a.value
  }

  function EncodeAttrs(attrs: seq<Attribute>): seq<Byte> {
    if attrs == [] then [] else EncodeAttr(attrs[0]) + EncodeAttrs(attrs[1..])
  }

  function EncodeMessage(m: Message): seq<Byte> {
    U16Bytes(m.header.kind) + U16Bytes(m.header.length) + m.header.id + EncodeAttrs(m.attrs)
  }

  /** The attribute section of section 11.2: type, length, and that many bytes, repeated. */
  function ParseAttrs(b: seq<Byte>): Option<seq<Attribute>> {
    if b == [] then Some([])
    else if |b| < 4 || |b| < 4 + U16At(b, 2) then None
    else
      var n := U16At(b, 2);
      var rest := ParseAttrs(b[4 + n..]);
      if rest.None? then None else Some([Attribute(U16At(b, 0), n, b[4..4 + n])] + rest.value)
  }

  predicate WellFramed(b: seq<Byte>) {
    ParseAttrs(b).Some?
  }

  predicate LengthsMatch(attrs: seq<Attribute>) {
    forall i :: 0 <= i < |attrs| ==> attrs[i].length == |attrs[i].value|
  }

  predicate WellFormed(m: Message) {
    |m.header.id| == ID_SIZE && LengthsMatch(m.attrs)
  }

  // ---------- round trips ----------

  lemma {:induction false} ParsedLengthsMatch(b: seq<Byte>)
    requires WellFramed(b)
    ensures LengthsMatch(ParseAttrs(b).value)
  {
    if b != [] {
      ParsedLengthsMatch(b[4 + U16At(b, 2)..]);
    }
  }

  /** One attribute in front of a section parses back to itself and that section. */
  lemma ParseCons(a: Attribute, tail: seq<Byte>)
    requires a.length == |a.value|
    ensures var b := EncodeAttr(a) + tail;
            && |b| >= 4 + a.length && U16At(b, 0) == a.kind && U16At(b, 2) == a.length
            && b[4..4 + a.length] == a.value && b[4 + a.length..] == tail
  {
    var head := EncodeAttr(a);
    assert head[0] == a.kind / 0x100 && head[1] == a.kind % 0x100;
    assert head[2] == a.length / 0x100 && head[3] == a.length % 0x100;
    assert head[4..] == a.value;
  }

  /** Decoding what was encoded gives the same attributes back exactly when every length field
      says the size of its value. */
  lemma {:induction false} AttrsRoundTrip(attrs: seq<Attribute>)
    ensures ParseAttrs(EncodeAttrs(attrs)) == Some(attrs) <==> LengthsMatch(attrs)
  {
    if LengthsMatch(attrs) {
      ParseOfEncode(attrs);
    } else if ParseAttrs(EncodeAttrs(attrs)) == Some(attrs) {
      ParsedLengthsMatch(EncodeAttrs(attrs));
    }
  }

  lemma {:induction false} ParseOfEncode(attrs: seq<Attribute>)
    requires LengthsMatch(attrs)
    ensures ParseAttrs(EncodeAttrs(attrs)) == Some(attrs)
  {
    if attrs != [] {
      ParseOfEncode(attrs[1..]);
      ParseCons(attrs[0], EncodeAttrs(attrs[1..]));
      assert attrs == [attrs[0]] + attrs[1..];
    }
  }

  /** Encoding what was decoded gives the same bytes back, for every well-framed section. */
  lemma {:induction false} EncodeOfParse(b: seq<Byte>)
    requires WellFramed(b)
    ensures EncodeAttrs(ParseAttrs(b).value) == b
  {
    if b != [] {
      var tail := b[4 + U16At(b, 2)..];
      EncodeOfParse(tail);
      EncodeStep(b, tail, ParseAttrs(tail).value);
    }
  }

  lemma EncodeStep(b: seq<Byte>, tail: seq<Byte>, rest: seq<Attribute>)
    requires |b| >= 4 && |b| >= 4 + U16At(b, 2) && tail == b[4 + U16At(b, 2)..] && EncodeAttrs(rest) == tail
    ensures EncodeAttrs([Attribute(U16At(b, 0), U16At(b, 2), b[4..4 + U16At(b, 2)])] + rest) == b
  {
    var n := U16At(b, 2);
    FrontAttr(b);
    EncodeCons(Attribute(U16At(b, 0), n, b[4..4 + n]), rest);
    assert b[..4 + n] + tail == b;
  }

  lemma EncodeCons(a: Attribute, rest: seq<Attribute>)
    ensures EncodeAttrs([a] + rest) == EncodeAttr(a) + EncodeAttrs(rest)
  {
    assert ([a] + rest)[1..] == rest;
  }

  lemma U16RoundTrip(b: seq<Byte>, i: nat)
    requires i + 2 <= |b|
    ensures U16Bytes(U16At(b, i)) == b[i..i + 2]
  {
  }

  lemma FrontAttr(b: seq<Byte>)
    requires |b| >= 4 && |b| >= 4 + U16At(b, 2)
    ensures var n := U16At(b, 2); EncodeAttr(Attribute(U16At(b, 0), n, b[4..4 + n])) == b[..4 + n]
  {
    U16RoundTrip(b, 0);
    U16RoundTrip(b, 2);
    assert b[0..2] + b[2..4] == b[..4];
    assert b[..4] + b[4..4 + U16At(b, 2)] == b[..4 + U16At(b, 2)];
  }

  /** Well-formed messages with the same bytes are the same message. */
  lemma EncodeIsInjective(m1: Message, m2: Message)
    requires WellFormed(m1) && WellFormed(m2) && EncodeMessage(m1) == EncodeMessage(m2)
    ensures m1 == m2
  {
    HeaderBytes(m1);
    HeaderBytes(m2);
    ParseOfEncode(m1.attrs);
    ParseOfEncode(m2.attrs);
  }

  lemma HeaderBytes(m: Message)
    requires |m.header.id| == ID_SIZE
    ensures var b := EncodeMessage(m);
            && |b| >= HEADER_SIZE && U16At(b, 0) == m.header.kind && U16At(b, 2) == m.header.length
            && b[4..HEADER_SIZE] == m.header.id && b[HEADER_SIZE..] == EncodeAttrs(m.attrs)
  {
    var b := EncodeMessage(m);
    assert b[0] == m.header.kind / 0x100 && b[1] == m.header.kind % 0x100;
    assert b[2] == m.header.length / 0x100 && b[3] == m.header.length % 0x100;
  }

  // ---------- the encoder ----------

  /** encoder::encode_u16: two bytes are pushed on the buffer. */
  method EncodeU16(buff: seq<Byte>, n: U16) returns (grown: seq<Byte>)
    ensures grown == buff + U16Bytes(n)
    ensures |grown| == |buff| + 2 && n == 256 * grown[|buff|] as int + grown[|buff| + 1]
  {
    grown := buff + [n / 0x100];
    grown := grown + [n % 0x100];
  }

  /** message::encode. */
  method Encode(m: Message) returns (bytes: seq<Byte>)
    ensures bytes == EncodeMessage(m)
  {
    bytes := [];
    bytes := EncodeU16(bytes, m.header.kind);
    bytes := EncodeU16(bytes, m.header.length);
    ghost var start := bytes;
    var k := 0;
    while k < |m.header.id|
      invariant k <= |m.header.id| && bytes == start + m.header.id[..k]
    {
      bytes := bytes + [m.header.id[k]];
      k := k + 1;
    }
    ghost var all := EncodeMessage(m);
    assert m.header.id[..k] == m.header.id;
    k := 0;
    while k < |m.attrs|
      invariant k <= |m.attrs| && bytes + EncodeAttrs(m.attrs[k..]) == all
    {
      var a := m.attrs[k];
      assert m.attrs[k..][1..] == m.attrs[k + 1..];
      ghost var before := bytes;
      bytes := EncodeU16(bytes, a.kind);
      bytes := EncodeU16(bytes, a.length);
      bytes := bytes + a.value;
      assert bytes == before + EncodeAttr(a);
      Assoc(before, EncodeAttr(a), EncodeAttrs(m.attrs[k + 1..]));
      k := k + 1;
    }
  }

  // ---------- the decoder ----------

  /** decoder::decode_u16. */
  method DecodeU16(buff: seq<Byte>, offset: nat) returns (value: U16, next: nat)
    requires offset + 2 <= |buff|
    ensures value == U16At(buff, offset) && next == offset + 2
    ensures value == 256 * buff[offset] as int + buff[offset + 1]
  {
    value := buff[offset] as int * 0x100 + buff[offset + 1];
    next := offset + 2;
  }

  /** decoder::decode_attr, on a buffer that holds as many bytes as the length field says. */
  method DecodeAttr(buff: seq<Byte>, offset: nat) returns (a: Attribute, next: nat)
    requires offset + 4 <= |buff| && offset + 4 + U16At(buff, offset + 2) <= |buff|
    ensures a.kind == U16At(buff, offset) && a.length == U16At(buff, offset + 2)
    ensures next == offset + 4 + a.length && a.value == buff[offset + 4..next]
  {
    var kind, length;
    kind, next := DecodeU16(buff, offset);
    length, next := DecodeU16(buff, next);
    a := Attribute(kind, length, buff[next..next + length]);
    next := next + |a.value|;
  }

  /** A buffer decode_message can read: the type decides how much of it is touched. */
  predicate Decodable(buff: seq<Byte>) {
    && |buff| >= 4
    && (U16At(buff, 0) == BINDING_RESPONSE ==> |buff| >= 35 && WellFramed(buff[HEADER_SIZE..]))
  }

  /** decode_message steps its offset once per id byte and adds the index again, so the id is
      read with stride two while the offset still ends at the attributes. */
  function StridedId(buff: seq<Byte>): seq<Byte>
    requires |buff| >= 35
  {
    seq(ID_SIZE, i requires 0 <= i < ID_SIZE => buff[4 + 2 * i])
  }

  function Decoded(buff: seq<Byte>): Option<Message>
    requires Decodable(buff)
  {
    if U16At(buff, 0) != BINDING_RESPONSE then None
    else Some(Message(Header(U16At(buff, 0), U16At(buff, 2), StridedId(buff)), ParseAttrs(buff[HEADER_SIZE..]).value))
  }

  /** A printed response decodes to the same message, except for the id. */
  lemma DecodeOfEncode(m: Message)
    requires WellFormed(m) && m.header.kind == BINDING_RESPONSE && |EncodeMessage(m)| >= 35
    ensures var b := EncodeMessage(m);
            && Decodable(b) && Decoded(b) == Some(m.(header := m.header.(id := StridedId(b))))
            && forall i :: 0 <= i < ID_SIZE / 2 ==> StridedId(b)[i] == m.header.id[2 * i]
  {
    HeaderBytes(m);
    var b := EncodeMessage(m);
    assert forall i :: 0 <= i < ID_SIZE ==> b[4 + i] == b[4..HEADER_SIZE][i];
    ParseOfEncode(m.attrs);
  }

  /** decoder::decode_message without an offset argument. */
  method DecodeMessage(buff: seq<Byte>) returns (m: Option<Message>)
    requires Decodable(buff)
    ensures m == Decoded(buff)
  {
    var kind, length, offset;
    kind, offset := DecodeU16(buff, 0);
    length, offset := DecodeU16(buff, offset);
    if kind != BINDING_RESPONSE {
      return None;
    }
    var id: seq<Byte> := [];
    var i := 0;
    while i < ID_SIZE
      invariant 0 <= i <= ID_SIZE && offset == 4 + i
      invariant |id| == i && forall k :: 0 <= k < i ==> id[k] == buff[4 + 2 * k]
    {
      id := id + [buff[offset + i]];
      offset := offset + 1;
      i := i + 1;
    }
    assert id == StridedId(buff);
    var attrs := DecodeAttrs(buff, offset);
    m := Some(Message(Header(kind, length, id), attrs));
  }

  /** The attribute loop of decode_message, which runs to the end of the buffer whatever the
      length field of the header says. */
  method DecodeAttrs(buff: seq<Byte>, start: nat) returns (attrs: seq<Attribute>)
    requires start <= |buff| && WellFramed(buff[start..])
    ensures ParseAttrs(buff[start..]) == Some(attrs)
  {
    attrs := [];
    var offset := start;
    ghost var all := ParseAttrs(buff[start..]).value;
    while offset < |buff|
      invariant start <= offset <= |buff| && WellFramed(buff[offset..])
      invariant attrs + ParseAttrs(buff[offset..]).value == all
    {
      SectionStep(buff, offset);
      var a;
      a, offset := DecodeAttr(buff, offset);
      Assoc(attrs, [a], ParseAttrs(buff[offset..]).value);
      attrs := attrs + [a];
    }
    Assoc(attrs, attrs, []);
  }

  /** The section at `offset` is one attribute followed by a shorter section. */
  lemma SectionStep(buff: seq<Byte>, offset: nat)
    requires offset < |buff| && WellFramed(buff[offset..])
    ensures offset + 4 <= |buff| && offset + 4 + U16At(buff, offset + 2) <= |buff|
    ensures var next := offset + 4 + U16At(buff, offset + 2);
            && WellFramed(buff[next..])
            && ParseAttrs(buff[offset..]).value
               == [Attribute(U16At(buff, offset), U16At(buff, offset + 2), buff[offset + 4..next])]
                  + ParseAttrs(buff[next..]).value
  {
    var b := buff[offset..];
    var n := U16At(b, 2);
    assert U16At(b, 0) == U16At(buff, offset) && n == U16At(buff, offset + 2);
    assert b[4..4 + n] == buff[offset + 4..offset + 4 + n];
    assert b[4 + n..] == buff[offset + 4 + n..];
  }

  lemma NextSection(buff: seq<Byte>, offset: nat)
    requires offset < |buff| && WellFramed(buff[offset..])
    ensures offset + 4 <= |buff| && offset + 4 + U16At(buff, offset + 2) <= |buff|
    ensures WellFramed(buff[offset + 4 + U16At(buff, offset + 2)..])
  {
    SectionStep(buff, offset);
  }

  /** A decoded response prints back to the received bytes exactly when reading the id with
      stride two made no difference. */
  lemma ReprintsIffStrideInvisible(buff: seq<Byte>)
    requires Decodable(buff) && U16At(buff, 0) == BINDING_RESPONSE
    ensures EncodeMessage(Decoded(buff).value) == buff <==>
            forall i :: 0 <= i < ID_SIZE ==> buff[4 + 2 * i] == buff[4 + i]
  {
    var m := Decoded(buff).value;
    HeaderBytes(m);
    EncodeOfParse(buff[HEADER_SIZE..]);
    SameParts(EncodeMessage(m), buff);
    IdsAgree(m.header.id, buff);
  }

  lemma IdsAgree(id: seq<Byte>, buff: seq<Byte>)
    requires |buff| >= 35 && id == StridedId(buff)
    ensures id == buff[4..HEADER_SIZE] <==> forall i :: 0 <= i < ID_SIZE ==> buff[4 + 2 * i] == buff[4 + i]
  {
    forall i | 0 <= i < ID_SIZE
      ensures id[i] == buff[4 + 2 * i] && buff[4..HEADER_SIZE][i] == buff[4 + i]
    {
    }
    if id == buff[4..HEADER_SIZE] {
      forall i | 0 <= i < ID_SIZE
        ensures buff[4 + 2 * i] == buff[4 + i]
      {
        assert id[i] == buff[4..HEADER_SIZE][i];
      }
    }
  }

  /** Buffers with the same numbers in front and the same end differ at most in the id. */
  lemma SameParts(a: seq<Byte>, b: seq<Byte>)
    requires |a| >= HEADER_SIZE && |b| >= HEADER_SIZE
    requires U16At(a, 0) == U16At(b, 0) && U16At(a, 2) == U16At(b, 2) && a[HEADER_SIZE..] == b[HEADER_SIZE..]
    ensures a == b <==> a[4..HEADER_SIZE] == b[4..HEADER_SIZE]
  {
    SameNumbers(a, b);
    assert a == a[..4] + a[4..HEADER_SIZE] + a[HEADER_SIZE..];
    assert b == b[..4] + b[4..HEADER_SIZE] + b[HEADER_SIZE..];
  }

  lemma SameNumbers(a: seq<Byte>, b: seq<Byte>)
    requires |a| >= 4 && |b| >= 4 && U16At(a, 0) == U16At(b, 0) && U16At(a, 2) == U16At(b, 2)
    ensures a[..4] == b[..4]
  {
  }

  // ---------- lookup and address ----------

  /** Index of the first attribute of a type, or the number of attributes. */
  function FirstOf(attrs: seq<Attribute>, kind: U16): (i: nat)
    ensures i <= |attrs|
    ensures i < |attrs| ==> attrs[i].kind == kind
    ensures forall j :: 0 <= j < i ==> attrs[j].kind != kind
  {
    if attrs == [] || attrs[0].kind == kind then 0 else 1 + FirstOf(attrs[1..], kind)
  }

  lemma FirstOfCons(a: Attribute, rest: seq<Attribute>, kind: U16)
    ensures FirstOf([a] + rest, kind) == if a.kind == kind then 0 else 1 + FirstOf(rest, kind)
  {
    assert ([a] + rest)[1..] == rest;
  }

  /** message::find_attribute. */
  method FindAttribute(m: Message, kind: U16) returns (a: Option<Attribute>)
    ensures a.None? ==> forall k :: 0 <= k < |m.attrs| ==> m.attrs[k].kind != kind
    ensures a.Some? ==> var i := FirstOf(m.attrs, kind); i < |m.attrs| && a.value == m.attrs[i] && a.value.kind == kind
  {
    var i := 0;
    while i < |m.attrs|
      invariant i <= |m.attrs|
      invariant forall k :: 0 <= k < i ==> m.attrs[k].kind != kind
      invariant FirstOf(m.attrs, kind) == i + FirstOf(m.attrs[i..], kind)
    {
      if m.attrs[i].kind == kind {
        return Some(m.attrs[i]);
      }
      assert m.attrs[i..][1..] == m.attrs[i + 1..];
      i := i + 1;
    }
    a := None;
  }

  /** An attribute that starts at `o` lies inside the buffer. */
  predicate HoldsAttr(buff: seq<Byte>, o: nat) {
    o + 4 <= |buff| && o + 4 + U16At(buff, o + 2) <= |buff|
  }

  /** Where on the wire, at or after `offset`, the first attribute of a type starts. */
  function FirstOnWire(buff: seq<Byte>, offset: nat, kind: U16): (o: Option<nat>)
    requires offset <= |buff| && WellFramed(buff[offset..])
    ensures o.Some? ==> offset <= o.value && HoldsAttr(buff, o.value)
    decreases |buff| - offset
  {
    if offset == |buff| then None
    else
      NextSection(buff, offset);
      if U16At(buff, offset) == kind then Some(offset)
      else FirstOnWire(buff, offset + 4 + U16At(buff, offset + 2), kind)
  }

  /** The section at `offset` has an attribute that starts at `o`. */
  predicate StartsAt(buff: seq<Byte>, offset: nat, o: nat)
    decreases |buff| - offset
  {
    HoldsAttr(buff, offset) && (o == offset || StartsAt(buff, offset + 4 + U16At(buff, offset + 2), o))
  }

  lemma {:induction false} StartsInside(buff: seq<Byte>, offset: nat, o: nat)
    requires StartsAt(buff, offset, o)
    ensures offset <= o && HoldsAttr(buff, o)
    decreases |buff| - offset
  {
    if o != offset {
      StartsInside(buff, offset + 4 + U16At(buff, offset + 2), o);
    }
  }

  /** The attribute that starts at `o` is of type `kind`. */
  predicate OfKind(buff: seq<Byte>, o: nat, kind: U16) {
    HoldsAttr(buff, o) && U16At(buff, o) == kind
  }

  /** The position found is that of an attribute of the type, no attribute before it is of the
      type, and none at all is if there is no position. */
  lemma {:induction false} FirstOnWireIsFirst(buff: seq<Byte>, offset: nat, kind: U16)
    requires offset <= |buff| && WellFramed(buff[offset..])
    ensures var p := FirstOnWire(buff, offset, kind);
            && (p.Some? ==> StartsAt(buff, offset, p.value) && OfKind(buff, p.value, kind))
            && forall o :: StartsAt(buff, offset, o) && OfKind(buff, o, kind) ==> p.Some? && p.value <= o
    decreases |buff| - offset
  {
    if offset < |buff| {
      NextSection(buff, offset);
      var next := offset + 4 + U16At(buff, offset + 2);
      if U16At(buff, offset) != kind {
        FirstOnWireIsFirst(buff, next, kind);
      }
      forall o | StartsAt(buff, offset, o) && OfKind(buff, o, kind)
        ensures FirstOnWire(buff, offset, kind).Some? && FirstOnWire(buff, offset, kind).value <= o
      {
        StartsInside(buff, offset, o);
      }
    }
  }

  /** The value bytes of the attribute that starts at `o`. */
  function WireValue(buff: seq<Byte>, o: nat): seq<Byte>
    requires HoldsAttr(buff, o)
  {
    buff[o + 4..o + 4 + U16At(buff, o + 2)]
  }

  /** The first attribute of a type is absent, or is the one that starts at `o`. */
  predicate Located(buff: seq<Byte>, attrs: seq<Attribute>, kind: U16, o: Option<nat>)
    requires o.Some? ==> HoldsAttr(buff, o.value)
  {
    var i := FirstOf(attrs, kind);
    if o.None? then i == |attrs| else i < |attrs| && attrs[i].value == WireValue(buff, o.value)
  }

  /** The attribute that starts at `o`. */
  function AttrAt(buff: seq<Byte>, o: nat): Attribute
    requires HoldsAttr(buff, o)
  {
    Attribute(U16At(buff, o), U16At(buff, o + 2), WireValue(buff, o))
  }

  lemma LocatedHere(buff: seq<Byte>, o: nat, rest: seq<Attribute>)
    requires HoldsAttr(buff, o)
    ensures Located(buff, [AttrAt(buff, o)] + rest, U16At(buff, o), Some(o))
  {
    FirstOfCons(AttrAt(buff, o), rest, U16At(buff, o));
  }

  lemma LocatedSkip(buff: seq<Byte>, a: Attribute, rest: seq<Attribute>, kind: U16, o: Option<nat>)
    requires o.Some? ==> HoldsAttr(buff, o.value)
    requires Located(buff, rest, kind, o) && a.kind != kind
    ensures Located(buff, [a] + rest, kind, o)
  {
    FirstOfCons(a, rest, kind);
  }

  /** The attribute found after decoding is the first one on the wire. */
  lemma {:induction false} FoundIsFirstOnWire(buff: seq<Byte>, offset: nat, kind: U16)
    requires offset <= |buff| && WellFramed(buff[offset..])
    ensures Located(buff, ParseAttrs(buff[offset..]).value, kind, FirstOnWire(buff, offset, kind))
    decreases |buff| - offset
  {
    if offset < |buff| {
      NextSection(buff, offset);
      if U16At(buff, offset) == kind {
        FoundHere(buff, offset);
      } else {
        var next := offset + 4 + U16At(buff, offset + 2);
        FoundIsFirstOnWire(buff, next, kind);
        FoundLater(buff, offset, next, kind, FirstOnWire(buff, next, kind));
      }
    }
  }

  lemma FoundHere(buff: seq<Byte>, offset: nat)
    requires HoldsAttr(buff, offset) && WellFramed(buff[offset..])
    ensures Located(buff, ParseAttrs(buff[offset..]).value, U16At(buff, offset), Some(offset))
  {
    SectionStep(buff, offset);
    LocatedHere(buff, offset, ParseAttrs(buff[offset + 4 + U16At(buff, offset + 2)..]).value);
  }

  lemma FoundLater(buff: seq<Byte>, offset: nat, next: nat, kind: U16, o: Option<nat>)
    requires HoldsAttr(buff, offset) && WellFramed(buff[offset..]) && U16At(buff, offset) != kind
    requires next == offset + 4 + U16At(buff, offset + 2) && WellFramed(buff[next..])
    requires (o.Some? ==> HoldsAttr(buff, o.value)) && Located(buff, ParseAttrs(buff[next..]).value, kind, o)
    ensures Located(buff, ParseAttrs(buff[offset..]).value, kind, o)
  {
    SectionStep(buff, offset);
    LocatedSkip(buff, AttrAt(buff, offset), ParseAttrs(buff[next..]).value, kind, o);
  }

  /** The bytes of an address attribute: 4 for family 1, 16 for family 2 (section 11.2.1). */
  predicate HoldsAddress(value: seq<Byte>) {
    && |value| >= 2
    && (U16At(value, 0) == 1 ==> |value| >= 8)
    && (U16At(value, 0) == 2 ==> |value| >= 20)
  }

  /** attributes::address: the IP bytes in network order, or no value where the source throws. */
  method AddressOf(value: seq<Byte>) returns (ip: Option<seq<Byte>>)
    requires HoldsAddress(value)
    ensures ip == AddressBytes(value)
  {
    var family, offset;
    family, offset := DecodeU16(value, 0);
    if family == 1 {
      offset := offset + 2;
      var host := U32At(value, offset);  // decode_u32
      U32RoundTrip(value, offset);
      ip := Some(U32Bytes(host));        // htonl
    } else if family == 2 {
      offset := offset + 2;
      var bytes: seq<Byte> := [];
      var i := 0;
      while i < 16
        invariant 0 <= i <= 16 && bytes == value[4..4 + i]
      {
        bytes := bytes + [value[offset + i]];
        i := i + 1;
      }
      ip := Some(bytes);
    } else {
      ip := None;
    }
  }

  function AddressBytes(value: seq<Byte>): Option<seq<Byte>>
    requires HoldsAddress(value)
  {
    if U16At(value, 0) == 1 then Some(value[4..8])
    else if U16At(value, 0) == 2 then Some(value[4..20]) else None
  }

  /** From received bytes to the address bind reports: whatever the id stride does, it is the
      address in the first MAPPED-ADDRESS on the wire, for both families. */
  method ReadMappedAddress(buff: seq<Byte>) returns (ip: Option<seq<Byte>>)
    requires Decodable(buff) && U16At(buff, 0) == BINDING_RESPONSE
    requires var o := FirstOnWire(buff, HEADER_SIZE, MAPPED_ADDRESS); o.Some? ==> HoldsAddress(WireValue(buff, o.value))
    ensures var o := FirstOnWire(buff, HEADER_SIZE, MAPPED_ADDRESS);
            ip == if o.None? then None else AddressBytes(WireValue(buff, o.value))
  {
    FoundIsFirstOnWire(buff, HEADER_SIZE, MAPPED_ADDRESS);
    var m := DecodeMessage(buff);
    var found := FindAttribute(m.value, MAPPED_ADDRESS);
    if found.None? {
      return None;
    }
    ip := AddressOf(found.value.value);
  }

  /** The same bytes by their place on the wire: 8 bytes after the attribute starts. */
  lemma AddressOnWire(buff: seq<Byte>, o: nat)
    requires HoldsAttr(buff, o) && HoldsAddress(WireValue(buff, o))
    ensures AddressBytes(WireValue(buff, o)) ==
            if U16At(buff, o + 4) == 1 then Some(buff[o + 8..o + 12])
            else if U16At(buff, o + 4) == 2 then Some(buff[o + 8..o + 24]) else None
  {
    var value := WireValue(buff, o);
    assert U16At(value, 0) == U16At(buff, o + 4);
    var hi := o + 4 + |value|;
    if |value| >= 8 {
      SliceOfSlice(buff, o + 4, hi, 4, 8);
    }
    if |value| >= 20 {
      SliceOfSlice(buff, o + 4, hi, 4, 20);
    }
  }

  /** Literal bytes: a response whose first attribute is of type 00 01 has its MAPPED-ADDRESS at byte
      20, and its address is bytes 28 to 31 for family 00 01 and bytes 28 to 43 for family 00 02. */
  lemma LiteralResponse(buff: seq<Byte>)
    requires Decodable(buff) && buff[0] == 1 && buff[1] == 1 && buff[20] == 0 && buff[21] == 1
    ensures FirstOnWire(buff, HEADER_SIZE, MAPPED_ADDRESS) == Some(20) && HoldsAttr(buff, 20)
    ensures |WireValue(buff, 20)| == 256 * buff[22] as int + buff[23]
    ensures HoldsAddress(WireValue(buff, 20)) ==>
              && |buff| >= 26
              && (buff[24] == 0 && buff[25] == 1 ==>
                    |buff| >= 32 && AddressBytes(WireValue(buff, 20)) == Some(buff[28..32]))
              && (buff[24] == 0 && buff[25] == 2 ==>
                    |buff| >= 44 && AddressBytes(WireValue(buff, 20)) == Some(buff[28..44]))
  {
    NextSection(buff, 20);
    if HoldsAddress(WireValue(buff, 20)) {
      AddressOnWire(buff, 20);
      assert U16At(WireValue(buff, 20), 0) == U16At(buff, 24);
    }
  }

  /** Literal bytes: the binding request the client sends. */
  lemma LiteralRequest(id: seq<Byte>)
    ensures EncodeMessage(Message(Header(1, 8, id), [Attribute(3, 4, [0, 0, 0, 0])]))
         == [0, 1, 0, 8] + id + [0, 3, 0, 4, 0, 0, 0, 0]
  {
    var a := Attribute(3, 4, [0, 0, 0, 0]);
    assert [a][1..] == [] && EncodeAttrs([a]) == EncodeAttr(a) + [];
    assert EncodeAttr(a) == [0, 3, 0, 4, 0, 0, 0, 0];
    assert U16Bytes(1) + U16Bytes(8) == [0, 1, 0, 8];
  }

  lemma SliceOfSlice(b: seq<Byte>, lo: nat, hi: nat, i: nat, j: nat)
    requires lo <= hi <= |b| && i <= j <= hi - lo
    ensures b[lo..hi][i..j] == b[lo + i..lo + j]
  {
    var mid := b[lo..hi];
    forall k | 0 <= k < j - i
      ensures mid[i..j][k] == b[lo + i..lo + j][k]
    {
      assert mid[i + k] == b[lo + (i + k)];
    }
  }
}
