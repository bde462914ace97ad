/** The reply side of the STUN client: the attribute loop, and the mapped address. */
module Stun {
  import opened Options
  import opened Bytes

  /* ---------- attributes ---------- */

  datatype Attribute = Attribute(kind: u16, length: u16, body: seq<byte>)

  /** Every length field is the length of its body. */
  predicate AllFit(attrs: seq<Attribute>) {
    forall i :: 0 <= i < |attrs| ==> attrs[i].length == |attrs[i].body|
  }

  function Header(a: Attribute): seq<byte> {
    Put16(a.kind) + Put16(a.length)
  }

  function Serialized(attrs: seq<Attribute>): seq<byte> {
    if attrs == [] then []
    else Header(attrs[0]) + attrs[0].body + Serialized(attrs[1..])
  }

  /** An attribute whose fixed part is read already, None when its body is not all there. */
  function Bodied(kind: u16, length: u16, rest: seq<byte>): (r: Option<Attribute>)
    ensures r.Some? ==> |r.value.body| <= |rest| && r.value.length == |r.value.body|
  {
    if |rest| < length then None else Some(Attribute(kind, length, rest[..length]))
  }

  /** The first attribute of a region, None when a slice would run past its end. */
  function First(data: seq<byte>): (r: Option<Attribute>)
    ensures r.Some? ==> 4 + |r.value.body| <= |data| && r.value.length == |r.value.body|
  {
    if |data| < 4 then None else Bodied(Be16(data[..2]), Be16(data[2..4]), data[4..])
  }

  /** All attributes of a region. */
  function Parsed(data: seq<byte>): Option<seq<Attribute>>
    decreases |data|
  {
    if data == [] then Some([])
    else match First(data)
         case None => None
         case Some(a) => Prepend([a], Parsed(data[4 + |a.body|..]))
  }

  function Prepend(attrs: seq<Attribute>, rest: Option<seq<Attribute>>): Option<seq<Attribute>> {
    match rest
    case None => None
    case Some(more) => Some(attrs + more)
  }

  lemma PrependNone(rest: Option<seq<Attribute>>)
    ensures Prepend([], rest) == rest
  {
    if rest.Some? { assert [] + rest.value == rest.value; }
  }

  lemma PrependTwice(a: seq<Attribute>, b: seq<Attribute>, rest: Option<seq<Attribute>>)
    ensures Prepend(a, Prepend(b, rest)) == Prepend(a + b, rest)
  {
    if rest.Some? { assert a + (b + rest.value) == a + b + rest.value; }
  }

  /** One turn of the loop, at offset `count`. */
  method NextAttribute(host: Host, data: seq<byte>, count: nat) returns (result: Option<Attribute>, after: nat)
    requires count < |data|
    ensures result == First(data[count..])
    ensures result.Some? ==> count < after == count + 4 + |result.value.body| <= |data|
  {
    ghost var rest := data[count..];
    after := count;
    if after + 2 > |data| { return None, after; }
    assert rest[..2] == data[after..after + 2];
    var kind := ToInt16(host, data[after..after + 2]);
    after := after + 2;
    if after + 2 > |data| { return None, after; }
    assert rest[2..4] == data[after..after + 2];
    var length := ToInt16(host, data[after..after + 2]);
    after := after + 2;
    if after + length > |data| { return None, after; }
    assert rest[4..][..length] == data[after..after + length];
    var body := data[after..after + length];
    after := after + length;
    return Some(Attribute(kind, length, body)), after;
  }

  lemma CollectStep(attributes: seq<Attribute>, data: seq<byte>)
    requires data != []
    ensures First(data) == None ==> Prepend(attributes, Parsed(data)) == None
    ensures First(data).Some? ==>
              var a := First(data).value;
              Prepend(attributes, Parsed(data)) == Prepend(attributes + [a], Parsed(data[4 + |a.body|..]))
  {
    if First(data).Some? {
      var a := First(data).value;
      PrependTwice(attributes, [a], Parsed(data[4 + |a.body|..]));
    }
  }

  /** The attribute loop over a received datagram. */
  method CollectAttributes(host: Host, data: seq<byte>) returns (result: Option<seq<Attribute>>)
    requires |data| >= 20
    ensures result == Parsed(data[20..])
  {
    var attributes := [];
    var count := 20;
    PrependNone(Parsed(data[20..]));
    while count < |data|
      invariant 20 <= count <= |data|
      invariant Parsed(data[20..]) == Prepend(attributes, Parsed(data[count..]))
      decreases |data| - count
    {
      var attribute, after := NextAttribute(host, data, count);
      CollectStep(attributes, data[count..]);
      if attribute.None? { return None; }
      assert data[count..][4 + |attribute.value.body|..] == data[after..];
      attributes := attributes + [attribute.value];
      count := after;
    }
    assert attributes + [] == attributes;
    return Some(attributes);
  }

  lemma FirstOf(a: Attribute, rest: seq<byte>)
    requires a.length == |a.body|
    ensures var data := Header(a) + a.body + rest;
      First(data) == Some(a) && data[4 + |a.body|..] == rest
  {
    var data := Header(a) + a.body + rest;
    FieldParts(Put16(a.kind), Put16(a.length), a.body + rest);
    assert data == Put16(a.kind) + Put16(a.length) + (a.body + rest);
    assert data[4..][..|a.body|] == a.body;
  }

  lemma {:induction false} ParseSerialized(attrs: seq<Attribute>)
    requires AllFit(attrs)
    ensures Parsed(Serialized(attrs)) == Some(attrs)
  {
    if attrs != [] {
      ParseSerialized(attrs[1..]);
      FirstOf(attrs[0], Serialized(attrs[1..]));
      assert [attrs[0]] + attrs[1..] == attrs;
    }
  }

  lemma FirstSerialized(data: seq<byte>)
    requires First(data).Some?
    ensures var a := First(data).value;
      data == Header(a) + a.body + data[4 + |a.body|..]
  {
    PutBe16(data[..2]);
    PutBe16(data[2..4]);
  }

  lemma {:induction false} SerializeParsed(data: seq<byte>)
    requires Parsed(data).Some?
    ensures AllFit(Parsed(data).value) && Serialized(Parsed(data).value) == data
    decreases |data|
  {
    if data != [] {
      var a := First(data).value;
      var rest := data[4 + |a.body|..];
      SerializeParsed(rest);
      assert Parsed(data).value[1..] == Parsed(rest).value;
      FirstSerialized(data);
    }
  }

  /** The loop inverts serialisation, and accepts nothing else: it ends exactly at the end
      of the datagram when, and only when, the datagram is a serialised list. */
  lemma ParseIffSerialized(data: seq<byte>, attrs: seq<Attribute>)
    ensures Parsed(data) == Some(attrs) <==> AllFit(attrs) && Serialized(attrs) == data
  {
    if Parsed(data) == Some(attrs) { SerializeParsed(data); }
    if AllFit(attrs) && Serialized(attrs) == data { ParseSerialized(attrs); }
  }

  /* ---------- padding ---------- */

  function Padding(n: nat): nat {
    (4 - n % 4) % 4
  }

  /** Padding of the right length for every attribute; its bytes may be any. */
  predicate Pads(attrs: seq<Attribute>, pads: seq<seq<byte>>) {
    |pads| == |attrs| && forall i :: 0 <= i < |attrs| ==> |pads[i]| == Padding(|attrs[i].body|)
  }

  /** Section 15 of RFC 5389: each body is padded to a multiple of 4 bytes. */
  function Padded(attrs: seq<Attribute>, pads: seq<seq<byte>>): seq<byte>
    requires Pads(attrs, pads)
  {
    if attrs == [] then []
    else Header(attrs[0]) + attrs[0].body + pads[0] + Padded(attrs[1..], pads[1..])
  }

  predicate Aligned(attrs: seq<Attribute>) {
    forall i :: 0 <= i < |attrs| ==> |attrs[i].body| % 4 == 0
  }

  lemma {:induction false} PaddedLonger(attrs: seq<Attribute>, pads: seq<seq<byte>>)
    requires Pads(attrs, pads)
    ensures |Padded(attrs, pads)| >= |Serialized(attrs)|
    ensures Aligned(attrs) ==> Padded(attrs, pads) == Serialized(attrs)
    ensures !Aligned(attrs) ==> |Padded(attrs, pads)| > |Serialized(attrs)|
  {
    if attrs != [] {
      PaddedLonger(attrs[1..], pads[1..]);
      var head := Header(attrs[0]) + attrs[0].body;
      if |attrs[0].body| % 4 == 0 {
        assert head + pads[0] == head;
      } else {
        assert |pads[0]| > 0;
      }
    }
  }

  /** The loop skips no padding: it reads a message of the standard as it was written
      exactly when every body is a multiple of 4 bytes long. */
  lemma PaddedReadIff(attrs: seq<Attribute>, pads: seq<seq<byte>>)
    requires AllFit(attrs) && Pads(attrs, pads)
    ensures Parsed(Padded(attrs, pads)) == Some(attrs) <==> Aligned(attrs)
  {
    PaddedLonger(attrs, pads);
    ParseIffSerialized(Padded(attrs, pads), attrs);
  }

  /* ---------- the mapped address ---------- */

  const MAGIC_COOKIE: u32 := 0x2112A442
  const COOKIE_BYTES: seq<byte> := [0x21, 0x12, 0xA4, 0x42]

  /** StunHeader::magic_cookie is qToBigEndian(0x2112A442). */
  function StoredCookie(host: Host): u32 {
    FromBigEndian32(host, MAGIC_COOKIE)
  }

  /** Host-order load, exclusive or with the stored cookie, then qFromBigEndian. */
  function XorDecoded(host: Host, b: seq<byte>): u32
    requires |b| == 4
  {
    FromBigEndian32(host, XorU32(Load32(host, b), StoredCookie(host)))
  }

  function Reversed(b: seq<byte>): (r: seq<byte>)
    requires |b| == 4
    ensures |r| == 4
  {
    [b[3], b[2], b[1], b[0]]
  }

  /** On either host the decoding is bytewise exclusive or with 21 12 A4 42. */
  lemma XorDecodedBytes(host: Host, b: seq<byte>)
    requires |b| == 4
    ensures Put32(XorDecoded(host, b)) == XorBytes(b, COOKIE_BYTES)
    ensures XorDecoded(host, b) == XorU32(Be32(b), MAGIC_COOKIE)
  {
    var c := COOKIE_BYTES;
    assert Be32(c) == MAGIC_COOKIE;
    XorBe32(b, c);
    if host.LittleEndian? {
      var rb, rc := Reversed(b), Reversed(c);
      SwapBe32(c);
      assert StoredCookie(host) == Be32(rc);
      XorBe32(rb, rc);
      SwapBe32(XorBytes(rb, rc));
      assert Reversed(XorBytes(rb, rc)) == XorBytes(b, c);
    }
    PutBe32(XorBytes(b, c));
  }

  /** Section 15.2 of RFC 5389: the address, exclusive-ored with the cookie, in network order. */
  function XorEncoded(address: u32): seq<byte> {
    Put32(XorU32(address, MAGIC_COOKIE))
  }

  lemma XorRoundTrip(host: Host, address: u32)
    ensures XorDecoded(host, XorEncoded(address)) == address
  {
    XorDecodedBytes(host, XorEncoded(address));
    XorTwice(address, MAGIC_COOKIE);
  }

  /** The cookie in the request is the standard one on big-endian hosts only. */
  lemma RequestCookieIff(host: Host)
    ensures Put32(StoredCookie(host)) == COOKIE_BYTES <==> host.BigEndian?
  {
    assert Put32(MAGIC_COOKIE) == COOKIE_BYTES by { PutBe32(COOKIE_BYTES); }
    assert Swap32(MAGIC_COOKIE) == 0x42A41221;
    assert Put32(0x42A41221)[0] == 0x42;
  }

  datatype Address = V4(v4: u32) | V6(v6: seq<byte>)

  datatype EndPoint = EndPoint(address: Address, port: u16)

  const MAPPED_ADDRESS: u16 := 0x01
  const XOR_MAPPED_ADDRESS: u16 := 0x20

  predicate IsAddress(a: Attribute) {
    a.kind == MAPPED_ADDRESS || a.kind == XOR_MAPPED_ADDRESS
  }

  /** What one address attribute says; None when a slice would run past the body, and for an
      exclusive-ored IPv6 address, which the source decodes through an invalid pointer. */
  function AddressOf(host: Host, a: Attribute): Option<EndPoint> {
    if |a.body| < 4 then None
    else
      var port := ToInt16(host, a.body[2..4]);
      if ToInt16(host, a.body[..2]) == 0x0001 then
        if |a.body| < 8 then None
        else if a.kind == MAPPED_ADDRESS then Some(EndPoint(V4(ToInt32(host, a.body[4..8])), port))
        else Some(EndPoint(V4(XorDecoded(host, a.body[4..8])), port))
      else if |a.body| < 20 || a.kind != MAPPED_ADDRESS then None
      else Some(EndPoint(V6(a.body[4..20]), port))
  }

  datatype Outcome =
    | ServerError                            // processing_error
    | ForeignTransaction                     // processing_error
    | Undefined                              // a slice past the end, or an invalid pointer
    | Updated(mapped: Option<EndPoint>)      // updated; None keeps the mapped address as it was

  function FirstAddress(host: Host, attrs: seq<Attribute>): Outcome {
    if attrs == [] then Updated(None)
    else if !IsAddress(attrs[0]) then FirstAddress(host, attrs[1..])
    else match AddressOf(host, attrs[0])
         case None => Undefined
         case Some(e) => Updated(Some(e))
  }

  /** What a datagram means for a request with this 12-byte transaction id. */
  function Reply(host: Host, transaction: seq<byte>, data: seq<byte>): Outcome {
    if |data| < 2 then Undefined
    else if ToInt16(host, data[..2]) == 0x0111 then ServerError
    else if |data| < 20 then Undefined
    else if data[8..20] != transaction then ForeignTransaction
    else match Parsed(data[20..])
         case None => Undefined
         case Some(attrs) => FirstAddress(host, attrs)
  }

  lemma Digits256(hi: byte, lo: byte, hi': byte, lo': byte)
    ensures hi as int * 0x100 + lo as int == hi' as int * 0x100 + lo' as int <==> hi == hi' && lo == lo'
  {
  }

  /** The attributes of an accepted datagram decide between an update and a failed slice. */
  lemma {:induction false} AddressOutcomes(host: Host, attrs: seq<Attribute>)
    ensures FirstAddress(host, attrs).Updated? || FirstAddress(host, attrs).Undefined?
    ensures FirstAddress(host, attrs) == Updated(None)
       <==> forall i :: 0 <= i < |attrs| ==> attrs[i].kind != 0x01 && attrs[i].kind != 0x20
  {
    if attrs != [] && !IsAddress(attrs[0]) {
      AddressOutcomes(host, attrs[1..]);
      if forall i :: 0 <= i < |attrs| - 1 ==> attrs[1..][i].kind != 0x01 && attrs[1..][i].kind != 0x20 {
        forall i | 0 <= i < |attrs| ensures attrs[i].kind != 0x01 && attrs[i].kind != 0x20 {
          if i > 0 { assert attrs[i] == attrs[1..][i - 1]; }
        }
      } else {
        var i :| 0 <= i < |attrs| - 1 && !(attrs[1..][i].kind != 0x01 && attrs[1..][i].kind != 0x20);
        assert attrs[1..][i] == attrs[i + 1];
      }
    }
  }

  /** Exactly the datagrams that begin with 01 11 are error responses. */
  lemma ServerErrorIff(host: Host, transaction: seq<byte>, data: seq<byte>)
    ensures Reply(host, transaction, data) == ServerError
       <==> |data| >= 2 && data[0] == 0x01 && data[1] == 0x11
  {
    if |data| >= 2 { Digits256(data[0], data[1], 0x01, 0x11); }
    if |data| >= 20 && Parsed(data[20..]).Some? {
      AddressOutcomes(host, Parsed(data[20..]).value);
    }
  }

  /** Exactly the others of at least 20 bytes that do not carry the transaction id at offset
      8 are foreign. */
  lemma ForeignIff(host: Host, transaction: seq<byte>, data: seq<byte>)
    ensures Reply(host, transaction, data) == ForeignTransaction
       <==> |data| >= 20 && !(data[0] == 0x01 && data[1] == 0x11) && data[8..20] != transaction
  {
    ServerErrorIff(host, transaction, data);
    if |data| >= 20 && Parsed(data[20..]).Some? {
      AddressOutcomes(host, Parsed(data[20..]).value);
    }
  }

  /** Exactly the datagrams that are no error, echo the transaction id and end with a
      serialised list are read, and by its first address. */
  lemma AcceptedIff(host: Host, transaction: seq<byte>, data: seq<byte>, attrs: seq<Attribute>)
    requires |transaction| == 12 && AllFit(attrs)
    requires |data| >= 20 && data[20..] == Serialized(attrs)
    ensures Reply(host, transaction, data) == FirstAddress(host, attrs)
       <==> !(data[0] == 0x01 && data[1] == 0x11) && data[8..20] == transaction
  {
    ServerErrorIff(host, transaction, data);
    ParseSerialized(attrs);
    AddressOutcomes(host, attrs);
  }

  method ProcessReply(host: Host, transaction: seq<byte>, data: seq<byte>) returns (outcome: Outcome)
    ensures outcome == Reply(host, transaction, data)
  {
    if |data| < 2 { return Undefined; }
    if ToInt16(host, data[..2]) == 0x0111 { return ServerError; }
    if |data| < 20 { return Undefined; }
    if data[8..20] != transaction { return ForeignTransaction; }
    var collected := CollectAttributes(host, data);
    if collected.None? { return Undefined; }
    var attributes := collected.value;
    var i := 0;
    while i < |attributes|
      invariant 0 <= i <= |attributes|
      invariant FirstAddress(host, attributes) == FirstAddress(host, attributes[i..])
    {
      var attr := attributes[i];
      if IsAddress(attr) {
        var mapped := AddressOf(host, attr);
        return if mapped.None? then Undefined else Updated(mapped);
      }
      assert attributes[i..][1..] == attributes[i + 1..];
      i := i + 1;
    }
    return Updated(None);
  }

  /** XOR-MAPPED-ADDRESS for IPv4, section 15.2 of RFC 5389. The source knows it by 0x20. */
  function XorMapped(address: u32, port: u16): Attribute {
    Attribute(XOR_MAPPED_ADDRESS, 8, [0, 1] + Put16(XorU16(port, 0x2112)) + XorEncoded(address))
  }

  /** A success response; the source reads neither its length field nor its cookie. */
  function Response(length: u16, cookie: u32, transaction: seq<byte>, attrs: seq<Attribute>, pads: seq<seq<byte>>): seq<byte>
    requires Pads(attrs, pads)
  {
    Put16(0x0101) + Put16(length) + Put32(cookie) + transaction + Padded(attrs, pads)
  }

  lemma {:induction false} SkipsOthers(host: Host, before: seq<Attribute>, rest: seq<Attribute>)
    requires forall i :: 0 <= i < |before| ==> !IsAddress(before[i])
    ensures FirstAddress(host, before + rest) == FirstAddress(host, rest)
  {
    if before == [] {
      assert before + rest == rest;
    } else {
      assert (before + rest)[1..] == before[1..] + rest;
      SkipsOthers(host, before[1..], rest);
    }
  }

  lemma XorMappedRead(host: Host, address: u32, port: u16)
    ensures AddressOf(host, XorMapped(address, port)) == Some(EndPoint(V4(address), XorU16(port, 0x2112)))
  {
    var body, wirePort, wireAddress :=
      XorMapped(address, port).body, Put16(XorU16(port, 0x2112)), XorEncoded(address);
    FieldParts([0, 1], wirePort, wireAddress);
    assert body == [0, 1] + wirePort + wireAddress;
    XorRoundTrip(host, address);
  }

  /** The attribute types of the standard, 0x0001 and 0x0020, written out. */
  lemma AddressKinds(host: Host, address: u32, port: u16)
    ensures AddressOf(host, Attribute(0x01, 8, [0, 1] + Put16(port) + Put32(address)))
         == Some(EndPoint(V4(address), port))
    ensures AddressOf(host, Attribute(0x20, 8, [0, 1] + Put16(port) + XorEncoded(address)))
         == Some(EndPoint(V4(address), port))
    ensures forall a: Attribute :: IsAddress(a) <==> a.kind == 0x01 || a.kind == 0x20
  {
    FieldParts([0, 1], Put16(port), Put32(address));
    FieldParts([0, 1], Put16(port), XorEncoded(address));
    XorRoundTrip(host, address);
  }

  /** Exactly which address attributes have no value: bodies too short for their family, and
      exclusive-ored ones of another family than IPv4. */
  lemma NoAddressIff(host: Host, a: Attribute)
    requires IsAddress(a)
    ensures AddressOf(host, a) == None <==>
            || |a.body| < 4
            || (a.body[0] == 0 && a.body[1] == 1 && |a.body| < 8)
            || (!(a.body[0] == 0 && a.body[1] == 1) && (|a.body| < 20 || a.kind == 0x20))
  {
    if |a.body| >= 4 {
      assert ToInt16(host, a.body[..2]) == a.body[0] as int * 0x100 + a.body[1] as int;
    }
  }

  /** MAPPED-ADDRESS for IPv4 and IPv6, section 15.1 of RFC 5389. */
  function Mapped4(address: u32, port: u16): Attribute {
    Attribute(MAPPED_ADDRESS, 8, [0, 1] + Put16(port) + Put32(address))
  }

  function Mapped6(address: seq<byte>, port: u16): Attribute
    requires |address| == 16
  {
    Attribute(MAPPED_ADDRESS, 20, [0, 2] + Put16(port) + address)
  }

  /** A plain mapped address is read back for both families. */
  lemma MappedRead(host: Host, v4: u32, v6: seq<byte>, port: u16)
    requires |v6| == 16
    ensures AddressOf(host, Mapped4(v4, port)) == Some(EndPoint(V4(v4), port))
    ensures AddressOf(host, Mapped6(v6, port)) == Some(EndPoint(V6(v6), port))
  {
    var wirePort, wireAddress := Put16(port), Put32(v4);
    FieldParts([0, 1], wirePort, wireAddress);
    FieldParts([0, 2], wirePort, v6);
  }

  lemma WithAddress(before: seq<Attribute>, a: Attribute, after: seq<Attribute>)
    requires AllFit(before + after) && Aligned(before + after)
    requires a.length == |a.body| && |a.body| % 4 == 0
    ensures AllFit(before + [a] + after) && Aligned(before + [a] + after)
  {
    var attrs := before + [a] + after;
    forall i | 0 <= i < |attrs|
      ensures attrs[i].length == |attrs[i].body| && |attrs[i].body| % 4 == 0
    {
      if i < |before| { assert attrs[i] == (before + after)[i]; }
      else if i > |before| { assert attrs[i] == (before + after)[i - 1]; }
    }
  }

  lemma ResponseParts(length: u16, cookie: u32, transaction: seq<byte>, attrs: seq<Attribute>, pads: seq<seq<byte>>)
    requires |transaction| == 12 && Pads(attrs, pads)
    ensures var data := Response(length, cookie, transaction, attrs, pads);
      |data| >= 20 && data[..2] == Put16(0x0101) && data[8..20] == transaction && data[20..] == Padded(attrs, pads)
  {
  }

  /** What a server answers: attributes that say nothing of addresses, an address, and more. */
  predicate Answers(before: seq<Attribute>, a: Attribute, after: seq<Attribute>, pads: seq<seq<byte>>) {
    && AllFit(before + [a] + after) && Aligned(before + [a] + after) && Pads(before + [a] + after, pads)
    && (forall i :: 0 <= i < |before| ==> !IsAddress(before[i])) && IsAddress(a)
  }

  lemma ResponseRead(
    host: Host, length: u16, cookie: u32, transaction: seq<byte>, attrs: seq<Attribute>, pads: seq<seq<byte>>)
    requires |transaction| == 12 && AllFit(attrs) && Aligned(attrs) && Pads(attrs, pads)
    ensures Reply(host, transaction, Response(length, cookie, transaction, attrs, pads)) == FirstAddress(host, attrs)
  {
    ResponseParts(length, cookie, transaction, attrs, pads);
    PaddedReadIff(attrs, pads);
  }

  /** An answer to this transaction, with any length field and any cookie, yields its first
      address when all its attributes have aligned lengths. */
  lemma AnswerRead(
    host: Host, length: u16, cookie: u32, transaction: seq<byte>,
    before: seq<Attribute>, a: Attribute, after: seq<Attribute>, pads: seq<seq<byte>>, e: EndPoint)
    requires |transaction| == 12 && Answers(before, a, after, pads) && AddressOf(host, a) == Some(e)
    ensures Reply(host, transaction, Response(length, cookie, transaction, before + [a] + after, pads))
         == Updated(Some(e))
  {
    var attrs := before + [a] + after;
    ResponseRead(host, length, cookie, transaction, attrs, pads);
    assert FirstAddress(host, attrs) == FirstAddress(host, [a] + after) by {
      assert attrs == before + ([a] + after);
      SkipsOthers(host, before, [a] + after);
    }
  }

  /** A server that answers this transaction with its address exclusive-ored is understood on
      either host; the port stays as it is on the wire, which is never the port meant. */
  lemma ResponseUnderstood(
    host: Host, length: u16, cookie: u32, transaction: seq<byte>,
    before: seq<Attribute>, after: seq<Attribute>, address: u32, port: u16, pads: seq<seq<byte>>)
    requires |transaction| == 12 && Answers(before, XorMapped(address, port), after, pads)
    ensures Reply(host, transaction,
              Response(length, cookie, transaction, before + [XorMapped(address, port)] + after, pads))
         == Updated(Some(EndPoint(V4(address), XorU16(port, 0x2112))))
    ensures XorU16(port, 0x2112) != port
  {
    XorMappedRead(host, address, port);
    XorChanges(port, 0x2112);
    AnswerRead(host, length, cookie, transaction, before, XorMapped(address, port), after, pads,
               EndPoint(V4(address), XorU16(port, 0x2112)));
  }

  /** A plain mapped address is understood with its port: section 12.2 of RFC 5389 has the
      server answer so when the cookie of the request is not the standard one. */
  lemma PlainResponseUnderstood(
    host: Host, length: u16, cookie: u32, transaction: seq<byte>,
    before: seq<Attribute>, after: seq<Attribute>, address: u32, port: u16, pads: seq<seq<byte>>)
    requires |transaction| == 12 && Answers(before, Mapped4(address, port), after, pads)
    ensures Reply(host, transaction,
              Response(length, cookie, transaction, before + [Mapped4(address, port)] + after, pads))
         == Updated(Some(EndPoint(V4(address), port)))
  {
    MappedRead(host, address, seq(16, _ => 0), port);
    AnswerRead(host, length, cookie, transaction, before, Mapped4(address, port), after, pads,
               EndPoint(V4(address), port));
  }

  /** Any aligned attributes around an aligned address make such an answer. */
  lemma AnswersExist(before: seq<Attribute>, a: Attribute, after: seq<Attribute>)
    requires AllFit(before + after) && Aligned(before + after) && IsAddress(a)
    requires a.length == |a.body| && |a.body| % 4 == 0
    requires forall i :: 0 <= i < |before| ==> !IsAddress(before[i])
    ensures Answers(before, a, after, seq(|before + [a] + after|, _ => []))
  {
    WithAddress(before, a, after);
  }
}
