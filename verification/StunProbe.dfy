/**
 The server-reflexive address probe (relay/src/rtc/handshake.rs, `probe_srflx_inner`): the
 checks on a STUN response and the offset loop over its attributes, against a recursive
 type-length-value parse of RFC 5389 sections 6, 15 and 15.2.
 */
module StunProbe {
  import opened Basics
  import P = IngressPacket

  type Byte = P.Byte

  const BUFFER_BYTES: nat := 256
  const HEADER_BYTES: nat := 20
  const SUCCESS_RESPONSE: nat := 0x0101
  const XOR_MAPPED_ADDRESS: nat := 0x0020
  const IPV4: nat := 0x01

  /** An IPv4 transport address. */
  datatype Address = Address(a: Byte, b: Byte, c: Byte, d: Byte, port: nat)

  datatype Attribute = Attribute(kind: nat, value: seq<Byte>)

  /** What the walk does with a response: it reads eight masked bytes, finds none, or indexes past its buffer. */
  datatype Answer = Found(masked: seq<Byte>) | NotFound | OutOfBounds

  // ----- Masking -----

  function Pow2(bits: nat): (p: nat)
    ensures p > 0
  {
    if bits == 0 then 1 else 2 * Pow2(bits - 1)
  }

  function Bit(x: nat, y: nat): (b: nat)
    ensures b < 2
  {
    (x + y) % 2
  }

  function Half(x: nat): (h: nat)
    ensures x == 2 * h + x % 2
  {
    x / 2
  }

  /** Bitwise exclusive or. */
  function Xor(x: nat, y: nat): nat
    decreases x + y
  {
    if x == 0 && y == 0 then 0 else Bit(x, y) + 2 * Xor(Half(x), Half(y))
  }

  lemma {:induction false} XorBound(x: nat, y: nat, bits: nat)
    requires x < Pow2(bits) && y < Pow2(bits)
    ensures Xor(x, y) < Pow2(bits)
  {
    if bits > 0 {
      XorBound(Half(x), Half(y), bits - 1);
    }
  }

  lemma {:induction false} Digits(z: nat, bit: nat, rest: nat)
    requires bit < 2 && z == bit + 2 * rest
    ensures z % 2 == bit && Half(z) == rest
  {
  }

  lemma {:induction false} BitBack(x: nat, y: nat, z: nat)
    requires z % 2 == (x + y) % 2
    ensures Bit(z, y) == x % 2
  {
  }

  lemma {:induction false} XorInverts(x: nat, y: nat)
    ensures Xor(Xor(x, y), y) == x
    decreases x + y
  {
    if x > 0 || y > 0 {
      var z := Xor(x, y);
      Digits(z, Bit(x, y), Xor(Half(x), Half(y)));
      XorInverts(Half(x), Half(y));
      BitBack(x, y, z);
    }
  }

  function XorByte(x: Byte, y: Byte): Byte {
    assert Pow2(8) == 256;
    XorBound(x, y, 8);
    Xor(x, y)
  }

  function XorPort(x: nat): (z: nat)
    requires x < 0x1_0000
    ensures z < 0x1_0000
  {
    assert Pow2(10) == 1024;
    assert Pow2(16) == 0x1_0000;
    XorBound(x, 0x2112, 16);
    Xor(x, 0x2112)
  }

  lemma {:induction false} ByteBack(x: Byte, y: Byte)
    ensures XorByte(XorByte(x, y), y) == x
  {
    XorInverts(x, y);
  }

  lemma {:induction false} PortBack(x: nat)
    requires x < 0x1_0000
    ensures XorPort(XorPort(x)) == x
  {
    XorInverts(x, 0x2112);
  }

  function U16(high: Byte, low: Byte): nat {
    high * 256 + low
  }

  /** The attribute value a server sends for an IPv4 address. */
  function Mask(address: Address): seq<Byte>
    requires address.port < 0x1_0000
  {
    var port := XorPort(address.port);
    [0, IPV4, port / 256, port % 256,
     XorByte(address.a, 0x21), XorByte(address.b, 0x12), XorByte(address.c, 0xA4), XorByte(address.d, 0x42)]
  }

  /** The address behind the first eight bytes of a value. */
  function Unmask(value: seq<Byte>): Address
    requires |value| >= 8
  {
    Address(XorByte(value[4], 0x21), XorByte(value[5], 0x12), XorByte(value[6], 0xA4), XorByte(value[7], 0x42),
            XorPort(U16(value[2], value[3])))
  }

  /** Reading inverts the server's masking, whatever follows the eight bytes. */
  lemma {:induction false} UnmaskMask(address: Address, more: seq<Byte>)
    requires address.port < 0x1_0000
    ensures Unmask(Mask(address) + more) == address
  {
    var port := XorPort(address.port);
    assert port == port / 256 * 256 + port % 256;
    PortBack(address.port);
    ByteBack(address.a, 0x21);
    ByteBack(address.b, 0x12);
    ByteBack(address.c, 0xA4);
    ByteBack(address.d, 0x42);
  }

  // ----- The type-length-value parse -----

  /** Attributes start on 32-bit boundaries. */
  function Padded(length: nat): (p: nat)
    ensures length <= p < length + 4 && p % 4 == 0
  {
    (length + 3) / 4 * 4
  }

  function Kind(body: seq<Byte>): nat
    requires |body| >= 4
  {
    U16(body[0], body[1])
  }

  function Length(body: seq<Byte>): nat
    requires |body| >= 4
  {
    U16(body[2], body[3])
  }

  /** A whole attribute stands at the front. */
  predicate Fits(body: seq<Byte>) {
    |body| >= 4 && 4 + Length(body) <= |body|
  }

  /** The attribute at the front. */
  function Front(body: seq<Byte>): Attribute
    requires Fits(body)
  {
    Attribute(Kind(body), body[4..4 + Length(body)])
  }

  /** What follows the attribute at the front and its padding. */
  function Beyond(body: seq<Byte>): (rest: seq<Byte>)
    requires Fits(body)
    ensures |rest| < |body|
  {
    var step := 4 + Padded(Length(body));
    if step <= |body| then body[step..] else []
  }

  /** The attributes of a message body, as far as they fit. */
  function Attributes(body: seq<Byte>): seq<Attribute>
    decreases |body|
  {
    if Fits(body) then [Front(body)] + Attributes(Beyond(body)) else []
  }

  /** What is left of the body behind them: fewer than four bytes, or an attribute that claims more than there is. */
  function Leftover(body: seq<Byte>): (rest: seq<Byte>)
    ensures |rest| <= |body|
    decreases |body|
  {
    if Fits(body) then Leftover(Beyond(body)) else body
  }

  predicate IsMapped(attribute: Attribute) {
    attribute.kind == XOR_MAPPED_ADDRESS && |attribute.value| >= 8 && attribute.value[1] == IPV4
  }

  /** The front of the first IPv4 XOR-MAPPED-ADDRESS of at least eight bytes. */
  function FirstMapped(attributes: seq<Attribute>): (r: Option<seq<Byte>>)
    ensures r.Some? ==> |r.value| == 8
  {
    if |attributes| == 0 then None
    else if IsMapped(attributes[0]) then Some(attributes[0].value[..8])
    else FirstMapped(attributes[1..])
  }

  // ----- The offset loop -----

  /** The leftover claims to be an address attribute the loop would read. */
  predicate Claims(rest: seq<Byte>) {
    |rest| >= 4 && Kind(rest) == XOR_MAPPED_ADDRESS && Length(rest) >= 8
  }

  /** What the loop does at a claim that reaches past the message: it trusts the buffer. */
  function Trusted(buffer: seq<Byte>, at: nat): Answer
    requires |buffer| == BUFFER_BYTES
  {
    if at + 1 >= BUFFER_BYTES then OutOfBounds
    else if buffer[at + 1] != IPV4 then NotFound
    else if at + 7 >= BUFFER_BYTES then OutOfBounds
    else Found(buffer[at..at + 8])
  }

  function Conclude(buffer: seq<Byte>, first: Option<seq<Byte>>, rest: seq<Byte>, end: nat): Answer
    requires |buffer| == BUFFER_BYTES && |rest| <= end
  {
    if first.Some? then Found(first.value)
    else if Claims(rest) then Trusted(buffer, end - |rest| + 4)
    else NotFound
  }

  /** The parse's answer for the attributes between `from` and `end`. */
  function Expected(buffer: seq<Byte>, from: nat, end: nat): Answer
    requires |buffer| == BUFFER_BYTES && from <= end <= BUFFER_BYTES
  {
    var body := buffer[from..end];
    Conclude(buffer, FirstMapped(Attributes(body)), Leftover(body), end)
  }

  /** The attribute walk. */
  method Walk(buffer: seq<Byte>, length: nat) returns (answer: Answer)
    requires |buffer| == BUFFER_BYTES && HEADER_BYTES + length <= BUFFER_BYTES
    ensures answer == Expected(buffer, HEADER_BYTES, HEADER_BYTES + length)
  {
    hide Expected, Attributes, Leftover, FirstMapped, Unmask, Padded, Fits;
    var end := HEADER_BYTES + length;
    var pos := HEADER_BYTES;
    while pos + 4 <= end
      invariant HEADER_BYTES <= pos
      invariant Expected(buffer, HEADER_BYTES, end) == if pos <= end then Expected(buffer, pos, end) else NotFound
      decreases end - pos
    {
      ghost var body := buffer[pos..end];
      var kind := U16(buffer[pos], buffer[pos + 1]);
      var attributeLength := U16(buffer[pos + 2], buffer[pos + 3]);
      assert kind == Kind(body) && attributeLength == Length(body);
      StepOver(buffer, pos, end);
      pos := pos + 4;
      if kind == XOR_MAPPED_ADDRESS && attributeLength >= 8 {
        if pos + 1 >= BUFFER_BYTES {
          return OutOfBounds;
        }
        if buffer[pos + 1] == IPV4 {
          if pos + 7 >= BUFFER_BYTES {
            return OutOfBounds;
          }
          return Found(buffer[pos..pos + 8]);
        }
      }
      pos := pos + Padded(attributeLength);
    }
    if pos <= end {
      TooShort(buffer, pos, end);
    }
    answer := NotFound;
  }

  lemma {:induction false} TooShort(buffer: seq<Byte>, pos: nat, end: nat)
    requires |buffer| == BUFFER_BYTES && pos <= end < pos + 4 && end <= BUFFER_BYTES
    ensures Expected(buffer, pos, end) == NotFound
  {
  }

  /** How the parse's answer at an attribute depends on the answer behind it. */
  function Stepped(buffer: seq<Byte>, pos: nat, end: nat): Answer
    requires |buffer| == BUFFER_BYTES && pos + 4 <= end <= BUFFER_BYTES
  {
    var body := buffer[pos..end];
    var value, next := pos + 4, pos + 4 + Padded(Length(body));
    if Claims(body) && (value + 1 >= BUFFER_BYTES || buffer[value + 1] == IPV4) then Trusted(buffer, value)
    else if next <= end then Expected(buffer, next, end)
    else NotFound
  }

  lemma {:induction false} StepOver(buffer: seq<Byte>, pos: nat, end: nat)
    requires |buffer| == BUFFER_BYTES && pos + 4 <= end <= BUFFER_BYTES
    ensures Expected(buffer, pos, end) == Stepped(buffer, pos, end)
  {
    var body := buffer[pos..end];
    if Fits(body) {
      StepOverWhole(buffer, pos, end);
    } else {
      assert Attributes(body) == [] && Leftover(body) == body;
    }
  }

  lemma {:induction false} FrontMapped(buffer: seq<Byte>, pos: nat, end: nat)
    requires |buffer| == BUFFER_BYTES && pos + 4 <= end <= BUFFER_BYTES && Fits(buffer[pos..end])
    ensures Claims(buffer[pos..end]) ==> pos + 12 <= end
    ensures IsMapped(Front(buffer[pos..end])) <==> Claims(buffer[pos..end]) && buffer[pos + 5] == IPV4
    ensures IsMapped(Front(buffer[pos..end])) ==> Front(buffer[pos..end]).value[..8] == buffer[pos + 4..pos + 12]
  {
    var body := buffer[pos..end];
    var value := body[4..4 + Length(body)];
    assert forall i :: 0 <= i < |value| ==> value[i] == buffer[pos + 4 + i];
  }

  lemma {:induction false} NothingMore()
    ensures FirstMapped(Attributes([])) == None && Leftover([]) == []
  {
  }

  lemma {:induction false} StepOverWhole(buffer: seq<Byte>, pos: nat, end: nat)
    requires |buffer| == BUFFER_BYTES && pos + 4 <= end <= BUFFER_BYTES && Fits(buffer[pos..end])
    ensures Expected(buffer, pos, end) == Stepped(buffer, pos, end)
  {
    hide Padded, Kind, Length, U16, FirstMapped, IsMapped;
    var body := buffer[pos..end];
    FrontMapped(buffer, pos, end);
    FirstOfMore(Front(body), Attributes(Beyond(body)));
    var next := pos + 4 + Padded(Length(body));
    if next <= end {
      assert Beyond(body) == buffer[next..end];
    } else {
      assert Beyond(body) == [];
      NothingMore();
    }
  }

  lemma {:induction false} FirstOfMore(attribute: Attribute, rest: seq<Attribute>)
    ensures FirstMapped([attribute] + rest) == if IsMapped(attribute) then Some(attribute.value[..8]) else FirstMapped(rest)
  {
    assert ([attribute] + rest)[1..] == rest;
  }

  /**
   The loop's answer is the one the message contains, if and only if the message contains an
   address or its leftover does not claim one that the buffer behind it seems to confirm.
   */
  lemma {:induction false} WalkIsRightWhen(buffer: seq<Byte>, length: nat)
    requires |buffer| == BUFFER_BYTES && HEADER_BYTES + length <= BUFFER_BYTES
    ensures var end := HEADER_BYTES + length;
            var body := buffer[HEADER_BYTES..end];
            var first, rest := FirstMapped(Attributes(body)), Leftover(body);
            var at := end - |rest| + 4;
            (Expected(buffer, HEADER_BYTES, end) == if first.Some? then Found(first.value) else NotFound) ==
            (first.Some? || !Claims(rest) || (at + 1 < BUFFER_BYTES && buffer[at + 1] != IPV4))
  {
    hide Attributes, Leftover, FirstMapped;
  }

  /**
   The loop indexes past its buffer if and only if the message has no address and its leftover
   claims one whose family byte, or whose address behind an IPv4 family byte, lies past the buffer.
   */
  lemma {:induction false} WalkOverrunsWhen(buffer: seq<Byte>, length: nat)
    requires |buffer| == BUFFER_BYTES && HEADER_BYTES + length <= BUFFER_BYTES
    ensures var end := HEADER_BYTES + length;
            var body := buffer[HEADER_BYTES..end];
            var rest := Leftover(body);
            var at := end - |rest| + 4;
            Expected(buffer, HEADER_BYTES, end).OutOfBounds? <==>
            (&& FirstMapped(Attributes(body)).None? && Claims(rest)
             && (at + 1 >= BUFFER_BYTES || (buffer[at + 1] == IPV4 && at + 7 >= BUFFER_BYTES)))
  {
    hide Attributes, Leftover, FirstMapped;
  }

  /** A response that fills the buffer and ends in the bare header of an address attribute makes it do so. */
  lemma {:induction false} HeaderAtTheEndOverruns(buffer: seq<Byte>)
    requires |buffer| == BUFFER_BYTES
    requires buffer[20] == 0 && buffer[21] == 1 && buffer[22] == 0 && buffer[23] == 228
    requires buffer[252] == 0 && buffer[253] == 0x20 && buffer[254] == 0 && buffer[255] == 8
    ensures Expected(buffer, 20, 256) == OutOfBounds
  {
    hide Attributes, Leftover, FirstMapped, Trusted, Expected;
    HeaderSkipped(buffer);
    HeaderTrusted(buffer);
  }

  lemma {:induction false} HeaderSkipped(buffer: seq<Byte>)
    requires |buffer| == BUFFER_BYTES
    requires buffer[20] == 0 && buffer[21] == 1 && buffer[22] == 0 && buffer[23] == 228
    ensures Expected(buffer, 20, 256) == Expected(buffer, 252, 256)
  {
    hide Attributes, Leftover, FirstMapped, Expected, Trusted, Padded;
    StepOver(buffer, 20, 256);
    assert Kind(buffer[20..256]) == 1 && Length(buffer[20..256]) == 228;
    NoPadding();
  }

  lemma {:induction false} NoPadding()
    ensures Padded(228) == 228
  {
  }

  lemma {:induction false} HeaderTrusted(buffer: seq<Byte>)
    requires |buffer| == BUFFER_BYTES
    requires buffer[252] == 0 && buffer[253] == 0x20 && buffer[254] == 0 && buffer[255] == 8
    ensures Expected(buffer, 252, 256) == OutOfBounds
  {
    hide Attributes, Leftover, FirstMapped, Expected;
    StepOver(buffer, 252, 256);
    var body := buffer[252..256];
    assert Kind(body) == 0x20 && Length(body) == 8;
  }

  /** A claim that starts inside the message and ends behind it makes the loop read bytes the message does not have. */
  lemma {:induction false} ClaimBehindTheMessage(buffer: seq<Byte>)
    requires |buffer| == BUFFER_BYTES && buffer[20..24] == [0, 0x20, 0, 8] && buffer[25] == IPV4
    ensures Attributes(buffer[20..24]) == [] && Expected(buffer, 20, 24) == Found(buffer[24..32])
  {
    var body := buffer[20..24];
    assert body[0] == 0 && body[1] == 0x20 && body[2] == 0 && body[3] == 8;
  }

  // ----- The whole response -----

  datatype Reflexive = Mapped(address: Address) | Unknown | Overrun

  function Read(answer: Answer): Reflexive
    requires answer.Found? ==> |answer.masked| == 8
  {
    match answer
    case Found(masked) => Mapped(Unmask(masked))
    case NotFound => Unknown
    case OutOfBounds => Overrun
  }

  /** A success response to this transaction that the datagram holds entirely. */
  predicate Accepted(transaction: seq<Byte>, buffer: seq<Byte>, n: nat)
    requires |transaction| == 12 && |buffer| == BUFFER_BYTES && n <= BUFFER_BYTES
  {
    && n >= HEADER_BYTES
    && buffer[8..20] == transaction
    && U16(buffer[0], buffer[1]) == SUCCESS_RESPONSE
    && HEADER_BYTES + U16(buffer[2], buffer[3]) <= n
  }

  /** The part of the probe that reads a received datagram of `n` bytes. */
  method ReadResponse(transaction: seq<Byte>, buffer: seq<Byte>, n: nat) returns (result: Reflexive)
    requires |transaction| == 12 && |buffer| == BUFFER_BYTES && n <= BUFFER_BYTES
    ensures !Accepted(transaction, buffer, n) ==> result == Unknown
    ensures Accepted(transaction, buffer, n) ==>
              var answer := Expected(buffer, HEADER_BYTES, HEADER_BYTES + U16(buffer[2], buffer[3]));
              (answer.Found? ==> |answer.masked| == 8) && result == Read(answer)
  {
    if n < HEADER_BYTES || buffer[8..20] != transaction {
      return Unknown;
    }
    if U16(buffer[0], buffer[1]) != SUCCESS_RESPONSE {
      return Unknown;
    }
    var length := U16(buffer[2], buffer[3]);
    if n < HEADER_BYTES + length {
      return Unknown;
    }
    var answer := Walk(buffer, length);
    result := Read(answer);
  }

  function Bytes16(n: nat): seq<Byte>
    requires n < 0x1_0000
  {
    [n / 256, n % 256]
  }

  predicate Encodable(attribute: Attribute) {
    attribute.kind < 0x1_0000 && |attribute.value| < 0x1_0000
  }

  /** An attribute as a server writes it. */
  function Encode(attribute: Attribute): (s: seq<Byte>)
    requires Encodable(attribute)
    ensures |s| == 4 + Padded(|attribute.value|)
  {
    Bytes16(attribute.kind) + Bytes16(|attribute.value|) + attribute.value
      + seq(Padded(|attribute.value|) - |attribute.value|, _ => 0)
  }

  function EncodeAll(attributes: seq<Attribute>): seq<Byte>
    requires forall i :: 0 <= i < |attributes| ==> Encodable(attributes[i])
  {
    if |attributes| == 0 then [] else Encode(attributes[0]) + EncodeAll(attributes[1..])
  }

  lemma {:induction false} FrontOfEncoded(attribute: Attribute, more: seq<Byte>)
    requires Encodable(attribute)
    ensures var body := Encode(attribute) + more; Fits(body) && Front(body) == attribute && Beyond(body) == more
  {
    var body := Encode(attribute) + more;
    var n := |attribute.value|;
    assert body[0] == attribute.kind / 256 && body[1] == attribute.kind % 256;
    assert body[2] == n / 256 && body[3] == n % 256;
    assert body[4..4 + n] == attribute.value;
    assert body[4 + Padded(n)..] == more;
  }

  /** The parse inverts the server's encoding. */
  lemma {:induction false} AttributesInvertEncode(attributes: seq<Attribute>)
    requires forall i :: 0 <= i < |attributes| ==> Encodable(attributes[i])
    ensures Attributes(EncodeAll(attributes)) == attributes
    ensures Leftover(EncodeAll(attributes)) == []
  {
    if |attributes| > 0 {
      FrontOfEncoded(attributes[0], EncodeAll(attributes[1..]));
      AttributesInvertEncode(attributes[1..]);
      assert attributes == [attributes[0]] + attributes[1..];
    }
  }

  /** Any attributes that are not IPv4 mapped addresses may come before; anything may come after. */
  lemma {:induction false} FirstMappedSkips(before: seq<Attribute>, mapped: Attribute, after: seq<Attribute>)
    requires forall i :: 0 <= i < |before| ==> !IsMapped(before[i])
    requires IsMapped(mapped)
    ensures FirstMapped(before + [mapped] + after) == Some(mapped.value[..8])
  {
    var all := before + [mapped] + after;
    if |before| > 0 {
      FirstMappedSkips(before[1..], mapped, after);
      assert all[0] == before[0] && all[1..] == before[1..] + [mapped] + after;
    } else {
      assert all[0] == mapped;
    }
  }

  lemma {:induction false} MappedIsFound(buffer: seq<Byte>, before: seq<Attribute>, mapped: Attribute, after: seq<Attribute>)
    requires |buffer| == BUFFER_BYTES && Encodable(mapped) && IsMapped(mapped)
    requires forall i :: 0 <= i < |before| ==> Encodable(before[i]) && !IsMapped(before[i])
    requires forall i :: 0 <= i < |after| ==> Encodable(after[i])
    requires var body := EncodeAll(before + [mapped] + after);
             HEADER_BYTES + |body| <= BUFFER_BYTES && buffer[HEADER_BYTES..HEADER_BYTES + |body|] == body
    ensures var body := EncodeAll(before + [mapped] + after);
            Expected(buffer, HEADER_BYTES, HEADER_BYTES + |body|) == Found(mapped.value[..8])
  {
    hide Attributes, EncodeAll, Encodable, IsMapped, Trusted;
    AttributesInvertEncode(before + [mapped] + after);
    FirstMappedSkips(before, mapped, after);
  }

  /**
   The round trip: whatever attributes surround it, and whatever the buffer holds behind the
   message, the probe reads the address a server put into its response.
   */
  lemma {:induction false} ServerAddressIsRead(buffer: seq<Byte>, before: seq<Attribute>, address: Address, after: seq<Attribute>)
    requires |buffer| == BUFFER_BYTES && address.port < 0x1_0000
    requires forall i :: 0 <= i < |before| ==> Encodable(before[i]) && !IsMapped(before[i])
    requires forall i :: 0 <= i < |after| ==> Encodable(after[i])
    requires var body := EncodeAll(before + [Attribute(XOR_MAPPED_ADDRESS, Mask(address))] + after);
             HEADER_BYTES + |body| <= BUFFER_BYTES && buffer[HEADER_BYTES..HEADER_BYTES + |body|] == body
    ensures var body := EncodeAll(before + [Attribute(XOR_MAPPED_ADDRESS, Mask(address))] + after);
            var answer := Expected(buffer, HEADER_BYTES, HEADER_BYTES + |body|);
            answer.Found? && |answer.masked| == 8 && Read(answer) == Mapped(address)
  {
    MappedIsFound(buffer, before, Attribute(XOR_MAPPED_ADDRESS, Mask(address)), after);
    assert Mask(address)[..8] == Mask(address) + [];
    UnmaskMask(address, []);
  }
}
