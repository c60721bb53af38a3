/** The packets of src/packet.c: what each builder puts in its buffer, and what a peer reads back. */
module Wire {
  import opened Bytes

  const PACKET_RRQ: U16 := 1
  const PACKET_WRQ: U16 := 2
  const PACKET_DATA: U16 := 3
  const PACKET_ACK: U16 := 4
  const PACKET_ERROR: U16 := 5
  const PACKET_OACK: U16 := 6

  const ERROR_NOFILE: U16 := 1
  const ERROR_ILLEGAL: U16 := 4
  const ERROR_NOUSER: U16 := 7
  const ERROR_OPTION: U16 := 8

  const MAX_PACKET_SIZE: nat := 516

  // ---------- Layouts ----------

  function DataPacket(blockno: U16, data: seq<Byte>): seq<Byte> {
    PutU16(PACKET_DATA) + PutU16(blockno) + data
  }

  function AckPacket(blockno: U16): seq<Byte> {
    PutU16(PACKET_ACK) + PutU16(blockno)
  }

  function ErrorPacket(errnum: U16, text: seq<Byte>): seq<Byte> {
    PutU16(PACKET_ERROR) + PutU16(errnum) + text + [0]
  }

  /** The option acknowledgement of RFC 2347. */
  function IntendedOack(option: seq<Byte>, value: seq<Byte>): seq<Byte> {
    PutU16(PACKET_OACK) + option + [0] + value + [0]
  }

  /** What the last terminator does to the value: it lands on the value's first byte. */
  function BlankFirst(value: seq<Byte>): seq<Byte> {
    if value == [] then [] else [0] + value[1..]
  }

  /** The option acknowledgement the code queues, with its surplus zero bytes. */
  function OackPacket(option: seq<Byte>, value: seq<Byte>): seq<Byte> {
    PutU16(PACKET_OACK) + option + [0] + BlankFirst(value) + [0, 0, 0]
  }

  // ---------- What a peer reads ----------

  datatype Message =
    | Data(blockno: U16, payload: seq<Byte>)
    | Ack(blockno: U16)
    | Err(errnum: U16, text: seq<Byte>)
    | Oack(option: seq<Byte>, value: seq<Byte>)
    | Other

  /** A 16-bit field as a peer reads it, high byte first. */
  function Field(hi: Byte, lo: Byte): U16 {
    var h: int, l: int := hi, lo;
    h * 256 + l
  }

  /** Reads a packet as section 5 of RFC 783 and 'Packet Formats' of RFC 2347 lay it out, with their opcodes. */
  function Decode(p: seq<Byte>): Message {
    if |p| < 4 || p[0] != 0 then Other
    else
      if p[1] == 3 then Data(Field(p[2], p[3]), p[4..])
      else if p[1] == 4 then Ack(Field(p[2], p[3]))
      else if p[1] == 5 then Err(Field(p[2], p[3]), CStr(p[4..]))
      else if p[1] == 6 then
        var option := CStr(p[2..]);
        CStrIsPrefix(p[2..]);
        Oack(option, CStr(p[Min(|p|, 2 + |option| + 1)..]))
      else Other
  }

  /** Every layout, byte by byte. */
  lemma LayoutsAreLiteral(n: U16, data: seq<Byte>, option: seq<Byte>, value: seq<Byte>)
    ensures DataPacket(n, data) == [0, 3, n / 256, n % 256] + data
    ensures AckPacket(n) == [0, 4, n / 256, n % 256]
    ensures ErrorPacket(n, data) == [0, 5, n / 256, n % 256] + data + [0]
    ensures IntendedOack(option, value) == [0, 6] + option + [0] + value + [0]
    ensures OackPacket(option, value) ==
      [0, 6] + option + [0] + (if value == [] then [] else [0] + value[1..]) + [0, 0, 0]
  {
  }

  lemma FieldOfBytes(n: U16)
    ensures Field(n / 256, n % 256) == n
  {
  }

  lemma DecodeData(blockno: U16, data: seq<Byte>)
    ensures Decode(DataPacket(blockno, data)) == Data(blockno, data)
  {
    hide Field;
    LayoutsAreLiteral(blockno, data, [], []);
    FieldOfBytes(blockno);
    assert DataPacket(blockno, data)[4..] == data;
  }

  lemma DecodeAck(blockno: U16)
    ensures Decode(AckPacket(blockno)) == Ack(blockno)
  {
    hide Field;
    LayoutsAreLiteral(blockno, [], [], []);
    FieldOfBytes(blockno);
  }

  lemma DecodeError(errnum: U16, text: seq<Byte>)
    requires NulFree(text)
    ensures Decode(ErrorPacket(errnum, text)) == Err(errnum, text)
  {
    hide Field;
    LayoutsAreLiteral(errnum, text, [], []);
    FieldOfBytes(errnum);
    assert ErrorPacket(errnum, text)[4..] == text + [0];
    CStrOfTerminated(text, [0]);
  }

  lemma DropPrefix(head: seq<Byte>, tail: seq<Byte>)
    ensures (head + tail)[|head|..] == tail
  {
  }

  lemma DecodeOackFields(p: seq<Byte>, option: seq<Byte>)
    requires |p| >= 4 && p[..2] == [0, 6] && CStr(p[2..]) == option && 2 + |option| + 1 <= |p|
    ensures Decode(p) == Oack(option, CStr(p[2 + |option| + 1..]))
  {
    hide CStr;
  }

  lemma OackHeader(option: seq<Byte>, rest: seq<Byte>, p: seq<Byte>)
    requires NulFree(option) && |rest| >= 2 && rest[0] == 0
    requires p == [0, 6] + (option + rest)
    ensures |p| >= 4 && p[..2] == [0, 6] && CStr(p[2..]) == option
  {
    assert p[2..] == option + rest;
    CStrOfTerminated(option, rest);
  }

  /** Any OACK whose option field is `option` decodes to the C string that follows it. */
  lemma DecodeOackTail(option: seq<Byte>, tail: seq<Byte>)
    requires NulFree(option) && |tail| >= 1
    ensures Decode([0, 6] + option + [0] + tail) == Oack(option, CStr(tail))
  {
    hide Decode, CStr;
    var header: seq<Byte> := [0, 6];
    var p := header + option + [0] + tail;
    var rest := [0] + tail;
    assert p == header + (option + rest);
    OackHeader(option, rest, p);
    DecodeOackFields(p, option);
    DropPrefix(header + option + [0], tail);
  }

  lemma DecodeIntendedOack(option: seq<Byte>, value: seq<Byte>)
    requires NulFree(option) && NulFree(value)
    ensures Decode(IntendedOack(option, value)) == Oack(option, value)
  {
    hide Decode;
    LayoutsAreLiteral(0, [], option, value);
    DecodeOackTail(option, value + [0]);
    CStrOfTerminated(value, [0]);
    assert IntendedOack(option, value) == [0, 6] + option + [0] + (value + [0]);
  }

  /** The misplaced terminator empties every value: the option survives, the value never does. */
  lemma DecodeQueuedOack(option: seq<Byte>, value: seq<Byte>)
    requires NulFree(option)
    ensures Decode(OackPacket(option, value)) == Oack(option, [])
    ensures NulFree(value) ==>
      (Decode(OackPacket(option, value)) == Decode(IntendedOack(option, value)) <==> value == [])
  {
    hide Decode;
    var tail := BlankFirst(value) + [0, 0, 0];
    LayoutsAreLiteral(0, [], option, value);
    DecodeOackTail(option, tail);
    assert tail[0] == 0;
    assert OackPacket(option, value) == [0, 6] + option + [0] + tail;
    if NulFree(value) {
      DecodeIntendedOack(option, value);
    }
  }

  // ---------- The builders ----------

  /** memcpy / strcpy through a moving pointer; returns the pointer moved past what was copied. */
  method Copy(dst: array<Byte>, at: nat, src: seq<Byte>) returns (next: nat)
    requires at + |src| <= dst.Length
    modifies dst
    ensures next == at + |src|
    ensures dst[..] == old(dst[..at]) + src + old(dst[at + |src|..])
    ensures forall i :: next <= i < dst.Length ==> dst[i] == old(dst[i])
  {
    next := at;
    while next < at + |src|
      invariant at <= next <= at + |src|
      invariant forall i :: 0 <= i < at ==> dst[i] == old(dst[i])
      invariant forall i :: at <= i < next ==> dst[i] == src[i - at]
      invariant forall i :: next <= i < dst.Length ==> dst[i] == old(dst[i])
    {
      dst[next] := src[next - at];
      next := next + 1;
    }
  }

  method BuildData(blockno: U16, data: seq<Byte>) returns (p: array<Byte>)
    ensures fresh(p) && p[..] == DataPacket(blockno, data) == [0, 3, blockno / 256, blockno % 256] + data
  {
    hide PutU16;
    LayoutsAreLiteral(blockno, data, [], []);
    p := new Byte[|data| + 4](_ => 0);
    var pptr := Copy(p, 0, PutU16(PACKET_DATA));
    pptr := Copy(p, pptr, PutU16(blockno));
    pptr := Copy(p, pptr, data);
  }

  method BuildAck(blockno: U16) returns (p: array<Byte>)
    ensures fresh(p) && p[..] == AckPacket(blockno) == [0, 4, blockno / 256, blockno % 256]
  {
    hide PutU16;
    LayoutsAreLiteral(blockno, [], [], []);
    p := new Byte[4](_ => 0);
    var pptr := Copy(p, 0, PutU16(PACKET_ACK));
    pptr := Copy(p, pptr, PutU16(blockno));
  }

  method BuildError(errnum: U16, text: seq<Byte>) returns (p: array<Byte>)
    requires |text| + 4 <= MAX_PACKET_SIZE
    ensures fresh(p) && p[..] == ErrorPacket(errnum, text) == [0, 5, errnum / 256, errnum % 256] + text + [0]
  {
    hide PutU16;
    LayoutsAreLiteral(errnum, text, [], []);
    p := new Byte[|text| + 4 + 1](_ => 0);
    var pptr := Copy(p, 0, PutU16(PACKET_ERROR));
    pptr := Copy(p, pptr, PutU16(errnum));
    pptr := Copy(p, pptr, text);
    assert p[..pptr] == PutU16(PACKET_ERROR) + PutU16(errnum) + text;
    p[pptr] := 0;
  }

  /** The last store overwrites the value's first byte, or a zero when there is no value. */
  lemma LastTerminator(head: seq<Byte>, value: seq<Byte>)
    ensures (head + value + [0, 0, 0])[|head| := 0] == head + BlankFirst(value) + [0, 0, 0]
  {
    var before := head + value + [0, 0, 0];
    var after := head + BlankFirst(value) + [0, 0, 0];
    assert forall i :: 0 <= i < |before| && i != |head| ==> before[i] == after[i];
  }

  /** The option acknowledgement up to its first terminator; returns where the value goes. */
  method BuildOackHead(p: array<Byte>, option: seq<Byte>) returns (pptr: nat)
    requires 2 + |option| + 1 <= p.Length && forall i :: 0 <= i < p.Length ==> p[i] == 0
    modifies p
    ensures pptr == 2 + |option| + 1
    ensures p[..] == PutU16(PACKET_OACK) + option + [0] + Zeros(p.Length - pptr)
  {
    hide PutU16;
    pptr := Copy(p, 0, PutU16(PACKET_OACK));
    pptr := Copy(p, pptr, option);
    p[pptr] := 0;
    pptr := pptr + 1;
    assert p[pptr..] == Zeros(p.Length - pptr);
    assert p[..pptr] == PutU16(PACKET_OACK) + option + [0];
    assert p[..] == p[..pptr] + p[pptr..];
  }

  method BuildOack(option: seq<Byte>, value: seq<Byte>) returns (p: array<Byte>)
    ensures fresh(p) && p[..] == OackPacket(option, value)
    ensures p[..] == [0, 6] + option + [0] + (if value == [] then [] else [0] + value[1..]) + [0, 0, 0]
  {
    hide PutU16;
    LayoutsAreLiteral(0, [], option, value);
    p := new Byte[4 + |option| + |value| + 2](_ => 0);
    var pptr := BuildOackHead(p, option);
    ghost var head := PutU16(PACKET_OACK) + option + [0];
    assert p[..pptr] == head;
    ghost var rest := p[pptr + |value|..];
    assert rest == [0, 0, 0];
    var end := Copy(p, pptr, value);
    assert p[..] == head + value + rest;
    LastTerminator(head, value);
    p[pptr] := 0;
  }
}
