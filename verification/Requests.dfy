/** The field scanner of src/process.c and the receive buffer it walks over (src/socket.c). */
module Requests {
  import opened Bytes
  import opened Wire

  /** Size of a socket's receive buffer. */
  const PKTLEN: nat := 65464 + 4

  /** maxlen in the request cases: the buffer without its opcode. */
  const MAXLEN: nat := PKTLEN - 2

  /** Decoded request fields; param is empty when the option is empty and so was never scanned. */
  datatype Request = Request(filename: seq<Byte>, mode: seq<Byte>, opt: seq<Byte>, param: seq<Byte>)

  /** ReceivePackets: the zeroed buffer with the datagram copied to its front. */
  function Buffer(d: seq<Byte>): (b: seq<Byte>)
    requires |d| <= PKTLEN
    ensures |b| == PKTLEN == 65468
  {
    d + Zeros(PKTLEN - |d|)
  }

  /** A datagram of at most 516 bytes whose first two bytes are 0 and `n`; missing bytes read as 0. */
  predicate HasOpcode(d: seq<Byte>, n: Byte) {
    |d| <= 516 && Buffer(d)[0] == 0 && Buffer(d)[1] == n
  }

  /** strndup(data, MAXLEN) with data at offset `pos`. */
  function FieldAt(b: seq<Byte>, pos: nat): seq<Byte>
    requires pos <= |b|
  {
    CStr(b[pos..Min(pos + MAXLEN, |b|)])
  }

  /** The offset after a field and its terminator, kept inside the buffer. */
  function After(b: seq<Byte>, pos: nat): (next: nat)
    requires pos <= |b|
    ensures next <= |b|
  {
    Min(pos + |FieldAt(b, pos)| + 1, |b|)
  }

  function ParseRequest(b: seq<Byte>): Request
    requires 2 <= |b|
  {
    var p1 := After(b, 2);
    var p2 := After(b, p1);
    var p3 := After(b, p2);
    var opt := FieldAt(b, p2);
    Request(FieldAt(b, 2), FieldAt(b, p1), opt, if opt == [] then [] else FieldAt(b, p3))
  }

  // ---------- The scanner ----------

  /** Every byte the macro reads is inside the buffer: a NUL lies ahead. */
  ghost predicate NulAhead(b: seq<Byte>, pos: nat) {
    exists k :: pos <= k < |b| && b[k] == 0
  }

  method GetNext(b: array<Byte>, data: nat) returns (str: seq<Byte>, next: nat)
    requires NulAhead(b[..], data) && b.Length <= data + MAXLEN
    ensures str == FieldAt(b[..], data) && next == data + |str| + 1
    ensures next <= b.Length && next == After(b[..], data)
  {
    ghost var k :| data <= k < |b[..]| && b[..][k] == 0;
    var n := 0;
    while n < MAXLEN && b[data + n] != 0
      invariant data + n <= k
      invariant forall i :: data <= i < data + n ==> b[i] != 0
      decreases k - n
    {
      n := n + 1;
    }
    str := b[data..data + n];
    next := data + n + 1;
    FieldEndsAtNul(b[..], data, n);
  }

  /** The bytes up to the first NUL are the field. */
  lemma FieldEndsAtNul(b: seq<Byte>, pos: nat, n: nat)
    requires pos + n < |b| <= pos + MAXLEN && b[pos + n] == 0
    requires forall i :: pos <= i < pos + n ==> b[i] != 0
    ensures FieldAt(b, pos) == b[pos..pos + n]
  {
    var str := b[pos..pos + n];
    var rest := b[pos + n..];
    assert b[pos..Min(pos + MAXLEN, |b|)] == str + rest;
    assert rest[0] == 0;
    CStrOfTerminated(str, rest);
  }

  /** The four field reads shared by the read and write request cases. */
  method ScanRequest(b: array<Byte>, ghost d: seq<Byte>) returns (q: Request)
    requires |d| <= MAX_PACKET_SIZE && b[..] == Buffer(d)
    ensures q == ParseRequest(b[..])
  {
    var data := 2;
    var filename, mode, opt;
    var param := [];
    FieldEnds(d, 2);
    filename, data := GetNext(b, data);
    FieldEnds(d, data);
    mode, data := GetNext(b, data);
    FieldEnds(d, data);
    opt, data := GetNext(b, data);
    if |opt| != 0 {
      FieldEnds(d, data);
      param, data := GetNext(b, data);
    }
    q := Request(filename, mode, opt, param);
  }

  // ---------- Where the scanner stops ----------

  function Max(a: int, b: int): int {
    if a < b then b else a
  }

  /** From offset 2 on the length bound never cuts: a field is the C string at its offset. */
  lemma FieldIsCStr(b: seq<Byte>, pos: nat)
    requires |b| == PKTLEN && 2 <= pos <= |b|
    ensures var f := FieldAt(b, pos);
      && f == CStr(b[pos..]) && NulFree(f) && pos + |f| <= |b| && f == b[pos..pos + |f|]
      && (forall i :: pos <= i < pos + |f| ==> b[i] != 0)
      && (pos + |f| < |b| ==> b[pos + |f|] == 0)
  {
    assert b[pos..Min(pos + MAXLEN, |b|)] == b[pos..];
    CStrIsPrefix(b[pos..]);
    var f := FieldAt(b, pos);
    assert forall i :: pos <= i < pos + |f| ==> b[i] == f[i - pos];
  }

  /** A field that starts inside the datagram ends inside it; one that starts behind it is empty. */
  lemma FieldEnds(d: seq<Byte>, pos: nat)
    requires |d| <= MAX_PACKET_SIZE && 2 <= pos <= |d| + 5
    ensures var b := Buffer(d);
      && pos + |FieldAt(b, pos)| <= Max(|d|, pos)
      && b[pos + |FieldAt(b, pos)|] == 0
      && After(b, pos) == pos + |FieldAt(b, pos)| + 1
      && NulAhead(b, pos)
  {
    var b := Buffer(d);
    var end := Max(|d|, pos);
    assert b[end] == 0;
    FieldIsCStr(b, pos);
  }

  /** Two buffers that agree up to a field's terminator hold the same field. */
  lemma FieldDependsOnPrefix(b: seq<Byte>, b': seq<Byte>, pos: nat, n: nat)
    requires |b| == |b'| == PKTLEN && 2 <= pos && n <= PKTLEN && b[..n] == b'[..n]
    requires pos <= n && pos + |FieldAt(b, pos)| < n
    ensures FieldAt(b', pos) == FieldAt(b, pos) && After(b', pos) == After(b, pos)
  {
    FieldIsCStr(b, pos);
    FieldIsCStr(b', pos);
    var f := FieldAt(b, pos);
    var end := pos + |f|;
    assert b'[pos..end] == b'[..n][pos..end] == b[..n][pos..end] == f;
    assert b'[end] == b'[..n][end] == b[..n][end] == 0;
    assert b'[pos..] == f + b'[end..];
    CStrOfTerminated(f, b'[end..]);
  }

  /** Parsing a request of `len` bytes looks at no byte past the first len + 3. */
  lemma ParseLooksAtLenPlusThree(d: seq<Byte>, b': seq<Byte>)
    requires 2 <= |d| <= MAX_PACKET_SIZE && |b'| == PKTLEN
    requires b'[..|d| + 3] == Buffer(d)[..|d| + 3]
    ensures ParseRequest(b') == ParseRequest(Buffer(d))
  {
    var b := Buffer(d);
    var n := |d| + 3;
    FieldEnds(d, 2);
    FieldDependsOnPrefix(b, b', 2, n);
    var p1 := After(b, 2);
    FieldEnds(d, p1);
    FieldDependsOnPrefix(b, b', p1, n);
    var p2 := After(b, p1);
    FieldEnds(d, p2);
    FieldDependsOnPrefix(b, b', p2, n);
    if FieldAt(b, p2) != [] {
      var p3 := After(b, p2);
      FieldEnds(d, p3);
      FieldDependsOnPrefix(b, b', p3, n);
    }
  }

  // ---------- Requests as a peer encodes them ----------

  datatype Choice = NoOption | WithOption(name: seq<Byte>, value: seq<Byte>)

  function EncodeOption(o: Choice): seq<Byte> {
    match o
    case NoOption => []
    case WithOption(name, value) => name + [0] + value + [0]
  }

  /** RRQ and WRQ of RFC 783, with the option fields of RFC 2347. */
  function EncodeRequest(opcode: U16, filename: seq<Byte>, mode: seq<Byte>, o: Choice): seq<Byte> {
    PutU16(opcode) + filename + [0] + mode + [0] + EncodeOption(o)
  }

  ghost predicate Encodable(filename: seq<Byte>, mode: seq<Byte>, o: Choice) {
    && NulFree(filename) && NulFree(mode)
    && (o.WithOption? ==> NulFree(o.name) && NulFree(o.value) && o.name != [])
  }

  /** One field read: `field` and its NUL stand at `pos`. */
  lemma FieldFound(b: seq<Byte>, head: seq<Byte>, field: seq<Byte>, tail: seq<Byte>)
    requires |b| == PKTLEN && b == head + field + [0] + tail && NulFree(field) && 2 <= |head|
    ensures FieldAt(b, |head|) == field
    ensures After(b, |head|) == |head + field + [0]|
  {
    FieldIsCStr(b, |head|);
    assert b[|head|..] == field + ([0] + tail);
    CStrOfTerminated(field, [0] + tail);
  }

  /** The file name and mode are found, and the option fields start at the offset named. */
  lemma NameAndModeFound(b: seq<Byte>, opcode: U16, filename: seq<Byte>, mode: seq<Byte>, tail: seq<Byte>)
    requires |b| == PKTLEN && NulFree(filename) && NulFree(mode)
    requires b == PutU16(opcode) + filename + [0] + mode + [0] + tail
    ensures GetU16(b) == opcode
    ensures FieldAt(b, 2) == filename
    ensures FieldAt(b, After(b, 2)) == mode
    ensures After(b, After(b, 2)) == |PutU16(opcode) + filename + [0] + mode + [0]|
  {
    var h0 := PutU16(opcode);
    var h1 := h0 + filename + [0];
    assert b == h0 + filename + [0] + (mode + [0] + tail);
    FieldFound(b, h0, filename, mode + [0] + tail);
    FieldFound(b, h1, mode, tail);
  }

  /** Request parsing undoes request encoding. */
  lemma ParseOfEncode(opcode: U16, filename: seq<Byte>, mode: seq<Byte>, o: Choice)
    requires Encodable(filename, mode, o)
    requires |EncodeRequest(opcode, filename, mode, o)| <= MAX_PACKET_SIZE
    ensures var d := EncodeRequest(opcode, filename, mode, o);
      && GetU16(Buffer(d)) == opcode
      && ParseRequest(Buffer(d)) ==
         (if o.NoOption? then Request(filename, mode, [], []) else Request(filename, mode, o.name, o.value))
  {
    hide FieldAt, After, PutU16;
    var d := EncodeRequest(opcode, filename, mode, o);
    var b := Buffer(d);
    var zeros := Zeros(PKTLEN - |d|);
    var h2 := PutU16(opcode) + filename + [0] + mode + [0];
    assert b == h2 + (EncodeOption(o) + zeros);
    NameAndModeFound(b, opcode, filename, mode, EncodeOption(o) + zeros);
    match o
    case NoOption =>
      assert zeros == [] + [0] + zeros[1..];
      assert b == h2 + [] + [0] + zeros[1..];
      FieldFound(b, h2, [], zeros[1..]);
    case WithOption(name, value) =>
      OptionFound(b, h2, name, value, zeros);
  }

  lemma OptionFound(b: seq<Byte>, head: seq<Byte>, name: seq<Byte>, value: seq<Byte>, tail: seq<Byte>)
    requires |b| == PKTLEN && 2 <= |head| && NulFree(name) && NulFree(value)
    requires b == head + (name + [0] + value + [0] + tail)
    ensures FieldAt(b, |head|) == name
    ensures FieldAt(b, After(b, |head|)) == value
  {
    assert b == head + name + [0] + (value + [0] + tail);
    FieldFound(b, head, name, value + [0] + tail);
    assert b == (head + name + [0]) + value + [0] + tail;
    FieldFound(b, head + name + [0], value, tail);
  }
}
