/** The TLV codec of wakaama/tlv.c (OMA LWM2M TS, section 6.3.3). */
module Tlv {
  // A record is a header followed by a payload. The header holds the record type, an 8 or 16 bit
  // identifier and, unless the payload has at most 7 bytes, an 8, 16 or 24 bit length. The payload of an
  // object instance or of a multiple resource is itself a sequence of records. The C masks and shifts on
  // the header byte are written here as quotients and remainders.

  import opened Core

  datatype LeafKind = Resource | ResourceInstance
  datatype NodeKind = MultipleResource | ObjectInstance

  /** A lwm2m_tlv_t: `value` and `children` are the two readings of its value pointer. */
  datatype Record =
    | Leaf(leaf: LeafKind, id: uint16, value: seq<byte>)
    | Node(node: NodeKind, id: uint16, children: seq<Record>)

  /** What lwm2m_decodeTLV finds at the start of a buffer. */
  datatype Header = Header(typeBits: byte, id: uint16, dataIndex: nat, dataLen: nat) {
    function Size(): nat { dataIndex + dataLen }
    predicate IsNode() { typeBits == 0x00 || typeBits == 0x80 }
  }

  // the largest length a header can carry
  const MAX_PAYLOAD := 0xFF_FFFF

  function TypeBits(r: Record): byte {
    match r
    case Leaf(Resource, _, _) => 0xC0
    case Leaf(ResourceInstance, _, _) => 0x40
    case Node(MultipleResource, _, _) => 0x80
    case Node(ObjectInstance, _, _) => 0x00
  }

  // ---------- sizes ----------

  function HeaderLength(id: uint16, dataLen: nat): nat {
    2 + (if id > 0xFF then 1 else 0)
    + (if dataLen > 0xFFFF then 3 else if dataLen > 0xFF then 2 else if dataLen > 7 then 1 else 0)
  }

  function PayloadLength(r: Record): nat
    decreases r, 0
  {
    match r
    case Leaf(_, _, value) => |value|
    case Node(_, _, children) => ForestLength(children)
  }

  function RecordLength(r: Record): nat
    decreases r, 1
  {
    HeaderLength(r.id, PayloadLength(r)) + PayloadLength(r)
  }

  function ForestLength(f: seq<Record>): nat
    decreases f
  {
    if f == [] then 0 else RecordLength(f[0]) + ForestLength(f[1..])
  }

  // ---------- what the serializer writes ----------

  function IdBytes(id: uint16): seq<byte> {
    if id > 0xFF then [id / 0x100, id % 0x100] else [id]
  }

  function LengthBytes(n: nat): seq<byte>
    requires n <= MAX_PAYLOAD
  {
    if n > 0xFFFF then [n / 0x1_0000, n / 0x100 % 0x100, n % 0x100]
    else if n > 0xFF then [n / 0x100, n % 0x100]
    else if n > 7 then [n]
    else []
  }

  function LengthBits(n: nat): byte
    requires n <= MAX_PAYLOAD
  {
    if n > 0xFFFF then 0x18 else if n > 0xFF then 0x10 else if n > 7 then 0x08 else n
  }

  function IdBits(id: uint16): byte { if id > 0xFF then 0x20 else 0x00 }

  /** The bytes prv_create_header leaves in a buffer. For a payload above MAX_PAYLOAD the length is not
      written at all: the header bytes behind the identifier keep whatever the buffer held. */
  predicate IsHeader(typeBits: byte, id: uint16, dataLen: nat, h: seq<byte>)
    requires typeBits in {0x00, 0x40, 0x80, 0xC0}
  {
    && |h| == HeaderLength(id, dataLen)
    && if dataLen <= MAX_PAYLOAD
       then h == [typeBits + IdBits(id) + LengthBits(dataLen)] + IdBytes(id) + LengthBytes(dataLen)
       else h[..1 + |IdBytes(id)|] == [typeBits + IdBits(id)] + IdBytes(id)
  }

  /** The bytes lwm2m_tlv_serialize can leave for one record. */
  predicate WritesRecord(r: Record, b: seq<byte>)
    decreases r, 1
  {
    var n := PayloadLength(r);
    var h := HeaderLength(r.id, n);
    && |b| == h + n
    && IsHeader(TypeBits(r), r.id, n, b[..h])
    && (r.Leaf? ==> b[h..] == r.value)
    && (r.Node? ==> Writes(r.children, b[h..]))
  }

  /** The bytes lwm2m_tlv_serialize can leave for an array of records. */
  predicate Writes(f: seq<Record>, b: seq<byte>)
    decreases f
  {
    if f == [] then b == []
    else
      var n := RecordLength(f[0]);
      n <= |b| && WritesRecord(f[0], b[..n]) && Writes(f[1..], b[n..])
  }

  function HeaderOf(r: Record): Header {
    var n := PayloadLength(r);
    Header(TypeBits(r), r.id, HeaderLength(r.id, n), n)
  }

  /** Every composite record has at least one child, at every depth. */
  predicate Populated(f: seq<Record>)
    decreases f
  {
    f != [] ==>
      && (f[0].Node? ==> f[0].children != [] && Populated(f[0].children))
      && Populated(f[1..])
  }

  /** Every payload length fits the 24 bits of a header, at every depth. */
  predicate Fits(f: seq<Record>)
    decreases f
  {
    f != [] ==>
      && PayloadLength(f[0]) <= MAX_PAYLOAD
      && (f[0].Node? ==> Fits(f[0].children))
      && Fits(f[1..])
  }

  // ---------- what the parser reads ----------

  function LengthField(b: seq<byte>, at: nat): Option<(nat, nat)>
    requires 2 <= at <= 3 && at <= |b|
  {
    match b[0] / 8 % 4
    case 0 => Some((at, b[0] % 8))
    case 1 => if |b| < at + 1 then None else Some((at + 1, b[at]))
    case 2 => if |b| < at + 2 then None else Some((at + 2, b[at] as int * 0x100 + b[at + 1]))
    case _ => if |b| < at + 3 then None
              else Some((at + 3, b[at] as int * 0x1_0000 + b[at + 1] as int * 0x100 + b[at + 2]))
  }

  /** lwm2m_decodeTLV; None stands for its result 0. */
  function DecodeHeader(b: seq<byte>): (r: Option<Header>)
    ensures r.Some? ==> 2 <= r.value.dataIndex && r.value.Size() <= |b| && r.value.dataLen <= MAX_PAYLOAD
  {
    if |b| < 2 then None
    else
      var wide := b[0] / 0x20 % 2 == 1;
      if wide && |b| < 3 then None
      else
        var id: uint16 := if wide then b[1] as int * 0x100 + b[2] else b[1];
        var field := LengthField(b, if wide then 3 else 2);
        if field.None? || field.value.0 + field.value.1 > |b| then None
        else Some(Header(b[0] / 0x40 * 0x40, id, field.value.0, field.value.1))
  }

  function MakeNode(h: Header, children: seq<Record>): Record {
    Node(if h.typeBits == 0x80 then MultipleResource else ObjectInstance, h.id, children)
  }

  function MakeLeaf(h: Header, value: seq<byte>): Record {
    Leaf(if h.typeBits == 0xC0 then Resource else ResourceInstance, h.id, value)
  }

  /** One turn of the parser's loop, given what the payload and the remaining bytes parse to. */
  function Combine(h: Header, data: seq<byte>, children: Option<seq<Record>>, rest: Option<seq<Record>>)
    : Option<seq<Record>>
  {
    if h.IsNode() && (children.None? || children.value == []) then None
    else if rest.None? then None
    else Some([if h.IsNode() then MakeNode(h, children.value) else MakeLeaf(h, data)] + rest.value)
  }

  /** lwm2m_tlv_parse. None: some composite record held no record at all, so the parser gives up and
      returns 0. Bytes that do not start a record end the parse without an error. */
  function Parse(b: seq<byte>): Option<seq<Record>>
    decreases |b|
  {
    match DecodeHeader(b)
    case None => Some([])
    case Some(h) =>
      var data := b[h.dataIndex..h.Size()];
      Combine(h, data, if h.IsNode() then Parse(data) else Some([]), Parse(b[h.Size()..]))
  }

  /** The records the caller gets: an empty array stands for the result 0. */
  function Accepted(b: seq<byte>): seq<Record> {
    match Parse(b)
    case None => []
    case Some(f) => f
  }

  /** How many bytes the top level loop of lwm2m_tlv_parse has stepped over when it stops. */
  function Consumed(b: seq<byte>): (n: nat)
    ensures n <= |b|
    decreases |b|
  {
    match DecodeHeader(b)
    case None => 0
    case Some(h) => h.Size() + Consumed(b[h.Size()..])
  }

  // ---------- sizes are exact ----------

  lemma {:induction false} WritesLength(f: seq<Record>, b: seq<byte>)
    requires Writes(f, b)
    ensures |b| == ForestLength(f)
  {
    if f != [] {
      WritesLength(f[1..], b[RecordLength(f[0])..]);
    }
  }

  lemma {:induction false} ForestLengthAppend(f: seq<Record>, g: seq<Record>)
    ensures ForestLength(f + g) == ForestLength(f) + ForestLength(g)
  {
    if f == [] {
      assert f + g == g;
    } else {
      assert (f + g)[1..] == f[1..] + g;
      ForestLengthAppend(f[1..], g);
    }
  }

  lemma {:induction false} WritesAppend(f: seq<Record>, b: seq<byte>, g: seq<Record>, c: seq<byte>)
    requires Writes(f, b) && Writes(g, c)
    ensures Writes(f + g, b + c)
  {
    if f == [] {
      assert f + g == g && b + c == c;
    } else {
      var n := RecordLength(f[0]);
      assert (f + g)[1..] == f[1..] + g;
      assert (b + c)[..n] == b[..n];
      assert (b + c)[n..] == b[n..] + c;
      WritesAppend(f[1..], b[n..], g, c);
    }
  }

  // ---------- round trip ----------

  lemma Digits(a: nat, b: nat, c: nat, d: nat)
    requires a < 4 && b < 2 && c < 4 && d < 8
    ensures var x := a * 0x40 + b * 0x20 + c * 8 + d;
            x / 0x40 == a && x / 0x20 % 2 == b && x / 8 % 4 == c && x % 8 == d
  {
    var x := a * 0x40 + b * 0x20 + c * 8 + d;
    assert x / 0x20 == a * 2 + b;
    assert x / 8 == (a * 2 + b) * 4 + c;
  }

  lemma FlagBits(t: byte, id: uint16, n: nat)
    requires t in {0x00, 0x40, 0x80, 0xC0} && n <= MAX_PAYLOAD
    ensures var flags := t + IdBits(id) + LengthBits(n);
            && flags < 0x100
            && flags / 0x40 * 0x40 == t
            && (flags / 0x20 % 2 == 1 <==> id > 0xFF)
            && flags / 8 % 4 == LengthBits(n) / 8
            && (n <= 7 ==> flags % 8 == n)
  {
    var a := if t == 0xC0 then 3 else if t == 0x80 then 2 else if t == 0x40 then 1 else 0;
    var b := if id > 0xFF then 1 else 0;
    var c := if n > 0xFFFF then 3 else if n > 0xFF then 2 else if n > 7 then 1 else 0;
    var d := if n > 7 then 0 else n;
    Digits(a, b, c, d);
    Digits(0, 0, c, d);
  }

  lemma LengthFieldRoundTrip(s: seq<byte>, at: nat, n: nat)
    requires 2 <= at <= 3 && n <= MAX_PAYLOAD
    requires at + |LengthBytes(n)| <= |s| && s[at..at + |LengthBytes(n)|] == LengthBytes(n)
    requires s[0] / 8 % 4 == LengthBits(n) / 8 && (n <= 7 ==> s[0] % 8 == n)
    ensures LengthField(s, at) == Some((at + |LengthBytes(n)|, n))
  {
    var l := LengthBytes(n);
    var field := s[at..at + |l|];
    assert |l| > 0 ==> s[at] == field[0];
    assert |l| > 1 ==> s[at + 1] == field[1];
    assert |l| > 2 ==> s[at + 2] == field[2];
    assert n / 0x1_0000 == n / 0x100 / 0x100;
  }

  /** A header that fits is read back as the record it was written for. */
  lemma HeaderRoundTrip(t: byte, id: uint16, n: nat, h: seq<byte>, rest: seq<byte>)
    requires t in {0x00, 0x40, 0x80, 0xC0} && n <= MAX_PAYLOAD && IsHeader(t, id, n, h) && n <= |rest|
    ensures DecodeHeader(h + rest) == Some(Header(t, id, HeaderLength(id, n), n))
  {
    FlagBits(t, id, n);
    var s := h + rest;
    var at := 1 + |IdBytes(id)|;
    assert s[0] == h[0] && s[1] == h[1] == IdBytes(id)[0];
    if id > 0xFF {
      assert s[2] == h[2] == IdBytes(id)[1];
    }
    assert s[at..at + |LengthBytes(n)|] == LengthBytes(n);
    LengthFieldRoundTrip(s, at, n);
  }

  lemma RecordRoundTrip(r: Record, b: seq<byte>, rest: seq<byte>)
    requires WritesRecord(r, b) && PayloadLength(r) <= MAX_PAYLOAD
    ensures DecodeHeader(b + rest) == Some(HeaderOf(r))
    ensures HeaderOf(r).Size() == |b|
  {
    var h := HeaderLength(r.id, PayloadLength(r));
    assert b + rest == b[..h] + (b[h..] + rest);
    HeaderRoundTrip(TypeBits(r), r.id, PayloadLength(r), b[..h], b[h..] + rest);
  }

  /** A record whose payload does not fit is read back with an empty payload. */
  lemma OversizeDecodes(r: Record, b: seq<byte>, rest: seq<byte>)
    requires WritesRecord(r, b) && PayloadLength(r) > MAX_PAYLOAD
    ensures DecodeHeader(b + rest) == Some(Header(TypeBits(r), r.id, 1 + |IdBytes(r.id)|, 0))
  {
    var at := 1 + |IdBytes(r.id)|;
    var s := b + rest;
    assert forall i | 0 <= i < at :: s[i] == b[..HeaderLength(r.id, PayloadLength(r))][..at][i];
    FlagBits(TypeBits(r), r.id, 0);
    LengthFieldRoundTrip(s, at, 0);
  }

  lemma Rebuild(r: Record)
    ensures HeaderOf(r).IsNode() == r.Node?
    ensures r.Node? ==> MakeNode(HeaderOf(r), r.children) == r
    ensures r.Leaf? ==> MakeLeaf(HeaderOf(r), r.value) == r
  {
  }

  lemma ParseStep(b: seq<byte>, h: Header)
    requires DecodeHeader(b) == Some(h)
    ensures var data := b[h.dataIndex..h.Size()];
            Parse(b) == Combine(h, data, if h.IsNode() then Parse(data) else Some([]), Parse(b[h.Size()..]))
  {
  }

  /** A record of a forest comes back exactly when its payload fits and its children come back. */
  lemma RecordComesBack(f: seq<Record>, b: seq<byte>)
    requires f != [] && Writes(f, b)
    requires f[0].Node? && PayloadLength(f[0]) <= MAX_PAYLOAD ==>
      (Parse(b[HeaderOf(f[0]).dataIndex..RecordLength(f[0])]) == Some(f[0].children)
       <==> Populated(f[0].children) && Fits(f[0].children))
    ensures Parse(b) == Some(f) <==>
      && PayloadLength(f[0]) <= MAX_PAYLOAD
      && (f[0].Node? ==> f[0].children != [] && Populated(f[0].children) && Fits(f[0].children))
      && Parse(b[RecordLength(f[0])..]) == Some(f[1..])
  {
    var r := f[0];
    var n := RecordLength(r);
    assert b == b[..n] + b[n..];
    if PayloadLength(r) > MAX_PAYLOAD {
      OversizeDecodes(r, b[..n], b[n..]);
      var h := Header(TypeBits(r), r.id, 1 + |IdBytes(r.id)|, 0);
      ParseStep(b, h);
      assert b[h.dataIndex..h.Size()] == [];
    } else {
      RecordRoundTrip(r, b[..n], b[n..]);
      ParseStep(b, HeaderOf(r));
      Rebuild(r);
      assert b[HeaderOf(r).dataIndex..n] == b[..n][HeaderOf(r).dataIndex..];
      assert f == [r] + f[1..];
    }
  }

  /** The round trip holds exactly for the forests without empty composite records and without payloads
      above 24 bits, whatever the serializer found in the buffer it filled. */
  lemma {:induction false} RoundTrip(f: seq<Record>, b: seq<byte>)
    requires Writes(f, b)
    ensures Parse(b) == Some(f) <==> Populated(f) && Fits(f)
    decreases f
  {
    if f != [] {
      var r := f[0];
      var n := RecordLength(r);
      if r.Node? && PayloadLength(r) <= MAX_PAYLOAD {
        var data := b[HeaderOf(r).dataIndex..n];
        assert data == b[..n][HeaderOf(r).dataIndex..];
        RoundTrip(r.children, data);
      }
      RecordComesBack(f, b);
      RoundTrip(f[1..], b[n..]);
    }
  }

  // ---------- normal form ----------

  lemma HeaderLengthMonotonic(id: uint16, m: nat, n: nat)
    requires m <= n
    ensures HeaderLength(id, m) <= HeaderLength(id, n)
  {
  }

  /** The header that was read is at least as long as the one that would be written. */
  lemma HeaderIsMinimal(b: seq<byte>)
    requires DecodeHeader(b).Some?
    ensures var h := DecodeHeader(b).value; HeaderLength(h.id, h.dataLen) <= h.dataIndex
  {
  }

  /** Whatever the parser accepts can be written again, in no more bytes than were read. */
  lemma {:induction false} ParsedIsWritable(b: seq<byte>)
    requires Parse(b).Some?
    ensures var f := Parse(b).value; Populated(f) && Fits(f) && ForestLength(f) <= Consumed(b)
    decreases |b|
  {
    if DecodeHeader(b).Some? {
      var h := DecodeHeader(b).value;
      var data := b[h.dataIndex..h.Size()];
      var f := Parse(b).value;
      HeaderIsMinimal(b);
      ParsedIsWritable(b[h.Size()..]);
      if h.IsNode() {
        ParsedIsWritable(data);
      }
      HeaderLengthMonotonic(h.id, PayloadLength(f[0]), h.dataLen);
      assert f[1..] == Parse(b[h.Size()..]).value;
    }
  }

  /** Re-serialising what was accepted gives a normal form: no longer than the bytes it was read from,
      and read back as the same records. */
  lemma NormalForm(b: seq<byte>, c: seq<byte>)
    requires Accepted(b) != [] && Writes(Accepted(b), c)
    ensures |c| <= Consumed(b)
    ensures Accepted(c) == Accepted(b)
  {
    ParsedIsWritable(b);
    WritesLength(Accepted(b), c);
    RoundTrip(Accepted(b), c);
  }

  /** There is one way only to write a forest that fits. */
  lemma {:induction false} WritesUnique(f: seq<Record>, b: seq<byte>, c: seq<byte>)
    requires Writes(f, b) && Writes(f, c) && Fits(f)
    ensures b == c
    decreases f
  {
    if f != [] {
      var n := RecordLength(f[0]);
      var h := HeaderLength(f[0].id, PayloadLength(f[0]));
      if f[0].Node? {
        WritesUnique(f[0].children, b[..n][h..], c[..n][h..]);
      }
      assert b[..n] == b[..n][..h] + b[..n][h..] && c[..n] == c[..n][..h] + c[..n][h..];
      WritesUnique(f[1..], b[n..], c[n..]);
      assert b == b[..n] + b[n..] && c == c[..n] + c[n..];
    }
  }

  // ---------- the C functions ----------

  /** The bytes `was` with `data` copied over them at `at`. */
  function Splice(was: seq<byte>, at: nat, data: seq<byte>): (s: seq<byte>)
    requires at + |data| <= |was|
    ensures |s| == |was|
  {
    was[..at] + data + was[at + |data|..]
  }

  lemma SpliceTwice(was: seq<byte>, at: nat, first: seq<byte>, second: seq<byte>)
    requires at + |first| + |second| <= |was|
    ensures Splice(Splice(was, at, first), at + |first|, second) == Splice(was, at, first + second)
  {
  }

  lemma SpliceNothing(was: seq<byte>, at: nat)
    requires at <= |was|
    ensures Splice(was, at, []) == was
  {
  }

  lemma SpliceNext(was: seq<byte>, at: nat, data: seq<byte>, k: nat)
    requires k < |data| && at + |data| <= |was|
    ensures Splice(was, at, data[..k + 1]) == Splice(was, at, data[..k])[at + k := data[k]]
  {
  }

  lemma SetFirst(was: seq<byte>, at: nat, data: seq<byte>, first: byte)
    requires at + 1 + |data| <= |was|
    ensures Splice(was, at + 1, data)[at := first] == Splice(was, at, [first] + data)
  {
  }

  lemma KeepTail(was: seq<byte>, at: nat, data: seq<byte>, end: nat)
    requires at + |data| <= end <= |was|
    ensures Splice(was, at, data) == Splice(was, at, data + was[at + |data|..end])
  {
  }

  /** memcpy */
  method Put(buffer: array<byte>, at: nat, data: seq<byte>)
    requires at + |data| <= buffer.Length
    modifies buffer
    ensures buffer[..] == Splice(old(buffer[..]), at, data)
  {
    hide Splice;
    ghost var was := buffer[..];
    SpliceNothing(was, at);
    assert data[..0] == [];
    for k := 0 to |data|
      invariant buffer[..] == Splice(was, at, data[..k])
    {
      SpliceNext(was, at, data, k);
      buffer[at + k] := data[k];
    }
    assert data[..|data|] == data;
  }

  /** The header that prv_create_header leaves over the bytes `was`. */
  function HeaderOver(r: Record, dataLen: nat, was: seq<byte>): (h: seq<byte>)
    requires |was| == HeaderLength(r.id, dataLen)
    ensures IsHeader(TypeBits(r), r.id, dataLen, h)
  {
    if dataLen <= MAX_PAYLOAD
    then [TypeBits(r) + IdBits(r.id) + LengthBits(dataLen)] + IdBytes(r.id) + LengthBytes(dataLen)
    else [TypeBits(r) + IdBits(r.id)] + IdBytes(r.id) + was[1 + |IdBytes(r.id)|..]
  }

  lemma IdLength(id: uint16, n: nat)
    ensures 1 + |IdBytes(id)| + (if n <= MAX_PAYLOAD then |LengthBytes(n)| else 3) == HeaderLength(id, n)
  {
  }

  /** The three writes of prv_create_header, put together. */
  lemma AssembleHeader(r: Record, dataLen: nat, was: seq<byte>, at: nat, lengthBytes: seq<byte>, flags: byte)
    requires at + HeaderLength(r.id, dataLen) <= |was|
    requires lengthBytes == if dataLen <= MAX_PAYLOAD then LengthBytes(dataLen) else []
    requires flags == TypeBits(r) + IdBits(r.id) + if dataLen <= MAX_PAYLOAD then LengthBits(dataLen) else 0
    ensures var end := at + HeaderLength(r.id, dataLen);
            Splice(Splice(was, at + 1, IdBytes(r.id)), at + 1 + |IdBytes(r.id)|, lengthBytes)[at := flags]
            == Splice(was, at, HeaderOver(r, dataLen, was[at..end]))
  {
    hide Splice, TypeBits, IdBits, LengthBits, IdBytes, LengthBytes;
    var idBytes := IdBytes(r.id);
    var end := at + HeaderLength(r.id, dataLen);
    IdLength(r.id, dataLen);
    SpliceTwice(was, at + 1, idBytes, lengthBytes);
    SetFirst(was, at, idBytes + lengthBytes, flags);
    assert [flags] + (idBytes + lengthBytes) == [flags] + idBytes + lengthBytes;
    if dataLen > MAX_PAYLOAD {
      assert [flags] + idBytes + lengthBytes == [flags] + idBytes;
      KeepTail(was, at, [flags] + idBytes, end);
      assert was[at..end][1 + |idBytes|..] == was[at + 1 + |idBytes|..end];
    }
  }

  /** prv_create_header, at a place in the buffer */
  method CreateHeader(header: array<byte>, at: nat, r: Record, dataLen: nat) returns (headerLen: nat)
    requires at + HeaderLength(r.id, dataLen) <= header.Length
    modifies header
    ensures headerLen == HeaderLength(r.id, dataLen)
    ensures header[..] == Splice(old(header[..]), at, HeaderOver(r, dataLen, old(header[at..at + headerLen])))
  {
    hide Splice, HeaderOver;
    headerLen := HeaderLength(r.id, dataLen);
    ghost var was := header[..];
    var idBytes, lengthBytes := [], [];
    var flags: byte := TypeBits(r);
    if r.id > 0xFF {
      flags := flags + 0x20;
      idBytes := [r.id / 0x100, r.id % 0x100];
    } else {
      idBytes := [r.id];
    }
    Put(header, at + 1, idBytes);
    if dataLen <= 7 {
      flags := flags + dataLen;
    } else if dataLen <= 0xFF {
      flags := flags + 0x08;
      lengthBytes := [dataLen];
    } else if dataLen <= 0xFFFF {
      flags := flags + 0x10;
      lengthBytes := [dataLen / 0x100, dataLen % 0x100];
    } else if dataLen <= 0xFF_FFFF {
      flags := flags + 0x18;
      lengthBytes := [dataLen / 0x1_0000, dataLen / 0x100 % 0x100, dataLen % 0x100];
    }
    Put(header, at + 1 + |idBytes|, lengthBytes);
    header[at] := flags;
    AssembleHeader(r, dataLen, was, at, lengthBytes, flags);
  }

  /** prv_getLength */
  method GetLength(f: seq<Record>) returns (length: nat)
    ensures length == ForestLength(f)
    decreases f
  {
    length := 0;
    for i := 0 to |f|
      invariant length == ForestLength(f[..i])
    {
      var payload;
      match f[i] {
        case Leaf(_, _, value) => payload := |value|;
        case Node(_, _, children) => payload := GetLength(children);
      }
      length := length + HeaderLength(f[i].id, payload) + payload;
      assert f[..i + 1] == f[..i] + [f[i]];
      ForestLengthAppend(f[..i], [f[i]]);
      assert ForestLength([f[i]]) == RecordLength(f[i]);
    }
    assert f[..|f|] == f;
  }

  lemma {:induction false} PopulatedAppend(f: seq<Record>, g: seq<Record>)
    ensures Populated(f + g) <==> Populated(f) && Populated(g)
  {
    if f == [] {
      assert f + g == g;
    } else {
      assert (f + g)[1..] == f[1..] + g;
      PopulatedAppend(f[1..], g);
    }
  }

  lemma WritesSingleton(r: Record, b: seq<byte>)
    requires WritesRecord(r, b)
    ensures Writes([r], b)
  {
    assert b[..RecordLength(r)] == b && b[RecordLength(r)..] == [] && [r][1..] == [];
  }

  lemma Singleton(r: Record)
    ensures ForestLength([r]) == RecordLength(r)
    ensures Populated([r]) <==> (r.Node? ==> r.children != [] && Populated(r.children))
  {
  }

  /** What the serializer's loop needs to know about record i. */
  lemma SplitAt(f: seq<Record>, i: nat)
    requires i < |f|
    ensures f[..i + 1] == f[..i] + [f[i]]
    ensures ForestLength(f) >= ForestLength(f[..i]) + RecordLength(f[i])
    ensures Populated(f) ==> Populated([f[i]])
    ensures Populated(f[..i + 1]) <==> Populated(f[..i]) && Populated([f[i]])
  {
    var a, r, z := f[..i], [f[i]], f[i + 1..];
    assert f == a + (r + z) && f[..i + 1] == a + r;
    PopulatedAppend(a, r + z);
    PopulatedAppend(r, z);
    PopulatedAppend(a, r);
    ForestLengthAppend(a, r + z);
    ForestLengthAppend(r, z);
    Singleton(f[i]);
  }

  lemma EmptyForest(f: seq<Record>)
    ensures ForestLength(f) == 0 <==> f == []
    ensures Writes([], []) && Populated([])
  {
  }

  /** lwm2m_tlv_serialize. The result is 0 for an empty array and for an empty composite record. */
  method Serialize(f: seq<Record>) returns (length: nat, buffer: array<byte>)
    ensures fresh(buffer)
    ensures f != [] && Populated(f) ==> length == buffer.Length && Writes(f, buffer[..])
    ensures length == 0 <==> f == [] || !Populated(f)
    decreases f
  {
    hide Writes, Populated, RecordLength;
    length := GetLength(f);
    buffer := new byte[length];
    EmptyForest(f);
    if length == 0 {
      return;
    }
    var index: nat := 0;
    var i := 0;
    while i < |f| && length != 0
      invariant i <= |f| && fresh(buffer) && buffer.Length == ForestLength(f) && index <= buffer.Length
      invariant length != 0 ==> length == buffer.Length && Populated(f[..i]) && Writes(f[..i], buffer[..index])
      invariant length == 0 ==> !Populated(f)
    {
      var r := f[i];
      SplitAt(f, i);
      Singleton(r);
      WritesLength(f[..i], buffer[..index]);
      match r {
        case Node(_, _, children) =>
          var n, tmp := Serialize(children);
          if n == 0 {
            length := 0;
          } else {
            WritesLength(children, tmp[..]);
            index := AppendRecord(buffer, index, f[..i], r, tmp[..]);
          }
        case Leaf(_, _, value) =>
          index := AppendRecord(buffer, index, f[..i], r, value);
      }
      i := i + 1;
    }
    if length != 0 {
      assert i == |f| && f[..i] == f;
      WritesLength(f, buffer[..index]);
      assert buffer[..index] == buffer[..];
    }
  }

  lemma AssembleRecord(done: seq<Record>, r: Record, was: seq<byte>, at: nat, header: seq<byte>, payload: seq<byte>)
    requires at + |header| + |payload| <= |was| && Writes(done, was[..at])
    requires |payload| == PayloadLength(r) && IsHeader(TypeBits(r), r.id, |payload|, header)
    requires (r.Leaf? ==> payload == r.value) && (r.Node? ==> Writes(r.children, payload))
    ensures Writes(done + [r], Splice(Splice(was, at, header), at + |header|, payload)[..at + |header| + |payload|])
  {
    var b := header + payload;
    assert b[..|header|] == header && b[|header|..] == payload;
    WritesSingleton(r, b);
    WritesAppend(done, was[..at], [r], b);
    SpliceTwice(was, at, header, payload);
    assert Splice(was, at, b)[..at + |b|] == was[..at] + b;
  }

  /** The tail of the serializer's two loop branches: header, then payload. */
  method AppendRecord(buffer: array<byte>, at: nat, ghost done: seq<Record>, r: Record, payload: seq<byte>)
    returns (end: nat)
    requires |payload| == PayloadLength(r) && at + RecordLength(r) <= buffer.Length
    requires (r.Leaf? ==> payload == r.value) && (r.Node? ==> Writes(r.children, payload))
    requires Writes(done, buffer[..at])
    modifies buffer
    ensures end == at + RecordLength(r)
    ensures Writes(done + [r], buffer[..end])
  {
    ghost var was := buffer[..];
    var headerLen := CreateHeader(buffer, at, r, |payload|);
    Put(buffer, at + headerLen, payload);
    end := at + headerLen + |payload|;
    AssembleRecord(done, r, was, at, HeaderOver(r, |payload|, was[at..at + headerLen]), payload);
    assert buffer[..end] == buffer[..][..end];
  }

  /** The length field of lwm2m_decodeTLV. */
  method DecodeLength(buffer: array<byte>, from: nat, len: nat, at: nat) returns (field: Option<(nat, nat)>)
    requires from + len <= buffer.Length && 2 <= at <= 3 && at <= len
    ensures field == LengthField(buffer[from..from + len], at)
  {
    ghost var w := buffer[from..from + len];
    assert w[0] == buffer[from];
    var p := from + at;
    match buffer[from] / 8 % 4 {
      case 0 =>
        return Some((at, buffer[from] % 8));
      case 1 =>
        if len < at + 1 {
          return None;
        }
        assert w[at] == buffer[p];
        return Some((at + 1, buffer[p]));
      case 2 =>
        if len < at + 2 {
          return None;
        }
        assert w[at] == buffer[p] && w[at + 1] == buffer[p + 1];
        return Some((at + 2, buffer[p] as int * 0x100 + buffer[p + 1]));
      case _ =>
        if len < at + 3 {
          return None;
        }
        assert w[at] == buffer[p] && w[at + 1] == buffer[p + 1] && w[at + 2] == buffer[p + 2];
        return Some((at + 3, buffer[p] as int * 0x1_0000 + buffer[p + 1] as int * 0x100 + buffer[p + 2]));
    }
  }

  /** lwm2m_decodeTLV; no header stands for its result 0. */
  method DecodeTlv(buffer: array<byte>, from: nat, len: nat) returns (h: Option<Header>)
    requires from + len <= buffer.Length
    ensures h == DecodeHeader(buffer[from..from + len])
  {
    hide LengthField;
    if len < 2 {
      return None;
    }
    ghost var w := buffer[from..from + len];
    assert w[0] == buffer[from] && w[1] == buffer[from + 1];
    var dataIndex := 2;
    var id: uint16;
    if buffer[from] / 0x20 % 2 == 1 {
      if len < 3 {
        return None;
      }
      assert w[2] == buffer[from + 2];
      dataIndex := 3;
      id := buffer[from + 1] as int * 0x100 + buffer[from + 2];
    } else {
      id := buffer[from + 1];
    }
    var field := DecodeLength(buffer, from, len, dataIndex);
    if field.None? || field.value.0 + field.value.1 > len {
      return None;
    }
    return Some(Header(buffer[from] / 0x40 * 0x40, id, field.value.0, field.value.1));
  }

  function Prepend(records: seq<Record>, rest: Option<seq<Record>>): Option<seq<Record>> {
    if rest.None? then None else Some(records + rest.value)
  }

  lemma ParseStops(tail: seq<byte>)
    requires DecodeHeader(tail).None?
    ensures Parse(tail) == Some([])
  {
  }

  lemma LoopStep(records: seq<Record>, tail: seq<byte>, h: Header, data: seq<byte>, children: seq<Record>)
    requires DecodeHeader(tail) == Some(h) && data == tail[h.dataIndex..h.Size()]
    requires h.IsNode() ==> children == Accepted(data)
    ensures h.IsNode() && children == [] ==> Prepend(records, Parse(tail)) == None
    ensures !h.IsNode() || children != [] ==>
      var r := if h.IsNode() then MakeNode(h, children) else MakeLeaf(h, data);
      Prepend(records, Parse(tail)) == Prepend(records + [r], Parse(tail[h.Size()..]))
  {
    ParseStep(tail, h);
    var rest := Parse(tail[h.Size()..]);
    var r := if h.IsNode() then MakeNode(h, children) else MakeLeaf(h, data);
    if rest.Some? {
      assert records + ([r] + rest.value) == records + [r] + rest.value;
    }
  }

  /** lwm2m_tlv_parse: the records found, none of them when the C function returns 0. */
  method TlvParse(buffer: array<byte>, from: nat, len: nat) returns (records: seq<Record>)
    requires from + len <= buffer.Length
    ensures records == Accepted(buffer[from..from + len])
    decreases len
  {
    hide Parse, DecodeHeader;
    records := [];
    var index: nat := 0;
    ghost var tail := buffer[from..from + len];
    ghost var all := Parse(tail);
    assert all.Some? ==> [] + all.value == all.value;
    var next := DecodeTlv(buffer, from, len);
    while next.Some?
      invariant index <= len && tail == buffer[from + index..from + len] && next == DecodeHeader(tail)
      invariant all == Prepend(records, Parse(tail))
      decreases len - index
    {
      var h := next.value;
      var start := from + index + h.dataIndex;
      var data := buffer[start..start + h.dataLen];
      assert data == tail[h.dataIndex..h.Size()];
      var children := [];
      if h.IsNode() {
        children := TlvParse(buffer, start, h.dataLen);
      }
      LoopStep(records, tail, h, data, children);
      if h.IsNode() && children == [] {
        return [];
      }
      records := records + [if h.IsNode() then MakeNode(h, children) else MakeLeaf(h, data)];
      index := index + h.Size();
      assert tail[h.Size()..] == buffer[from + index..from + len];
      tail := tail[h.Size()..];
      next := DecodeTlv(buffer, from + index, len - index);
    }
    ParseStops(tail);
  }
}
