/** Integers in TLV records (wakaama/tlv.c). */
module TlvInt {
  // Sign and magnitude, most significant byte first, in 1, 2, 4 or 8 bytes. The first bit of the first byte is the
  // sign.

  import opened Core
  import Tlv

  // |INT64_MIN| is excluded: negating it overflows in prv_encodeInt
  type int64 = v: int | -0x8000_0000_0000_0000 < v < 0x8000_0000_0000_0000

  function Magnitude(v: int64): nat { if v < 0 then -v else v }

  // 2^(8n-1), the first magnitude that does not fit n bytes beside the sign
  function Limit(n: nat): nat
    requires n >= 1
  {
    if n == 1 then 0x80 else 0x100 * Limit(n - 1)
  }

  /** The n low bytes of m, most significant first. */
  function Bytes(m: nat, n: nat): (b: seq<byte>)
    ensures |b| == n
  {
    if n == 0 then [] else Bytes(m / 0x100, n - 1) + [m % 0x100]
  }

  function Value(b: seq<byte>): nat {
    if b == [] then 0 else Value(b[..|b| - 1]) * 0x100 + b[|b| - 1]
  }

  function Width(m: nat): nat {
    if m < Limit(1) then 1 else if m < Limit(2) then 2 else if m < Limit(4) then 4 else 8
  }

  /** The payload of an integer record. */
  function Encoded(v: int64): seq<byte> {
    var b := Bytes(Magnitude(v), Width(Magnitude(v)));
    WidthIsLeast(Magnitude(v));
    TopByte(Magnitude(v), |b|);
    if v < 0 then b[0 := b[0] + 0x80] else b
  }

  /** lwm2m_opaqueToInt; None stands for its result 0. */
  function Decoded(b: seq<byte>): Option<int> {
    if |b| !in {1, 2, 4, 8} then None
    else
      var m: int := Value(b[0 := b[0] % 0x80]);
      Some(if b[0] >= 0x80 then -m else m)
  }

  // ---------- lemmas ----------

  lemma Limits()
    ensures Limit(1) == 0x80 && Limit(2) == 0x8000 && Limit(3) == 0x80_0000 && Limit(4) == 0x8000_0000
    ensures Limit(5) == 0x80_0000_0000 && Limit(6) == 0x8000_0000_0000 && Limit(7) == 0x80_0000_0000_0000
    ensures Limit(8) == 0x8000_0000_0000_0000
  {
    assert Limit(4) == 0x100 * Limit(3);
    assert Limit(6) == 0x100 * Limit(5);
    assert Limit(8) == 0x100 * Limit(7);
  }

  /** The width chosen is the least of 1, 2, 4 and 8 that leaves the sign bit free. */
  lemma WidthIsLeast(m: nat)
    requires m < 0x8000_0000_0000_0000
    ensures Width(m) in {1, 2, 4, 8} && m < Limit(Width(m))
    ensures forall n | n in {1, 2, 4, 8} && m < Limit(n) :: Width(m) <= n
  {
    Limits();
  }

  lemma {:induction false} TopByte(m: nat, n: nat)
    requires n >= 1 && m < Limit(n)
    ensures Bytes(m, n)[0] < 0x80
  {
    if n > 1 {
      TopByte(m / 0x100, n - 1);
    }
  }

  lemma {:induction false} ValueOfBytes(m: nat, n: nat)
    requires n >= 1 && m < Limit(n)
    ensures Value(Bytes(m, n)) == m
  {
    var b := Bytes(m, n);
    if n == 1 {
      assert Bytes(m / 0x100, 0) == [] && b == [m % 0x100] && b[..0] == [];
    } else {
      ValueOfBytes(m / 0x100, n - 1);
      assert b[..n - 1] == Bytes(m / 0x100, n - 1);
    }
  }

  lemma {:induction false} ValueBound(b: seq<byte>)
    requires b != [] && b[0] < 0x80
    ensures Value(b) < Limit(|b|)
  {
    if |b| == 1 {
      assert b[..0] == [];
    } else {
      ValueBound(b[..|b| - 1]);
    }
  }

  /** Every integer but INT64_MIN is read back as it was written. */
  lemma IntRoundTrip(v: int64)
    ensures Decoded(Encoded(v)) == Some(v)
  {
    var m := Magnitude(v);
    WidthIsLeast(m);
    TopByte(m, Width(m));
    ValueOfBytes(m, Width(m));
    var b := Bytes(m, Width(m));
    assert Encoded(v)[0 := Encoded(v)[0] % 0x80] == b;
    if v < 0 {
      assert Encoded(v)[0] >= 0x80;
    }
  }

  /** What can be read can be written in no more bytes; a negative zero is the integer 0. */
  lemma IntNormalForm(b: seq<byte>)
    requires Decoded(b).Some?
    ensures var v := Decoded(b).value;
            -0x8000_0000_0000_0000 < v < 0x8000_0000_0000_0000 && |Encoded(v)| <= |b|
  {
    ValueBound(b[0 := b[0] % 0x80]);
    Limits();
    WidthIsLeast(Value(b[0 := b[0] % 0x80]));
  }

  /** An integer sent as a TLV resource arrives: lwm2m_intToTLV, lwm2m_tlv_parse and lwm2m_tlv_decode_int. */
  lemma IntRecordRoundTrip(v: int64, kind: Tlv.LeafKind, id: uint16, b: seq<byte>)
    requires Tlv.WritesRecord(Tlv.Leaf(kind, id, Encoded(v)), b)
    ensures Tlv.Accepted(b) == [Tlv.Leaf(kind, id, Encoded(v))] && Decoded(Tlv.Accepted(b)[0].value) == Some(v)
  {
    hide Tlv.Parse, Tlv.Writes, Tlv.WritesRecord, Encoded, Decoded;
    var r := Tlv.Leaf(kind, id, Encoded(v));
    IntRoundTrip(v);
    EncodedLength(v);
    Tlv.WritesSingleton(r, b);
    Tlv.RoundTrip([r], b);
    LeafFits(r);
  }

  /** A leaf whose value is at most eight bytes long can be sent. */
  lemma LeafFits(r: Tlv.Record)
    requires r.Leaf? && |r.value| <= 8
    ensures Tlv.Populated([r]) && Tlv.Fits([r])
  {
    assert [r][1..] == [];
  }

  lemma EncodedLength(v: int64)
    ensures |Encoded(v)| == Width(Magnitude(v))
  {
  }

  // ---------- the C functions ----------

  lemma {:induction false} LowBytes(m: nat, n: nat)
    ensures Bytes(m, n + 1) == [Shifted(m, n) % 0x100] + Bytes(m, n)
    ensures Shifted(m, 0) == m
  {
    if n > 0 {
      LowBytes(m / 0x100, n - 1);
    }
  }

  // m >> 8n
  function Shifted(m: nat, n: nat): nat {
    if n == 0 then m else Shifted(m / 0x100, n - 1)
  }

  function Zeros(k: nat): (z: seq<byte>)
    ensures |z| == k && forall i | 0 <= i < k :: z[i] == 0
  {
    seq(k, _ => 0)
  }

  lemma {:induction false} HighBytesAreZero(m: nat, n: nat, k: nat)
    requires n >= 1 && m < Limit(n)
    ensures Bytes(m, n + k) == Zeros(k) + Bytes(m, n)
  {
    if n == 1 {
      assert m / 0x100 == 0;
      ZeroBytes(k);
      assert Bytes(m, 1 + k) == Bytes(0, k) + [m % 0x100];
      assert Bytes(m, 1) == [m % 0x100];
    } else {
      HighBytesAreZero(m / 0x100, n - 1, k);
    }
  }

  lemma {:induction false} ZeroBytes(k: nat)
    ensures Bytes(0, k) == Zeros(k)
  {
    if k > 0 {
      ZeroBytes(k - 1);
    }
  }

  lemma Widen(m: nat, n: nat, k: nat, s: seq<byte>)
    requires 1 <= n <= k <= |s| && m < Limit(n)
    requires s[..|s| - n] == Zeros(|s| - n) && s[|s| - n..] == Bytes(m, n)
    ensures s[|s| - k..] == Bytes(m, k)
  {
    hide Bytes, Limit;
    HighBytesAreZero(m, n, k - n);
    var a, b := |s| - k, |s| - n;
    assert s[a..] == s[..b][a..] + s[b..];
  }

  /** The loop of prv_encodeInt: as many bytes, from the end of the buffer, as leave the sign bit free. */
  method EncodeBytes(value: nat, buffer: array<byte>) returns (length: nat)
    requires buffer.Length == 8 && value < 0x8000_0000_0000_0000
    modifies buffer
    ensures 1 <= length <= 8 && value < Limit(length) && (length > 1 ==> value >= Limit(length - 1))
    ensures buffer[..8 - length] == Zeros(8 - length) && buffer[8 - length..] == Bytes(value, length)
  {
    hide Bytes, Shifted, Limit;
    forall i | 0 <= i < 8 {
      buffer[i] := 0;
    }
    length := 0;
    assert buffer[8..] == Bytes(value, 0);
    Limits();
    while length == 0 || value > Limit(length) - 1
      invariant 0 <= length <= 8
      invariant length > 1 ==> value >= Limit(length - 1)
      invariant forall i | 0 <= i < 8 - length :: buffer[i] == 0
      invariant buffer[8 - length..] == Bytes(value, length)
      decreases 8 - length
    {
      LowBytes(value, length);
      ghost var was := buffer[8 - length..];
      length := length + 1;
      buffer[8 - length] := Shifted(value, length - 1) % 0x100;
      assert buffer[8 - length..] == [buffer[8 - length]] + was;
    }
  }

  /** The magnitude, in a width that the format allows. */
  method EncodeMagnitude(value: nat, buffer: array<byte>) returns (length: nat)
    requires buffer.Length == 8 && value < 0x8000_0000_0000_0000
    modifies buffer
    ensures length == Width(value) && buffer[8 - length..] == Bytes(value, length)
  {
    var n := EncodeBytes(value, buffer);
    length := match n
      case 3 => 4
      case 5 => 8
      case 6 => 8
      case 7 => 8
      case _ => n;
    Limits();
    Widen(value, n, length, buffer[..]);
  }

  /** prv_encodeInt, for the caller's eight bytes */
  method EncodeInt(data: int64, buffer: array<byte>) returns (length: nat)
    requires buffer.Length == 8
    modifies buffer
    ensures 1 <= length <= 8 && buffer[8 - length..] == Encoded(data)
  {
    hide Bytes, Width, Limit;
    var value: nat := if data < 0 then 0 - data else data;
    WidthIsLeast(value);
    TopByte(value, Width(value));
    length := EncodeMagnitude(value, buffer);
    if data < 0 {
      ghost var b := buffer[8 - length..];
      assert b[0] == buffer[8 - length];
      buffer[8 - length] := buffer[8 - length] + 0x80;
      assert buffer[8 - length..] == b[0 := b[0] + 0x80];
    }
  }

  lemma ValueAppend(b: seq<byte>, i: nat)
    requires i < |b|
    ensures Value(b[..i + 1]) == Value(b[..i]) * 0x100 + b[i]
    ensures Value(b[..1]) == b[0]
  {
    assert b[..i + 1][..i] == b[..i];
    assert b[..1] == [b[0]] && [b[0]][..0] == [];
  }

  lemma DecodedIs(b: seq<byte>, m: int)
    requires |b| in {1, 2, 4, 8} && m == Value(b[0 := b[0] % 0x80])
    ensures Decoded(b) == Some(if b[0] >= 0x80 then -m else m)
  {
  }

  /** lwm2m_opaqueToInt */
  method OpaqueToInt(buffer: array<byte>, from: nat, len: nat) returns (data: Option<int>)
    requires from + len <= buffer.Length
    ensures data == Decoded(buffer[from..from + len])
  {
    if len !in {1, 2, 4, 8} {
      return None;
    }
    hide Value, Decoded;
    ghost var b := buffer[from..from + len];
    ghost var low := b[0 := b[0] % 0x80];
    var value: int := buffer[from] % 0x80;
    ValueAppend(low, 0);
    assert b[0] == buffer[from];
    assert low[0] == value;
    var i := 1;
    while i < len
      invariant 1 <= i <= len && value == Value(low[..i])
    {
      ValueAppend(low, i);
      assert b[i] == buffer[from + i];
      assert low[i] == b[i];
      value := value * 0x100 + buffer[from + i];
      i := i + 1;
    }
    assert low[..i] == low;
    DecodedIs(b, value);
    if buffer[from] >= 0x80 {
      value := 0 - value;
    }
    return Some(value);
  }

  /** lwm2m_intToTLV: 0 when the record does not fit the buffer; otherwise the record, at its start. */
  method IntToTLV(kind: Tlv.LeafKind, data: int64, id: uint16, buffer: array<byte>) returns (length: nat)
    modifies buffer
    ensures var r := Tlv.Leaf(kind, id, Encoded(data));
            && (length == 0 <==> buffer.Length < Tlv.RecordLength(r))
            && (length != 0 ==> length == Tlv.RecordLength(r) && Tlv.Writes([r], buffer[..length]))
            && (length == 0 ==> buffer[..] == old(buffer[..]))
  {
    var digits := new byte[8];
    var n := EncodeInt(data, digits);
    var payload := digits[8 - n..];
    var r := Tlv.Leaf(kind, id, payload);
    if buffer.Length < Tlv.RecordLength(r) {
      return 0;
    }
    length := Tlv.AppendRecord(buffer, 0, [], r, payload);
    assert [] + [r] == [r];
  }
}
