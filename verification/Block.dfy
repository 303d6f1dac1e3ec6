/** Block-wise answers (wakaama/packet.c, er-coap-13.c; section 2 of RFC 7959). */
module Block {
  // A request with a Block2 option gets one block of the payload that it would get without one.

  import opened Core

  // wakaama/er-coap-13/er-coap-13.h
  const MAX_CHUNK_SIZE: nat := 128

  const OUT_OF_SCOPE := "BlockOutOfScope"

  // the value of a Block2 option takes at most three bytes
  type OptionValue = v: int | 0 <= v < 0x100_0000

  /** x << szx */
  function Shift(x: nat, szx: nat): nat
    requires szx < 8
  {
    if szx == 0 then x else if szx == 1 then 2 * x else if szx == 2 then 4 * x else if szx == 3 then 8 * x
    else if szx == 4 then 16 * x else if szx == 5 then 32 * x else if szx == 6 then 64 * x else 128 * x
  }

  function Number(v: OptionValue): nat { v / 16 }

  function Size(v: OptionValue): nat { Shift(16, v % 8) }

  /** The offset is computed from the option with its low four bits cleared. */
  function Offset(v: OptionValue): nat { Shift(v - v % 16, v % 8) }

  function Min(a: nat, b: nat): nat { if a <= b then a else b }

  /** The block that answers an option: its data and whether more follow, or nothing beyond the payload. */
  datatype Answer = Part(more: bool, size: nat, data: string) | OutOfScope

  function BlockAt(payload: string, v: OptionValue): Answer {
    var size := Min(Size(v), MAX_CHUNK_SIZE);
    var offset := Offset(v);
    if offset >= |payload| then OutOfScope
    else Part(|payload| - offset > size, size, payload[offset..offset + Min(|payload| - offset, size)])
  }

  // ---------- reassembly ----------

  /** The option that asks for block n, with a size exponent. */
  function Ask(n: nat, szx: nat): OptionValue
    requires n < 0x10_0000 && szx < 8
  {
    n * 16 + szx
  }

  function SizeOf(szx: nat): (size: nat)
    requires szx < 8
    ensures 16 <= size <= 2048
  {
    Shift(16, szx)
  }

  /** Where block n begins, if blocks have this size. */
  function Begin(n: nat, szx: nat): nat
    requires szx < 8
  {
    if n == 0 then 0 else Begin(n - 1, szx) + SizeOf(szx)
  }

  function Data(a: Answer): string { match a case Part(_, _, data) => data case OutOfScope => "" }

  /** What a client has when it asks for blocks `from` to n - 1. */
  function Collected(payload: string, szx: nat, from: nat, n: nat): string
    requires n <= 0x10_0000 && szx < 8
  {
    if n <= from then "" else Collected(payload, szx, from, n - 1) + Data(BlockAt(payload, Ask(n - 1, szx)))
  }

  function Power2(n: nat): nat { if n == 0 then 1 else 2 * Power2(n - 1) }

  /** A size exponent stands for 2 to its power, times 16. */
  lemma SizeIsPower(szx: nat)
    requires szx < 8
    ensures SizeOf(szx) == Power2(szx + 4)
  {
    assert Power2(4) == 16;
    assert Power2(6) == 4 * Power2(4);
    assert Power2(8) == 4 * Power2(6);
    assert Power2(10) == 4 * Power2(8);
    assert szx == 0 || szx == 1 || szx == 2 || szx == 3 || szx == 4 || szx == 5 || szx == 6 || szx == 7;
  }

  lemma {:induction false} BeginIsShift(n: nat, szx: nat)
    requires szx < 8
    ensures Begin(n, szx) == Shift(16 * n, szx)
  {
    if n > 0 {
      BeginIsShift(n - 1, szx);
    }
  }

  lemma {:induction false} BeginGrows(m: nat, n: nat, szx: nat)
    requires m <= n && szx < 8
    ensures Begin(m, szx) + 16 * (n - m) <= Begin(n, szx)
    decreases n - m
  {
    hide SizeOf;
    if m < n {
      BeginGrows(m, n - 1, szx);
    }
  }

  /** The bit operations on the option give the number of the block, the size that was asked for, and where that many
      blocks of this size end. */
  lemma {:induction false} OptionIsRead(n: nat, szx: nat)
    requires n < 0x10_0000 && szx < 8
    ensures var v := Ask(n, szx); Number(v) == n && Size(v) == SizeOf(szx) && Offset(v) == Begin(n, szx)
    ensures SizeOf(szx) <= MAX_CHUNK_SIZE <==> szx <= 3
  {
    hide Begin;
    BeginIsShift(n, szx);
    var v := Ask(n, szx);
    assert v % 8 == szx && v % 16 == szx && v / 16 == n;
  }

  lemma {:induction false} BeginIsProduct(n: nat, szx: nat)
    requires szx < 8
    ensures Begin(n, szx) == n * SizeOf(szx)
  {
    hide SizeOf;
    if n > 0 {
      BeginIsProduct(n - 1, szx);
      assert n * SizeOf(szx) == (n - 1) * SizeOf(szx) + SizeOf(szx);
    }
  }

  /** In other words: block n begins at n times the size, and the size is a power of two (section 2.2 of RFC 7959). */
  lemma OptionMeans(n: nat, szx: nat)
    requires n < 0x10_0000 && szx < 8
    ensures var v := Ask(n, szx); Number(v) == n && Size(v) == Power2(szx + 4) && Offset(v) == n * Power2(szx + 4)
  {
    hide Ask, Number, Size, Offset, SizeOf, Begin, Power2;
    OptionIsRead(n, szx);
    SizeIsPower(szx);
    BeginIsProduct(n, szx);
  }

  /** The answer to block n, whatever size is asked for: what is behind its offset, cut to MAX_CHUNK_SIZE. */
  lemma BlockIsCut(payload: string, szx: nat, n: nat)
    requires n < 0x10_0000 && szx < 8
    ensures var size, offset := Min(SizeOf(szx), MAX_CHUNK_SIZE), Begin(n, szx);
            BlockAt(payload, Ask(n, szx)) ==
            if offset >= |payload| then OutOfScope
            else Part(|payload| - offset > size, size, payload[offset..offset + Min(|payload| - offset, size)])
  {
    hide SizeOf, Size, Offset, Ask;
    OptionIsRead(n, szx);
  }

  /** Blocks of at most MAX_CHUNK_SIZE: block n is the n-th slice of the payload, it says that more follow
      unless it reaches the end, and beyond the end there is nothing. */
  lemma BlockIsSlice(payload: string, szx: nat, n: nat)
    requires n < 0x10_0000 && szx <= 3
    ensures BlockAt(payload, Ask(n, szx)) ==
            if Begin(n, szx) >= |payload| then OutOfScope
            else Part(Begin(n + 1, szx) < |payload|, SizeOf(szx),
                      payload[Begin(n, szx)..Min(|payload|, Begin(n + 1, szx))])
  {
    hide SizeOf, Size, Offset, Ask;
    OptionIsRead(n, szx);
  }

  lemma {:induction false} CollectedIsPrefix(payload: string, szx: nat, n: nat)
    requires n <= 0x10_0000 && szx <= 3
    ensures Collected(payload, szx, 0, n) == payload[..Min(|payload|, Begin(n, szx))]
  {
    hide BlockAt, SizeOf;
    if n > 0 {
      CollectedIsPrefix(payload, szx, n - 1);
      BlockIsSlice(payload, szx, n - 1);
    }
  }

  /** With a larger size, what is collected falls short of what was asked for by a good part of each block. */
  lemma {:induction false} CollectedIsShort(payload: string, szx: nat, n: nat)
    requires 4 <= szx < 8 && 0 < n <= 0x10_0000 && |payload| > MAX_CHUNK_SIZE
    ensures |Collected(payload, szx, 0, n)| < |payload|
    ensures Begin(n, szx) < |payload| ==> |Collected(payload, szx, 0, n)| + MAX_CHUNK_SIZE <= Begin(n, szx)
  {
    hide SizeOf, Size, Offset, Ask;
    OptionIsRead(n - 1, szx);
    LargeIsDouble(szx);
    if n == 1 {
      assert Collected(payload, szx, 0, 0) == "";
    } else {
      CollectedIsShort(payload, szx, n - 1);
    }
  }

  lemma LargeIsDouble(szx: nat)
    requires 4 <= szx < 8
    ensures SizeOf(szx) >= 2 * MAX_CHUNK_SIZE
  {
  }

  lemma {:induction false} CollectedSplits(payload: string, szx: nat, from: nat, n: nat)
    requires from < n <= 0x10_0000 && szx < 8
    ensures Collected(payload, szx, from, n)
         == Data(BlockAt(payload, Ask(from, szx))) + Collected(payload, szx, from + 1, n)
  {
    hide BlockAt, Ask, Data;
    if n == from + 1 {
      assert Collected(payload, szx, from, from) == "";
    } else {
      CollectedSplits(payload, szx, from, n - 1);
      var a, b := Data(BlockAt(payload, Ask(from, szx))), Collected(payload, szx, from + 1, n - 1);
      var c := Data(BlockAt(payload, Ask(n - 1, szx)));
      assert (a + b) + c == a + (b + c);
    }
  }

  /** Beyond the payload there is nothing to collect. */
  lemma {:induction false} BeyondIsNothing(payload: string, szx: nat, from: nat, n: nat)
    requires szx < 8 && n <= 0x10_0000 && Begin(from, szx) >= |payload|
    ensures Collected(payload, szx, from, n) == ""
  {
    hide SizeOf, Size, Offset, Ask;
    if from < n {
      BeyondIsNothing(payload, szx, from, n - 1);
      BeginGrows(from, n - 1, szx);
      OptionIsRead(n - 1, szx);
    }
  }

  /** Asking for blocks 0, 1, 2 and so on with one size, until they cover the payload, gives the payload exactly
      if the size is at most MAX_CHUNK_SIZE or the payload is: a larger size is cut to MAX_CHUNK_SIZE, but
      counted in full. */
  lemma ReassemblyIfAndOnlyIf(payload: string, szx: nat, n: nat)
    requires szx < 8 && n <= 0x10_0000 && payload != "" && Begin(n, szx) >= |payload|
    ensures Collected(payload, szx, 0, n) == payload <==> szx <= 3 || |payload| <= MAX_CHUNK_SIZE
  {
    hide Collected, BlockAt;
    if szx <= 3 {
      CollectedIsPrefix(payload, szx, n);
    } else if |payload| <= MAX_CHUNK_SIZE {
      BlockIsCut(payload, szx, 0);
      LargeIsDouble(szx);
      assert Begin(1, szx) == Begin(0, szx) + SizeOf(szx);
      CollectedSplits(payload, szx, 0, n);
      BeyondIsNothing(payload, szx, 1, n);
    } else {
      CollectedIsShort(payload, szx, n);
    }
  }

  /** A client that asks for block 0 with any size, and for the blocks behind it with the size of that first answer
      (section 2.4 of RFC 7959), gets the payload. */
  lemma NegotiatedReassembly(payload: string, szx: nat, next: nat, n: nat)
    requires szx < 8 && next < 8 && 0 < n <= 0x10_0000 && payload != "" && Begin(n, next) >= |payload|
    ensures var first := BlockAt(payload, Ask(0, szx));
            && first.Part?
            && (SizeOf(next) == first.size ==> first.data + Collected(payload, next, 1, n) == payload)
  {
    hide Collected, SizeOf, BlockAt, Ask;
    BlockIsCut(payload, szx, 0);
    BlockIsCut(payload, next, 0);
    OptionIsRead(0, next);
    if SizeOf(next) == BlockAt(payload, Ask(0, szx)).size {
      CollectedSplits(payload, next, 0, n);
      CollectedIsPrefix(payload, next, n);
    }
  }

  /** What a client collects that asks on from block n while it is told that more follow. */
  function Followed(payload: string, szx: nat, n: nat): string
    requires n < 0x10_0000 && szx < 8
    decreases 0x10_0000 - n
  {
    var a := BlockAt(payload, Ask(n, szx));
    Data(a) + if a.Part? && a.more && n + 1 < 0x10_0000 then Followed(payload, szx, n + 1) else ""
  }

  lemma {:induction false} FollowedIsRest(payload: string, szx: nat, n: nat, last: nat)
    requires n < last <= 0x10_0000 && szx <= 3 && Begin(n, szx) < |payload| <= Begin(last, szx)
    ensures Followed(payload, szx, n) == payload[Begin(n, szx)..]
    decreases last - n
  {
    hide BlockAt, SizeOf;
    BlockIsSlice(payload, szx, n);
    if Begin(n + 1, szx) < |payload| {
      FollowedIsRest(payload, szx, n + 1, last);
    }
  }

  /** The more flag leads the client exactly to the end: whatever size it begins with, going on with the size of the
      first answer while it is told that more follow gives the payload. */
  lemma FlagLeadsToEnd(payload: string, szx: nat, next: nat, n: nat)
    requires szx < 8 && next < 8 && 0 < n <= 0x10_0000 && payload != "" && Begin(n, next) >= |payload|
    ensures var first := BlockAt(payload, Ask(0, szx));
            && first.Part?
            && (SizeOf(next) == first.size ==>
                  first.data + (if first.more then Followed(payload, next, 1) else "") == payload)
  {
    hide BlockAt, SizeOf, Ask, Followed;
    BlockIsCut(payload, szx, 0);
    BlockIsCut(payload, next, 0);
    OptionIsRead(0, next);
    if SizeOf(next) == BlockAt(payload, Ask(0, szx)).size {
      FollowedIsRest(payload, next, 0, n);
      FollowedFrom(payload, next);
      assert payload[Begin(0, next)..] == payload;
    }
  }

  lemma FollowedFrom(payload: string, szx: nat)
    requires szx < 8
    ensures var a := BlockAt(payload, Ask(0, szx));
            Followed(payload, szx, 0) == Data(a) + if a.Part? && a.more then Followed(payload, szx, 1) else ""
  {
    hide BlockAt, Ask;
  }

  // ---------- the response that is rewritten ----------

  class Response {
    var code: byte
    var payload: string
    // the Block2 option: its number, more flag and size
    var block2: Option<(nat, bool, nat)>

    constructor (code: byte, payload: string)
      ensures this.code == code && this.payload == payload && block2 == None
    {
      this.code, this.payload, block2 := code, payload, None;
    }
  }

  /** What lwm2m_handle_packet makes of the response of a request that succeeded, before it is sent. */
  method ApplyBlocks(response: Response, block1: bool, block2: Option<OptionValue>) returns (error: byte)
    requires response.code < BAD_REQUEST && response.block2 == None
    modifies response
    ensures error == if block1 then NOT_IMPLEMENTED else 0
    ensures block1 || block2.None? ==>
      response.code == old(response.code) && response.payload == old(response.payload) && response.block2 == None
    ensures !block1 && block2.Some? ==>
      match BlockAt(old(response.payload), block2.value)
      case OutOfScope => response.code == BAD_OPTION && response.payload == OUT_OF_SCOPE && response.block2 == None
      case Part(more, size, data) =>
        response.code == old(response.code) && response.payload == data
        && response.block2 == Some((Number(block2.value), more, size))
  {
    var num, blockSize, blockOffset := 0, MAX_CHUNK_SIZE, 0;
    if block2.Some? {
      num := Number(block2.value);
      blockSize := Min(Size(block2.value), MAX_CHUNK_SIZE);
      blockOffset := Offset(block2.value);
    }
    if block1 {
      return NOT_IMPLEMENTED;
    }
    if block2.Some? {
      if blockOffset >= |response.payload| {
        response.code := BAD_OPTION;
        response.payload := OUT_OF_SCOPE;
      } else {
        response.block2 := Some((num, |response.payload| - blockOffset > blockSize, blockSize));
        response.payload :=
          response.payload[blockOffset..blockOffset + Min(|response.payload| - blockOffset, blockSize)];
      }
    }
    return 0;
  }
}
