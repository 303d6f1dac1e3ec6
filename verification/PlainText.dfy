/** Integers in plain text (wakaama/utils.c): a decimal number with an optional minus sign. */
module PlainText {
  import opened Core
  import opened DecimalText
  import TlvInt

  const UINT64: nat := 0x1_0000_0000_0000_0000
  const INT64_MAX: nat := 0x7FFF_FFFF_FFFF_FFFF

  // the largest number that may be multiplied by ten
  const TENTH: nat := (UINT64 - 1) / 10

  /** The digit loop of lwm2m_PlainTextToInt64, in 64 bits; None stands for its result 0. */
  function Scan(acc: nat, s: string): Option<nat>
    decreases |s|
  {
    if s == [] then Some(acc)
    else if !IsDigit(s[0]) || acc > TENTH then None
    else Scan((acc * 10 + DigitValue(s[0])) % UINT64, s[1..])
  }

  function Limited(n: Option<nat>): Option<nat> {
    if n.Some? && n.value <= INT64_MAX then n else None
  }

  function Signed(negative: bool, n: int): int { if negative then -n else n }

  /** lwm2m_PlainTextToInt64 */
  function Parse(s: string): Option<int> {
    if s == [] then None
    else
      var n := Limited(Scan(0, if s[0] == '-' then s[1..] else s));
      if n.None? then None else Some(Signed(s[0] == '-', n.value))
  }

  /** lwm2m_int64ToPlainText */
  function Text(v: TlvInt.int64): string {
    if v < 0 then ['-'] + ToText(-v) else ToText(v)
  }

  // ---------- which texts are read right ----------

  /** The digits up to k make a number just beyond 64 bits: the guard lets the last digit wrap it. */
  predicate WrapsAt(s: string, k: nat)
    requires AllDigits(s)
  {
    k <= |s| && UINT64 <= Value(s[..k]) <= UINT64 + 3
  }

  /** Where the number wraps, or one more than the length. */
  function WrapPlace(s: string, n: nat): (k: nat)
    requires AllDigits(s) && n <= |s|
    ensures if k <= n then WrapsAt(s, k) else k == |s| + 1
    ensures forall j | 0 <= j < k && j <= n :: !WrapsAt(s, j)
  {
    if n > 0 && WrapPlace(s, n - 1) <= n - 1 then WrapPlace(s, n - 1)
    else if WrapsAt(s, n) then n
    else |s| + 1
  }

  /** The digits that count: where the number wraps, reading goes on from what is left of it. */
  function Effective(s: string): (r: string)
    requires AllDigits(s)
    ensures AllDigits(r) && (s != [] ==> r != [])
    decreases |s|
  {
    var k := WrapPlace(s, |s|);
    if k == |s| + 1 then s
    else
      ValueBound(s[..k]);
      Effective([DigitOf(Value(s[..k]) - UINT64)] + s[k..])
  }

  function Power10(n: nat): nat { if n == 0 then 1 else 10 * Power10(n - 1) }

  lemma {:induction false} ValueBound(s: string)
    requires AllDigits(s)
    ensures Value(s) < Power10(|s|)
    ensures Value(s) >= UINT64 ==> |s| >= 20
  {
    if s != [] {
      ValueBound(s[..|s| - 1]);
    }
    Powers();
    if |s| < 20 {
      PowerGrows(|s|, 19);
    }
  }

  lemma Powers()
    ensures Power10(19) == 10_000_000_000_000_000_000
  {
    assert Power10(4) == 10_000;
    assert Power10(8) == 100_000_000;
    assert Power10(12) == 1_000_000_000_000;
    assert Power10(16) == 10_000_000_000_000_000;
  }

  lemma {:induction false} PowerGrows(m: nat, n: nat)
    requires m <= n
    ensures Power10(m) <= Power10(n)
    decreases n - m
  {
    if m < n {
      PowerGrows(m + 1, n);
    }
  }

  lemma {:induction false} ValueGrows(s: string, i: nat, j: nat)
    requires AllDigits(s) && i <= j <= |s|
    ensures Value(s[..i]) <= Value(s[..j])
    ensures i < j ==> 10 * Value(s[..i]) <= Value(s[..j])
    decreases j - i
  {
    if i < j {
      ValueStep(s, j - 1);
      ValueGrows(s, i, j - 1);
    }
  }

  /** While nothing wraps, the digits read so far are the number, or the number is too large. */
  lemma {:induction false} ScanPlain(s: string, i: nat)
    requires AllDigits(s) && i <= |s| && Value(s[..i]) < UINT64
    requires forall k | i <= k <= |s| :: !WrapsAt(s, k)
    ensures Limited(Scan(Value(s[..i]), s[i..])) == if Value(s) <= INT64_MAX then Some(Value(s)) else None
    decreases |s| - i
  {
    hide Value;
    assert s[..|s|] == s;
    if i == |s| {
      assert s[i..] == [];
    } else {
      var acc := Value(s[..i]);
      ValueStep(s, i);
      ValueGrows(s, i + 1, |s|);
      if acc > TENTH {
        assert s[i..][0] == s[i];
      } else {
        assert !WrapsAt(s, i + 1);
        ScanStep(acc, s, i);
        Wrapped(acc * 10 + DigitValue(s[i]));
        ScanPlain(s, i + 1);
      }
    }
  }

  lemma Wrapped(x: nat)
    ensures x < UINT64 ==> x % UINT64 == x
    ensures UINT64 <= x < 2 * UINT64 ==> x % UINT64 == x - UINT64
  {
  }

  lemma ScanStep(acc: nat, s: string, i: nat)
    requires AllDigits(s) && i < |s| && acc <= TENTH
    ensures Scan(acc, s[i..]) == Scan((acc * 10 + DigitValue(s[i])) % UINT64, s[i + 1..])
  {
    assert s[i..][1..] == s[i + 1..];
  }

  /** Where the number wraps, the loop goes on with what is left. */
  lemma {:induction false} ScanWraps(s: string, i: nat, k: nat)
    requires AllDigits(s) && i < k <= |s| && WrapsAt(s, k)
    ensures Scan(Value(s[..i]), s[i..]) == Scan(Value(s[..k]) - UINT64, s[k..])
    decreases k - i
  {
    hide Scan, Value, AllDigits;
    ValueStep(s, i);
    ValueStep(s, k - 1);
    ValueGrows(s, i, k);
    ValueGrows(s, i + 1, k);
    ScanStep(Value(s[..i]), s, i);
    Wrapped(Value(s[..i + 1]));
    if i + 1 < k {
      ScanWraps(s, i + 1, k);
    }
  }

  /** What a text of digits is read as, for every one: the number its effective digits make, if that is at
      most INT64_MAX. */
  lemma {:induction false} ReadAsEffective(s: string)
    requires AllDigits(s)
    ensures Limited(Scan(0, s)) == if Value(Effective(s)) <= INT64_MAX then Some(Value(Effective(s))) else None
    decreases |s|
  {
    hide Scan, Value, Limited;
    assert s[..0] == [] && s[0..] == s;
    assert Value([]) == 0 by { NoDigits(); }
    var k := WrapPlace(s, |s|);
    if k == |s| + 1 {
      ScanPlain(s, 0);
    } else {
      ValueBound(s[..k]);
      ScanWraps(s, 0, k);
      var w := Value(s[..k]) - UINT64;
      var rest := [DigitOf(w)] + s[k..];
      ScanStep(0, rest, 0);
      Wrapped(w);
      assert rest[0..] == rest && rest[1..] == s[k..];
      ReadAsEffective(rest);
    }
  }

  /** Too large a number is taken for another one exactly when it wraps on the way and what is left is small
      enough. */
  lemma LargeIsRejected(s: string)
    requires AllDigits(s) && s != [] && Value(s) > INT64_MAX
    ensures Parse(s).None? <==> WrapPlace(s, |s|) > |s| || Value(Effective(s)) > INT64_MAX
  {
    ReadAsEffective(s);
  }

  /** A number that fits is never taken for another. */
  lemma SmallIsExact(s: string)
    requires AllDigits(s) && s != [] && Value(s) <= INT64_MAX
    ensures Parse(s) == Some(Value(s)) && Parse(['-'] + s) == Some(Signed(true, Value(s)))
  {
    forall k | 0 <= k <= |s| ensures !WrapsAt(s, k) {
      ValueGrows(s, k, |s|);
      assert s[..|s|] == s;
    }
    assert WrapPlace(s, |s|) == |s| + 1;
    ReadAsEffective(s);
    assert (['-'] + s)[1..] == s;
  }

  /** A minus sign alone is read as 0, and the four numbers from 2^64 on are read as 0 to 3. */
  lemma WrongTexts(w: nat)
    requires w <= 3
    ensures Parse("-") == Some(0)
    ensures Parse(ToText(UINT64 + w)) == Some(w)
  {
    MinusAlone();
    ValueOfText(UINT64 + w);
    WrappedText(ToText(UINT64 + w), w);
  }

  lemma WrappedText(s: string, w: nat)
    requires w <= 3 && s != [] && AllDigits(s) && Value(s) == UINT64 + w
    ensures Parse(s) == Some(w)
  {
    hide Value, Scan;
    assert IsDigit(s[0]);
    assert s[..|s|] == s && s[|s|..] == [] && s[0..] == s && s[..0] == [];
    assert Value([]) == 0 by { NoDigits(); }
    ScanWraps(s, 0, |s|);
    ScanEnds(w);
  }

  lemma ScanEnds(n: nat)
    ensures Scan(n, []) == Some(n)
  {
  }

  lemma MinusAlone()
    ensures Parse("-") == Some(0)
  {
    assert Scan(0, "-"[1..]) == Some(0);
  }

  lemma NoDigits()
    ensures Value([]) == 0
  {
  }

  /** A text with anything but digits behind an optional minus sign is rejected. */
  lemma {:induction false} OthersAreRejected(acc: nat, s: string)
    requires !AllDigits(s)
    ensures Scan(acc, s) == None
    decreases |s|
  {
    if IsDigit(s[0]) && acc <= TENTH {
      assert !AllDigits(s[1..]) by {
        var i :| 0 <= i < |s| && !IsDigit(s[i]);
        assert s[1..][i - 1] == s[i];
      }
      OthersAreRejected((acc * 10 + DigitValue(s[0])) % UINT64, s[1..]);
    }
  }

  /** Every integer that the client can print is read back. */
  lemma TextRoundTrip(v: TlvInt.int64)
    ensures Parse(Text(v)) == Some(v)
  {
    var n := if v < 0 then -v else v;
    ValueOfText(n);
    SmallIsExact(ToText(n));
  }

  // ---------- the functions as they are written ----------

  /** lwm2m_PlainTextToInt64 */
  method PlainTextToInt64(buffer: string) returns (ok: bool, data: int)
    ensures if ok then Parse(buffer) == Some(data) else Parse(buffer).None?
  {
    if |buffer| == 0 {
      return false, 0;
    }
    var result: nat := 0;
    var negative := false;
    var i := 0;
    if buffer[0] == '-' {
      negative := true;
      i := 1;
    }
    while i < |buffer|
      invariant (if negative then 1 else 0) <= i <= |buffer|
      invariant Scan(result, buffer[i..]) == Scan(0, if negative then buffer[1..] else buffer)
    {
      assert buffer[i..][1..] == buffer[i + 1..];
      if '0' <= buffer[i] <= '9' {
        if result > (UINT64 - 1) / 10 {
          return false, 0;
        }
        result := (result * 10 + (buffer[i] as int - '0' as int)) % UINT64;
      } else {
        return false, 0;
      }
      i := i + 1;
    }
    if result > INT64_MAX {
      return false, 0;
    }
    return true, Signed(negative, result);
  }

  lemma {:induction false} TextLength(n: nat, k: nat)
    requires k > 0 && n < Power10(k)
    ensures |ToText(n)| <= k
  {
    assert Power10(1) == 10;
    if n >= 10 {
      TextLength(n / 10, k - 1);
    }
  }

  /** The digits of n that are still to come, and those that are written. */
  function Rest(n: nat): string { if n > 0 then ToText(n) else [] }

  lemma RestStep(n: nat)
    requires n > 0
    ensures Rest(n) == Rest(n / 10) + [DigitOf(n % 10)]
  {
  }

  /** The digit loop of prv_intToText, which fills the buffer from its end. */
  method WriteDigits(n: nat, buffer: array<char>) returns (index: int)
    requires buffer.Length == 32 && n < Power10(19)
    modifies buffer
    ensures 12 <= index <= 30 && buffer[index + 1..] == ToText(n)
    ensures forall i | 0 <= i <= index :: buffer[i] == old(buffer[i])
  {
    hide ToText, Power10;
    TextLength(n, 19);
    index := buffer.Length - 1;
    buffer[index] := DigitOf(n % 10);
    var rest: nat := n / 10;
    index := index - 1;
    FirstDigit(n);
    assert buffer[31..] == [DigitOf(n % 10)];
    while index >= 0 && rest > 0
      invariant -1 <= index <= 30
      invariant ToText(n) == Rest(rest) + buffer[index + 1..]
      invariant forall i | 0 <= i <= index :: buffer[i] == old(buffer[i])
      decreases index
    {
      RestStep(rest);
      ghost var done := buffer[index + 1..];
      buffer[index] := DigitOf(rest % 10);
      assert buffer[index..] == [DigitOf(rest % 10)] + done;
      assert ToText(n) == Rest(rest / 10) + [DigitOf(rest % 10)] + done;
      rest := rest / 10;
      index := index - 1;
    }
    assert |ToText(n)| == |Rest(rest)| + 31 - index;
  }

  lemma FirstDigit(n: nat)
    ensures ToText(n) == Rest(n / 10) + [DigitOf(n % 10)]
  {
  }

  /** prv_intToText, for the buffer of lwm2m_int64ToPlainText. */
  method IntToText(data: TlvInt.int64, buffer: array<char>) returns (length: nat)
    requires buffer.Length == 32
    modifies buffer
    ensures 0 < length <= 20 && buffer[32 - length..] == Text(data)
    ensures forall i | 0 <= i < 32 - length :: buffer[i] == old(buffer[i])
  {
    hide ToText;
    Powers();
    var index := WriteDigits(if data < 0 then -data else data, buffer);
    if data < 0 {
      ghost var done := buffer[index + 1..];
      buffer[index] := '-';
      assert buffer[index..] == ['-'] + done;
    } else {
      index := index + 1;
    }
    length := buffer.Length - index;
  }
}
