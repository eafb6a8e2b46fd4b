/**
 The recovery code (core/src/account_key.rs): 16 bytes of entropy and a checksum byte,
 in Crockford base32, grouped by dashes.

 The reference is a change of base: a byte string is a number in base 256, a symbol
 string a number in base 32. The bit buffer of the code is proved against it.
 */
module RecoveryCode {
  import opened Wrappers
  import opened Bytes
  import opened Text

  newtype u32 = x: int | 0 <= x < 0x1_0000_0000

  const CODE_ENTROPY: nat := 16
  const CROCKFORD: string := "0123456789ABCDEFGHJKMNPQRSTVWXYZ"

  type Symbol = v: nat | v < 32

  // ----- Shifts and masks ----------------------------------------------------------------

  /** `n << k` without loss. */
  function Left(n: nat, k: nat): nat {
    if k == 0 then n else 2 * Left(n, k - 1)
  }

  /** `n >> k`. */
  function Right(n: nat, k: nat): nat {
    if k == 0 then n else Right(n / 2, k - 1)
  }

  /** `n & ((1 << k) - 1)`. */
  function Mask(n: nat, k: nat): nat {
    if k == 0 then 0 else 2 * Mask(n / 2, k - 1) + n % 2
  }

  lemma {:induction false} LeftOfSum(a: nat, b: nat, k: nat, sum: nat)
    requires sum == a + b
    ensures Left(sum, k) == Left(a, k) + Left(b, k)
  {
    if k > 0 {
      LeftOfSum(a, b, k - 1, sum);
    }
  }

  lemma {:induction false} LeftTwice(n: nat, j: nat, k: nat, sum: nat)
    requires sum == j + k
    ensures Left(Left(n, j), k) == Left(n, sum)
    decreases k
  {
    if k > 0 {
      LeftTwice(n, j, k - 1, sum - 1);
    }
  }

  lemma {:induction false} LeftGrows(a: nat, b: nat, k: nat)
    requires a < b
    ensures Left(a, k) < Left(b, k)
  {
    if k > 0 {
      LeftGrows(a, b, k - 1);
    }
  }

  /** The low `j + k` bits are the `k` bits above the low `j`, then the low `j`. */
  lemma {:induction false} MaskSplits(n: nat, j: nat, k: nat)
    ensures Mask(n, j + k) == Left(Mask(Right(n, j), k), j) + Mask(n, j)
    decreases j
  {
    if j > 0 {
      MaskSplits(n / 2, j - 1, k);
    }
  }

  lemma {:induction false} ShiftBack(n: nat, low: nat, k: nat)
    requires low < Left(1, k)
    ensures Mask(Left(n, k) + low, k) == low && Right(Left(n, k) + low, k) == n
    decreases k
  {
    if k > 0 {
      assert (Left(n, k) + low) / 2 == Left(n, k - 1) + low / 2;
      ShiftBack(n, low / 2, k - 1);
    }
  }

  lemma {:induction false} SplitAt(n: nat, k: nat)
    ensures n == Left(Right(n, k), k) + Mask(n, k) && Mask(n, k) < Left(1, k)
    decreases k
  {
    if k > 0 {
      SplitAt(n / 2, k - 1);
    }
  }

  lemma SmallLefts(n: nat)
    ensures Left(n, 0) == n && Left(n, 1) == 2 * n && Left(n, 2) == 4 * n && Left(n, 3) == 8 * n
    ensures Left(n, 4) == 16 * n && Left(n, 5) == 32 * n && Left(n, 6) == 64 * n && Left(n, 7) == 128 * n
    ensures Left(n, 8) == 256 * n
  {
    assert Left(n, 1) == 2 * Left(n, 0);
    assert Left(n, 2) == 2 * Left(n, 1);
    assert Left(n, 3) == 2 * Left(n, 2);
    assert Left(n, 4) == 2 * Left(n, 3);
    assert Left(n, 5) == 2 * Left(n, 4);
    assert Left(n, 6) == 2 * Left(n, 5);
    assert Left(n, 7) == 2 * Left(n, 6);
  }

  lemma FiveAndEight(n: nat)
    ensures Left(n, 5) == 32 * n && Left(n, 8) == 256 * n
    ensures Mask(n, 5) == n % 32 && Mask(n, 8) == n % 256
  {
    SmallLefts(n);
    SmallLefts(n / 32);
    SmallLefts(n / 256);
    SmallLefts(1);
    ShiftBack(n / 32, n % 32, 5);
    ShiftBack(n / 256, n % 256, 8);
  }

  /** What a buffer of fewer than eight bits can hold. */
  lemma SmallMask(n: nat, bits: nat)
    requires bits < 8
    ensures n == Left(Right(n, bits), bits) + Mask(n, bits) && Mask(n, bits) < Left(1, bits) <= 128
    ensures bits < 5 ==> Mask(n, bits) < 16
  {
    SplitAt(n, bits);
    SmallLefts(1);
  }

  lemma Joined(n: nat, top: nat, low: nat, k: nat)
    requires n == Left(top, k) + low && low < Left(1, k)
    ensures Right(n, k) == top && Mask(n, k) == low
  {
    ShiftBack(top, low, k);
  }

  lemma LeftOneIsMonotone(j: nat, k: nat)
    requires j <= k
    ensures Left(1, j) <= Left(1, k)
    decreases k
  {
    if j < k {
      LeftOneIsMonotone(j, k - 1);
    }
  }

  // ----- Numbers ---------------------------------------------------------------------------

  function Number32(symbols: seq<Symbol>): nat {
    if symbols == [] then 0 else 32 * Number32(symbols[..|symbols| - 1]) + symbols[|symbols| - 1]
  }

  /** The last `count` base-32 digits of `n`. */
  function Digits32(n: nat, count: nat): (symbols: seq<Symbol>)
    ensures |symbols| == count
  {
    if count == 0 then [] else Digits32(n / 32, count - 1) + [n % 32]
  }

  lemma {:induction false} DigitsOfNumber(symbols: seq<Symbol>)
    ensures Digits32(Number32(symbols), |symbols|) == symbols
  {
    if symbols != [] {
      DigitsOfNumber(symbols[..|symbols| - 1]);
    }
  }

  lemma {:induction false} NumberOfDigits(n: nat, count: nat)
    requires n < Left(1, 5 * count)
    ensures Number32(Digits32(n, count)) == n
    decreases count
  {
    if count > 0 {
      LeftTwice(1, 5 * (count - 1), 5, 5 * count);
      FiveAndEight(Left(1, 5 * (count - 1)));
      NumberOfDigits(n / 32, count - 1);
      assert Digits32(n, count)[..count - 1] == Digits32(n / 32, count - 1);
    }
  }

  lemma {:induction false} NumberIsBounded(symbols: seq<Symbol>)
    ensures Number32(symbols) < Left(1, 5 * |symbols|)
    decreases symbols
  {
    if symbols != [] {
      var n := |symbols| - 1;
      NumberIsBounded(symbols[..n]);
      LeftTwice(1, 5 * n, 5, 5 * |symbols|);
      FiveAndEight(Left(1, 5 * n));
    }
  }

  lemma {:induction false} PowerIsLeft(n: nat)
    ensures Power256(n) == Left(1, 8 * n)
  {
    if n > 0 {
      PowerIsLeft(n - 1);
      LeftTwice(1, 8 * (n - 1), 8, 8 * n);
      FiveAndEight(Left(1, 8 * (n - 1)));
    }
  }

  /** How many symbols spell `bytes` bytes, and how many zero bits stand behind the last byte. */
  function SymbolCount(bytes: nat): nat {
    (8 * bytes + 4) / 5
  }

  function Padding(bytes: nat): nat {
    5 * SymbolCount(bytes) - 8 * bytes
  }

  function EncodedSymbols(data: seq<byte>): seq<Symbol> {
    Digits32(Left(FromBigEndian(data), Padding(|data|)), SymbolCount(|data|))
  }

  function ByteCount(symbols: nat): nat {
    5 * symbols / 8
  }

  function Spare(symbols: nat): nat {
    5 * symbols - 8 * ByteCount(symbols)
  }

  function DecodedBytes(symbols: seq<Symbol>): Option<seq<byte>> {
    var n, k := Number32(symbols), Spare(|symbols|);
    if Mask(n, k) != 0 then None else Some(BigEndian(Right(n, k), ByteCount(|symbols|)))
  }

  // ----- Characters --------------------------------------------------------------------------

  function Letter(v: Symbol): char {
    CROCKFORD[v]
  }

  /** The alphabet in its six runs: no I, L, O or U. */
  function LetterOfRun(v: Symbol): char {
    if v < 10 then '0' + v as char
    else if v < 18 then 'A' + (v - 10) as char
    else if v < 20 then 'J' + (v - 18) as char
    else if v < 22 then 'M' + (v - 20) as char
    else if v < 27 then 'P' + (v - 22) as char
    else 'V' + (v - 27) as char
  }

  /** `CROCKFORD.iter().position(..)`. */
  function Position(c: char): Option<Symbol> {
    if '0' <= c <= '9' then Some((c - '0') as nat)
    else if 'A' <= c <= 'H' then Some((c - 'A') as nat + 10)
    else if 'J' <= c <= 'K' then Some((c - 'J') as nat + 18)
    else if 'M' <= c <= 'N' then Some((c - 'M') as nat + 20)
    else if 'P' <= c <= 'T' then Some((c - 'P') as nat + 22)
    else if 'V' <= c <= 'Z' then Some((c - 'V') as nat + 27)
    else None
  }

  lemma FirstLetters(v: Symbol)
    requires v < 16
    ensures Letter(v) == LetterOfRun(v)
  {
  }

  lemma LastLetters(v: Symbol)
    requires v >= 16
    ensures Letter(v) == LetterOfRun(v)
  {
  }

  lemma RunsArePositions(v: Symbol, c: char)
    ensures Position(c) == Some(v) <==> LetterOfRun(v) == c
  {
  }

  /** Those are the letters of the table, and their places in it. */
  lemma AlphabetIsCrockford(v: Symbol, c: char)
    ensures Letter(v) == LetterOfRun(v)
    ensures Position(c) == Some(v) <==> Letter(v) == c
  {
    if v < 16 {
      FirstLetters(v);
    } else {
      LastLetters(v);
    }
    RunsArePositions(v, c);
  }

  /** What a character is read as, before the table is asked. */
  function ReadAs(c: char): char {
    var upper := ToAsciiUppercase(c);
    if upper == 'I' || upper == 'L' then '1' else if upper == 'O' then '0' else upper
  }

  function DecodeChar(c: char): Option<Symbol> {
    Position(ReadAs(c))
  }

  function Spell(symbols: seq<Symbol>): (s: string)
    ensures |s| == |symbols|
  {
    seq(|symbols|, i requires 0 <= i < |symbols| => Letter(symbols[i]))
  }

  function SymbolsOf(s: string): (r: Option<seq<Symbol>>)
    ensures r.Some? ==> |r.value| == |s|
  {
    if s == [] then Some([])
    else
      var front, last := SymbolsOf(s[..|s| - 1]), DecodeChar(s[|s| - 1]);
      if front.None? || last.None? then None else Some(front.value + [last.value])
  }

  lemma LetterIsPlain(v: Symbol)
    ensures var c := Letter(v); ToAsciiUppercase(c) == c && c != 'I' && c != 'L' && c != 'O'
    ensures !IsSeparator(Letter(v))
  {
    AlphabetIsCrockford(v, Letter(v));
  }

  lemma LetterDecodes(v: Symbol)
    ensures DecodeChar(Letter(v)) == Some(v)
  {
    LetterIsPlain(v);
    AlphabetIsCrockford(v, Letter(v));
  }

  lemma {:induction false} SpelledSymbols(symbols: seq<Symbol>)
    ensures SymbolsOf(Spell(symbols)) == Some(symbols)
  {
    if symbols != [] {
      var n := |symbols| - 1;
      SpelledSymbols(symbols[..n]);
      LetterDecodes(symbols[n]);
      assert Spell(symbols)[..n] == Spell(symbols[..n]);
      assert symbols[..n] + [symbols[n]] == symbols;
    }
  }

  /** What `decode_code` drops: whitespace and dashes. */
  predicate IsSeparator(c: char) {
    IsWhitespace(c) || c == '-'
  }

  // ----- The bit buffer --------------------------------------------------------------------

  lemma MaskOfSmall(n: nat, k: nat)
    requires n < Left(1, k)
    ensures Mask(n, k) == n && Right(n, k) == 0
  {
    ZeroLeft(k);
    ShiftBack(0, n, k);
  }

  lemma {:induction false} ZeroLeft(k: nat)
    ensures Left(0, k) == 0
  {
    if k > 0 {
      ZeroLeft(k - 1);
    }
  }

  /** `buffer << 8 | b` with eight more bits. */
  lemma ByteIn(total: nat, top: nat, buffer: nat, bits: nat, b: nat)
    requires total == Left(top, bits) + buffer && buffer < Left(1, bits) && b < 256
    ensures 256 * total + b == Left(top, bits + 8) + Mask(256 * buffer + b, bits + 8)
    ensures 256 * buffer + b < Left(1, bits + 8)
  {
    LeftTwice(top, bits, 8, bits + 8);
    LeftTwice(1, bits, 8, bits + 8);
    FiveAndEight(Left(top, bits));
    FiveAndEight(Left(1, bits));
    MaskOfSmall(256 * buffer + b, bits + 8);
  }

  /** One symbol moved from the buffer to the output. */
  lemma SymbolOut(total: nat, top: nat, buffer: nat, bits: nat, v: Symbol)
    requires total == Left(top, bits + 5) + Mask(buffer, bits + 5) && v == Right(buffer, bits) % 32
    ensures total == Left(32 * top + v, bits) + Mask(buffer, bits)
  {
    MaskSplits(buffer, bits, 5);
    FiveAndEight(Right(buffer, bits));
    FiveAndEight(top);
    LeftTwice(top, 5, bits, bits + 5);
    LeftOfSum(32 * top, v, bits, 32 * top + v);
  }

  /** The last symbol, padded with zero bits. */
  lemma PadOut(total: nat, top: nat, buffer: nat, bits: nat, pad: nat)
    requires total == Left(top, bits) + buffer && buffer < Left(1, bits) && bits + pad == 5
    ensures Left(buffer, pad) < 32 && Left(total, pad) == 32 * top + Left(buffer, pad)
  {
    LeftTwice(top, bits, pad, 5);
    LeftTwice(1, bits, pad, 5);
    FiveAndEight(top);
    FiveAndEight(1);
    LeftGrows(buffer, Left(1, bits), pad);
    LeftOfSum(Left(top, bits), buffer, pad, total);
  }

  lemma NumberOfMore(symbols: seq<Symbol>, v: Symbol)
    ensures Number32(symbols + [v]) == 32 * Number32(symbols) + v
  {
    assert (symbols + [v])[..|symbols|] == symbols;
  }

  lemma BytesOfMore(data: seq<byte>, i: nat)
    requires i < |data|
    ensures FromBigEndian(data[..i + 1]) == 256 * FromBigEndian(data[..i]) + data[i] as nat
  {
    assert data[..i + 1][..i] == data[..i];
  }

  /** The `while bits >= 5` loop: whole symbols leave the buffer. */
  method EmitSymbols(out: string, buffer: u32, bits: u32, ghost before: seq<Symbol>, ghost total: nat)
    returns (more: string, left: u32, ghost symbols: seq<Symbol>)
    requires out == Spell(before) && total == Left(Number32(before), bits as nat) + Mask(buffer as nat, bits as nat)
    ensures more == Spell(symbols) && left < 5 && 5 * |symbols| + left as nat == 5 * |before| + bits as nat
    ensures total == Left(Number32(symbols), left as nat) + Mask(buffer as nat, left as nat)
  {
    more, left, symbols := out, bits, before;
    while left >= 5
      invariant more == Spell(symbols) && 5 * |symbols| + left as nat == 5 * |before| + bits as nat
      invariant total == Left(Number32(symbols), left as nat) + Mask(buffer as nat, left as nat)
    {
      left := left - 5;
      var v: Symbol := Right(buffer as nat, left as nat) % 32;
      SymbolOut(total, Number32(symbols), buffer as nat, left as nat, v);
      NumberOfMore(symbols, v);
      more := more + [Letter(v)];
      symbols := symbols + [v];
      assert more == Spell(symbols);
    }
  }

  lemma EncodedIs(data: seq<byte>, symbols: seq<Symbol>, pad: nat)
    requires 5 * |symbols| == 8 * |data| + pad && pad < 5 && Number32(symbols) == Left(FromBigEndian(data), pad)
    ensures symbols == EncodedSymbols(data)
  {
    DigitsOfNumber(symbols);
  }

  /** The bits of the bytes taken so far are the symbols, then the buffer. */
  ghost predicate Buffered(total: nat, symbols: seq<Symbol>, buffer: u32, bits: u32) {
    Right(total, bits as nat) == Number32(symbols) && Mask(total, bits as nat) == buffer as nat
  }

  /** A buffer of fewer than five bits and one byte: room in 32 bits, and nothing lost. */
  lemma ByteFits(total: nat, before: seq<Symbol>, buffer: u32, bits: u32, b: byte, grown: nat)
    requires bits < 5 && Buffered(total, before, buffer, bits) && grown == 256 * buffer as nat + b as nat
    ensures grown < 0x1_0000
    ensures 256 * total + b as nat == Left(Number32(before), bits as nat + 8) + Mask(grown, bits as nat + 8)
  {
    SmallMask(total, bits as nat);
    ByteIn(total, Number32(before), buffer as nat, bits as nat, b as nat);
  }

  lemma LeftOverIs(total: nat, symbols: seq<Symbol>, grown: nat, left: u32, rest: nat)
    requires left < 5 && total == Left(Number32(symbols), left as nat) + Mask(grown, left as nat)
    requires rest == Mask(grown, left as nat)
    ensures rest < 16 && Right(total, left as nat) == Number32(symbols) && Mask(total, left as nat) == rest
  {
    SmallMask(grown, left as nat);
    Joined(total, Number32(symbols), rest, left as nat);
  }

  method TakeByte(out: string, buffer: u32, bits: u32, b: byte, ghost before: seq<Symbol>, ghost total: nat)
    returns (more: string, rest: u32, left: u32, ghost symbols: seq<Symbol>)
    requires out == Spell(before) && bits < 5 && Buffered(total, before, buffer, bits)
    ensures more == Spell(symbols) && left < 5 && 5 * |symbols| + left as nat == 5 * |before| + bits as nat + 8
    ensures Buffered(256 * total + b as nat, symbols, rest, left)
  {
    ByteFits(total, before, buffer, bits, b, 256 * buffer as nat + b as nat);
    var grown := buffer * 256 + b as u32;
    more, left, symbols := EmitSymbols(out, grown, bits + 8, before, 256 * total + b as nat);
    LeftOverIs(256 * total + b as nat, symbols, grown as nat, left, Mask(grown as nat, left as nat));
    rest := Mask(grown as nat, left as nat) as u32;
  }

  /** The bits left in the buffer become one last symbol, filled up with zeros. */
  method PadOutput(data: seq<byte>, out: string, buffer: u32, bits: u32, ghost symbols: seq<Symbol>)
    returns (more: string)
    requires out == Spell(symbols) && bits < 5 && 5 * |symbols| + bits as nat == 8 * |data|
    requires Buffered(FromBigEndian(data), symbols, buffer, bits)
    ensures more == Spell(EncodedSymbols(data))
  {
    if bits == 0 {
      EncodedIs(data, symbols, 0);
      return out;
    }
    var pad := 5 - bits;
    SmallMask(FromBigEndian(data), bits as nat);
    PadOut(FromBigEndian(data), Number32(symbols), buffer as nat, bits as nat, pad as nat);
    var v: Symbol := Left(buffer as nat, pad as nat) % 32;
    NumberOfMore(symbols, v);
    EncodedIs(data, symbols + [v], pad as nat);
    more := out + [Letter(v)];
    assert more == Spell(symbols + [v]);
  }

  /** `base32_encode`: the 32-bit buffer never overflows and the symbols are the digits in base 32. */
  method Base32Encode(data: seq<byte>) returns (out: string)
    ensures out == Spell(EncodedSymbols(data))
  {
    out := "";
    var buffer: u32, bits: u32 := 0, 0;
    ghost var symbols: seq<Symbol> := [];
    var i := 0;
    while i < |data|
      invariant i <= |data| && out == Spell(symbols) && bits < 5 && 5 * |symbols| + bits as nat == 8 * i
      invariant Buffered(FromBigEndian(data[..i]), symbols, buffer, bits)
    {
      BytesOfMore(data, i);
      out, buffer, bits, symbols := TakeByte(out, buffer, bits, data[i], symbols, FromBigEndian(data[..i]));
      i := i + 1;
    }
    assert data[..i] == data;
    out := PadOutput(data, out, buffer, bits, symbols);
  }

  // ----- Decoding ----------------------------------------------------------------------------

  /** `buffer << 5 | v`, and the byte that leaves it once it holds eight bits. */
  lemma SymbolIn(total: nat, top: nat, buffer: nat, bits: nat, v: Symbol)
    requires total == Left(top, bits) + buffer && buffer < Left(1, bits)
    ensures 32 * total + v == Left(top, bits + 5) + (32 * buffer + v) && 32 * buffer + v < Left(1, bits + 5)
  {
    LeftTwice(top, bits, 5, bits + 5);
    LeftTwice(1, bits, 5, bits + 5);
    FiveAndEight(Left(top, bits));
    FiveAndEight(Left(1, bits));
  }

  lemma ByteOut(total: nat, top: nat, buffer: nat, bits: nat, b: nat)
    requires total == Left(top, bits + 8) + buffer && buffer < Left(1, bits + 8) && b == Right(buffer, bits) % 256
    ensures total == Left(256 * top + b, bits) + Mask(buffer, bits) && Mask(buffer, bits) < Left(1, bits)
  {
    MaskOfSmall(buffer, bits + 8);
    MaskSplits(buffer, bits, 8);
    FiveAndEight(Right(buffer, bits));
    FiveAndEight(top);
    LeftTwice(top, 8, bits, bits + 8);
    LeftOfSum(256 * top, b, bits, 256 * top + b);
    SplitAt(buffer, bits);
  }

  ghost predicate Unbuffered(total: nat, out: seq<byte>, buffer: u32, bits: u32) {
    Right(total, bits as nat) == FromBigEndian(out) && Mask(total, bits as nat) == buffer as nat
  }

  /** A buffer of fewer than eight bits and one symbol: room in 32 bits, and nothing lost. */
  lemma SymbolFits(total: nat, out: seq<byte>, buffer: u32, bits: u32, v: Symbol, grown: nat)
    requires bits < 8 && Unbuffered(total, out, buffer, bits) && grown == 32 * buffer as nat + v
    ensures grown < 0x1_0000 && grown < Left(1, bits as nat + 5)
    ensures 32 * total + v == Left(FromBigEndian(out), bits as nat + 5) + grown
  {
    SmallMask(total, bits as nat);
    SymbolIn(total, FromBigEndian(out), buffer as nat, bits as nat, v);
  }

  lemma StillUnbuffered(total: nat, out: seq<byte>, grown: nat, left: u32, rest: nat)
    requires left < 8 && total == Left(FromBigEndian(out), left as nat) + Mask(grown, left as nat)
    requires rest == Mask(grown, left as nat)
    ensures rest < 128 && Right(total, left as nat) == FromBigEndian(out) && Mask(total, left as nat) == rest
  {
    SmallMask(grown, left as nat);
    Joined(total, FromBigEndian(out), rest, left as nat);
  }

  lemma ByteMoved(total: nat, out: seq<byte>, grown: nat, left: nat, b: nat)
    requires total == Left(FromBigEndian(out), left + 8) + grown && grown < Left(1, left + 8)
    requires b == Right(grown, left) % 256
    ensures total == Left(FromBigEndian(out + [b as byte]), left) + Mask(grown, left)
  {
    ByteOut(total, FromBigEndian(out), grown, left, b);
    assert (out + [b as byte])[..|out|] == out;
  }

  /** A byte leaves the buffer once it holds eight bits. */
  method EmitByte(out: seq<byte>, grown: u32, held: u32, ghost total: nat) returns (more: seq<byte>, left: u32)
    requires held < 13 && total == Left(FromBigEndian(out), held as nat) + grown as nat
    requires grown as nat < Left(1, held as nat)
    ensures left < 8 && 8 * |more| + left as nat == 8 * |out| + held as nat
    ensures total == Left(FromBigEndian(more), left as nat) + Mask(grown as nat, left as nat)
  {
    more, left := out, held;
    if held >= 8 {
      left := held - 8;
      var b := Right(grown as nat, left as nat) % 256;
      ByteMoved(total, out, grown as nat, left as nat, b);
      more := out + [b as byte];
    } else {
      MaskOfSmall(grown as nat, held as nat);
    }
  }

  method TakeSymbol(out: seq<byte>, buffer: u32, bits: u32, v: Symbol, ghost total: nat)
    returns (more: seq<byte>, rest: u32, left: u32)
    requires bits < 8 && Unbuffered(total, out, buffer, bits)
    ensures left < 8 && 8 * |more| + left as nat == 8 * |out| + bits as nat + 5
    ensures Unbuffered(32 * total + v, more, rest, left)
  {
    SymbolFits(total, out, buffer, bits, v, 32 * buffer as nat + v);
    var grown := buffer * 32 + v as u32;
    more, left := EmitByte(out, grown, bits + 5, 32 * total + v);
    StillUnbuffered(32 * total + v, more, grown as nat, left, Mask(grown as nat, left as nat));
    rest := Mask(grown as nat, left as nat) as u32;
  }

  lemma DecodedIs(symbols: seq<Symbol>, out: seq<byte>, buffer: nat, bits: nat)
    requires 5 * |symbols| == 8 * |out| + bits && bits < 8
    requires Right(Number32(symbols), bits) == FromBigEndian(out) && Mask(Number32(symbols), bits) == buffer
    ensures DecodedBytes(symbols) == if buffer != 0 then None else Some(out)
  {
    assert ByteCount(|symbols|) == |out| && Spare(|symbols|) == bits;
    BigEndianOfRead(out);
  }

  function Base32Decoded(s: string): Option<seq<byte>> {
    var symbols := SymbolsOf(s);
    if symbols.None? then None else DecodedBytes(symbols.value)
  }

  lemma {:induction false} BadSymbolSpoils(s: string, i: nat)
    requires i < |s| && DecodeChar(s[i]).None?
    ensures SymbolsOf(s).None?
    decreases |s|
  {
    if i < |s| - 1 {
      BadSymbolSpoils(s[..|s| - 1], i);
    }
  }

  /** `base32_decode`. */
  method Base32Decode(s: string) returns (r: Option<seq<byte>>)
    ensures r == Base32Decoded(s)
  {
    var out: seq<byte> := [];
    var buffer: u32, bits: u32 := 0, 0;
    ghost var symbols: seq<Symbol> := [];
    var i := 0;
    while i < |s|
      invariant i <= |s| && SymbolsOf(s[..i]) == Some(symbols)
      invariant bits < 8 && 8 * |out| + bits as nat == 5 * i
      invariant Unbuffered(Number32(symbols), out, buffer, bits)
    {
      var v := DecodeChar(s[i]);
      if v.None? {
        BadSymbolSpoils(s, i);
        return None;
      }
      assert s[..i + 1][..i] == s[..i];
      NumberOfMore(symbols, v.value);
      out, buffer, bits := TakeSymbol(out, buffer, bits, v.value, Number32(symbols));
      symbols := symbols + [v.value];
      i := i + 1;
    }
    assert s[..i] == s;
    DecodedIs(symbols, out, buffer as nat, bits as nat);
    r := if buffer != 0 then None else Some(out);
  }

  // ----- The two are inverse -------------------------------------------------------------------

  lemma BytesAreBounded(data: seq<byte>)
    ensures FromBigEndian(data) < Left(1, 8 * |data|)
  {
    BigEndianOfRead(data);
    PowerIsLeft(|data|);
  }

  lemma EncodedNumber(data: seq<byte>, count: nat, pad: nat)
    requires count == SymbolCount(|data|) && pad == Padding(|data|)
    ensures Number32(EncodedSymbols(data)) == Left(FromBigEndian(data), pad)
  {
    BytesAreBounded(data);
    LeftGrows(FromBigEndian(data), Left(1, 8 * |data|), pad);
    LeftTwice(1, 8 * |data|, pad, 5 * count);
    NumberOfDigits(Left(FromBigEndian(data), pad), count);
  }

  /** Decoding inverts encoding, for every byte string. */
  lemma DecodeInvertsEncode(data: seq<byte>)
    ensures Base32Decoded(Spell(EncodedSymbols(data))) == Some(data)
  {
    var symbols, pad := EncodedSymbols(data), Padding(|data|);
    SpelledSymbols(symbols);
    EncodedNumber(data, SymbolCount(|data|), pad);
    LeftOneIsMonotone(0, pad);
    Joined(Number32(symbols), FromBigEndian(data), 0, pad);
    DecodedIs(symbols, data, 0, pad);
  }

  /** A symbol string decodes to `data` with no symbol to spare exactly when it is the encoding. */
  lemma DecodesToIff(symbols: seq<Symbol>, data: seq<byte>)
    requires |symbols| == SymbolCount(|data|)
    ensures DecodedBytes(symbols) == Some(data) <==> symbols == EncodedSymbols(data)
  {
    var n, pad := Number32(symbols), Padding(|data|);
    assert ByteCount(|symbols|) == |data| && Spare(|symbols|) == pad;
    if DecodedBytes(symbols) == Some(data) {
      SplitAt(n, pad);
      NumberIsBounded(symbols);
      RightIsBounded(n, pad, 8 * |data|, 5 * |symbols|);
      PowerIsLeft(|data|);
      BigEndianReadsBack(Right(n, pad), |data|);
      EncodedIs(data, symbols, pad);
    } else {
      DecodeInvertsEncode(data);
      SpelledSymbols(EncodedSymbols(data));
    }
  }

  lemma {:induction false} RightIsBounded(n: nat, k: nat, j: nat, sum: nat)
    requires sum == j + k && n < Left(1, sum)
    ensures Right(n, k) < Left(1, j)
    decreases k
  {
    if k > 0 {
      RightIsBounded(n / 2, k - 1, j, sum - 1);
    }
  }

  // ----- The code ------------------------------------------------------------------------------

  datatype RecoveryCodeError = Malformed | Checksum

  /** `group`: a dash between chunks of `n` characters. */
  function Group(s: string, n: nat): string
    requires n > 0
  {
    if |s| <= n then s else s[..n] + "-" + Group(s[n..], n)
  }

  /** The characters of a code that are not separators. */
  function Raw(code: string): string {
    if code == [] then []
    else
      var last := code[|code| - 1];
      Raw(code[..|code| - 1]) + (if IsSeparator(last) then [] else [last])
  }

  /** The first byte of a hash of the entropy: any function of it. */
  type Hash = seq<byte> -> byte

  function Payload(checksum: Hash, entropy: seq<byte>): seq<byte> {
    entropy + [checksum(entropy)]
  }

  function EncodeCode(checksum: Hash, entropy: seq<byte>): string {
    Group(Spell(EncodedSymbols(Payload(checksum, entropy))), 7)
  }

  function DecodeCode(checksum: Hash, code: string): Result<seq<byte>, RecoveryCodeError> {
    var bytes := Base32Decoded(Raw(code));
    if bytes.None? || |bytes.value| != CODE_ENTROPY + 1 then Err(Malformed)
    else
      var entropy := bytes.value[..CODE_ENTROPY];
      if bytes.value[CODE_ENTROPY] != checksum(entropy) then Err(Checksum) else Ok(entropy)
  }

  lemma {:induction false} RawOfConcat(a: string, b: string)
    ensures Raw(a + b) == Raw(a) + Raw(b)
    decreases |b|
  {
    if b == [] {
      assert a + b == a;
    } else {
      assert (a + b)[..|a + b| - 1] == a + b[..|b| - 1];
      RawOfConcat(a, b[..|b| - 1]);
    }
  }

  lemma {:induction false} RawOfGroup(s: string, n: nat)
    requires n > 0
    ensures Raw(Group(s, n)) == Raw(s)
  {
    if |s| > n {
      RawOfConcat(s[..n] + "-", Group(s[n..], n));
      RawOfConcat(s[..n], "-");
      assert "-"[..0] == "";
      RawOfGroup(s[n..], n);
      RawOfConcat(s[..n], s[n..]);
      assert s[..n] + s[n..] == s;
    }
  }

  lemma {:induction false} RawOfPlain(s: string)
    requires forall i {:trigger s[i]} :: 0 <= i < |s| ==> !IsSeparator(s[i])
    ensures Raw(s) == s
  {
    if s != [] {
      var n := |s| - 1;
      RawOfPlain(s[..n]);
      assert s[..n] + [s[n]] == s;
    }
  }

  lemma RawOfSpelling(symbols: seq<Symbol>)
    ensures Raw(Spell(symbols)) == Spell(symbols)
  {
    forall i | 0 <= i < |symbols| ensures !IsSeparator(Spell(symbols)[i]) {
      LetterIsPlain(symbols[i]);
    }
    RawOfPlain(Spell(symbols));
  }

  lemma RawOfCode(checksum: Hash, entropy: seq<byte>)
    ensures Raw(EncodeCode(checksum, entropy)) == Spell(EncodedSymbols(Payload(checksum, entropy)))
  {
    var spelling := Spell(EncodedSymbols(Payload(checksum, entropy)));
    RawOfGroup(spelling, 7);
    RawOfSpelling(EncodedSymbols(Payload(checksum, entropy)));
  }

  /** Which codes decode to 17 given bytes. */
  lemma SeventeenBytesIff(code: string, bytes: seq<byte>)
    requires |bytes| == CODE_ENTROPY + 1
    ensures Base32Decoded(Raw(code)) == Some(bytes) <==> SymbolsOf(Raw(code)) == Some(EncodedSymbols(bytes))
    ensures Base32Decoded(Raw(code)) == Some(bytes) ==> |Raw(code)| == 28
  {
    var symbols := SymbolsOf(Raw(code));
    if symbols.Some? && |symbols.value| == 28 {
      DecodesToIff(symbols.value, bytes);
    }
  }

  /** A code decodes to `entropy` exactly when it spells the encoding of `entropy`, up to case, aliases and separators. */
  lemma AcceptedIff(checksum: Hash, code: string, entropy: seq<byte>)
    ensures DecodeCode(checksum, code) == Ok(entropy) <==>
      (|entropy| == CODE_ENTROPY && SymbolsOf(Raw(code)) == SymbolsOf(Raw(EncodeCode(checksum, entropy))))
    ensures DecodeCode(checksum, code) == Ok(entropy) ==> |Raw(code)| == 28
  {
    var payload := Payload(checksum, entropy);
    RawOfCode(checksum, entropy);
    SpelledSymbols(EncodedSymbols(payload));
    if |entropy| == CODE_ENTROPY {
      SeventeenBytesIff(code, payload);
      assert payload[..CODE_ENTROPY] == entropy;
      var bytes := Base32Decoded(Raw(code));
      if DecodeCode(checksum, code) == Ok(entropy) {
        assert bytes.value == payload;
      }
    }
  }

  lemma CodeRoundTrip(checksum: Hash, entropy: seq<byte>)
    requires |entropy| == CODE_ENTROPY
    ensures DecodeCode(checksum, EncodeCode(checksum, entropy)) == Ok(entropy)
  {
    AcceptedIff(checksum, EncodeCode(checksum, entropy), entropy);
  }

  /** The checksum error is kept for whole codes whose last byte is wrong. */
  lemma ChecksumErrorIff(checksum: Hash, code: string)
    ensures DecodeCode(checksum, code) == Err(Checksum) <==>
      exists bytes: seq<byte> :: |bytes| == CODE_ENTROPY + 1
        && SymbolsOf(Raw(code)) == Some(EncodedSymbols(bytes)) && bytes[CODE_ENTROPY] != checksum(bytes[..CODE_ENTROPY])
  {
    var decoded := Base32Decoded(Raw(code));
    if decoded.Some? && |decoded.value| == CODE_ENTROPY + 1 {
      SeventeenBytesIff(code, decoded.value);
    }
    forall bytes: seq<byte> | |bytes| == CODE_ENTROPY + 1 && SymbolsOf(Raw(code)) == Some(EncodedSymbols(bytes))
      ensures decoded == Some(bytes)
    {
      SeventeenBytesIff(code, bytes);
    }
  }

  // ----- How a code is written -------------------------------------------------------------

  lemma GroupOnce(s: string, n: nat, first: string, rest: string)
    requires n > 0 && |first| == n && rest != "" && s == first + rest
    ensures Group(s, n) == first + "-" + Group(rest, n)
  {
    assert s[..n] == first && s[n..] == rest;
  }

  /** A code is four groups of seven symbols, with a dash between each two. */
  lemma CodeIsFourGroups(checksum: Hash, entropy: seq<byte>) returns (a: string, b: string, c: string, d: string)
    requires |entropy| == CODE_ENTROPY
    ensures |a| == |b| == |c| == |d| == 7
    ensures EncodeCode(checksum, entropy) == a + "-" + (b + "-" + (c + "-" + d))
    ensures a + (b + (c + d)) == Spell(EncodedSymbols(Payload(checksum, entropy)))
  {
    var s := Spell(EncodedSymbols(Payload(checksum, entropy)));
    assert |s| == 28;
    a, b, c, d := s[..7], s[7..14], s[14..21], s[21..];
    var cd, bcd := c + d, b + (c + d);
    assert cd == s[14..] && bcd == s[7..] && a + bcd == s;
    GroupOnce(s, 7, a, bcd);
    GroupOnce(bcd, 7, b, cd);
    GroupOnce(cd, 7, c, d);
  }

  /** A letter of the alphabet in lower case. */
  function Lower(c: char): char {
    if 'A' <= c <= 'Z' then (c as int + 32) as char else c
  }

  /** A character stands for a symbol in either case; I and L stand for one, O for zero; no other does. */
  lemma DecodeCharIff(c: char, v: Symbol)
    ensures DecodeChar(c) == Some(v) <==>
      || c == Letter(v) || c == Lower(Letter(v))
      || (v == 1 && c in ['I', 'i', 'L', 'l']) || (v == 0 && c in ['O', 'o'])
  {
    AlphabetIsCrockford(v, Letter(v));
    DecodesInRuns(c, v);
  }

  lemma ReadAsDigit(c: char, v: Symbol)
    requires v < 10
    ensures ReadAs(c) == LetterOfRun(v) <==>
      c == LetterOfRun(v) || (v == 1 && c in ['I', 'i', 'L', 'l']) || (v == 0 && c in ['O', 'o'])
    ensures Lower(LetterOfRun(v)) == LetterOfRun(v)
  {
  }

  lemma ReadAsLetter(c: char, v: Symbol)
    requires v >= 10
    ensures ReadAs(c) == LetterOfRun(v) <==> c == LetterOfRun(v) || c == Lower(LetterOfRun(v))
  {
  }

  lemma DecodesInRuns(c: char, v: Symbol)
    ensures DecodeChar(c) == Some(v) <==>
      || c == LetterOfRun(v) || c == Lower(LetterOfRun(v))
      || (v == 1 && c in ['I', 'i', 'L', 'l']) || (v == 0 && c in ['O', 'o'])
  {
    RunsArePositions(v, ReadAs(c));
    if v < 10 {
      ReadAsDigit(c, v);
    } else {
      ReadAsLetter(c, v);
    }
  }

  /** Whitespace and dashes are dropped, wherever they stand, and nothing else is. */
  lemma RawIsWithoutSeparators(code: string, c: char)
    ensures Raw(code + [c]) == if IsWhitespace(c) || c == '-' then Raw(code) else Raw(code) + [c]
    ensures Raw("") == ""
  {
    assert (code + [c])[..|code|] == code;
  }
}
