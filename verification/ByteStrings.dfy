/** Byte strings, fixed-width integers and the two byte orders, as the formats of this project use them. */
module ByteStrings {
  import Bits

  type u8 = x: int | 0 <= x < 0x100
  type u16 = x: int | 0 <= x < 0x1_0000
  type u32 = x: int | 0 <= x < 0x1_0000_0000
  type u64 = x: int | 0 <= x < 0x1_0000_0000_0000_0000
  type i64 = x: int | -0x8000_0000_0000_0000 <= x < 0x8000_0000_0000_0000

  type Bytes = seq<u8>

  /** A SHA-256 digest, and SHA-256 itself as a parameter of everything that hashes. */
  type Digest = b: Bytes | |b| == 32 witness seq(32, _ => 0)
  type Sha = Bytes -> Digest

  datatype Option<+T> = None | Some(value: T)

  datatype Result<+T, +E> = Ok(value: T) | Err(error: E)

  function Pow256(n: nat): (r: nat)
    ensures r > 0
  {
    if n == 0 then 1 else 256 * Pow256(n - 1)
  }

  const U32_MAX: u32 := 0xFFFF_FFFF

  function HighestId(ids: set<u32>): (r: u32)
    requires ids != {}
    ensures r in ids && forall id :: id in ids ==> id <= r
  {
    HighestExists(ids);
    var r :| r in ids && forall id :: id in ids ==> id <= r;
    r
  }

  lemma HighestExists(ids: set<u32>)
    requires ids != {}
    ensures exists r :: r in ids && forall id :: id in ids ==> id <= r
  {
    var r :| r in ids;
    while exists id :: id in ids && id > r
      invariant r in ids
      decreases U32_MAX - r
    {
      var id :| id in ids && id > r;
      r := id;
    }
  }

  // ----- little endian -----

  /** The low `n` bytes of `v`, least significant first. */
  function Le(v: nat, n: nat): (b: Bytes)
    ensures |b| == n
  {
    if n == 0 then [] else [v % 256] + Le(v / 256, n - 1)
  }

  function FromLe(b: Bytes): (v: nat) {
    if b == [] then 0 else b[0] + 256 * FromLe(b[1..])
  }

  lemma {:induction false} LeRoundTrip(v: nat, n: nat)
    requires v < Pow256(n)
    ensures FromLe(Le(v, n)) == v
  {
    if n > 0 {
      LeRoundTrip(v / 256, n - 1);
      assert Le(v, n)[1..] == Le(v / 256, n - 1);
    }
  }

  lemma {:induction false} FromLeRoundTrip(b: Bytes)
    ensures FromLe(b) < Pow256(|b|)
    ensures Le(FromLe(b), |b|) == b
  {
    if b != [] {
      FromLeRoundTrip(b[1..]);
      var v := FromLe(b);
      assert v % 256 == b[0] && v / 256 == FromLe(b[1..]);
    }
  }

  // ----- big endian -----

  /** The low `n` bytes of `v`, most significant first. */
  function Be(v: nat, n: nat): (b: Bytes)
    ensures |b| == n
  {
    if n == 0 then [] else Be(v / 256, n - 1) + [v % 256]
  }

  function FromBe(b: Bytes): (v: nat) {
    if b == [] then 0 else 256 * FromBe(b[..|b| - 1]) + b[|b| - 1]
  }

  lemma {:induction false} BeRoundTrip(v: nat, n: nat)
    requires v < Pow256(n)
    ensures FromBe(Be(v, n)) == v
  {
    if n > 0 {
      BeRoundTrip(v / 256, n - 1);
      assert Be(v, n)[..n - 1] == Be(v / 256, n - 1);
    }
  }

  lemma {:induction false} FromBeRoundTrip(b: Bytes)
    ensures FromBe(b) < Pow256(|b|)
    ensures Be(FromBe(b), |b|) == b
  {
    if b != [] {
      var n := |b| - 1;
      FromBeRoundTrip(b[..n]);
      var v := FromBe(b);
      assert v % 256 == b[n] && v / 256 == FromBe(b[..n]);
      assert b == b[..n] + [b[n]];
    }
  }

  lemma Widths()
    ensures Pow256(1) == 0x100 && Pow256(2) == 0x1_0000 && Pow256(4) == 0x1_0000_0000
    ensures Pow256(8) == 0x1_0000_0000_0000_0000
  {
    assert Pow256(3) == 0x100_0000;
    assert Pow256(5) == 0x100_0000_0000;
    assert Pow256(6) == 0x1_0000_0000_0000;
    assert Pow256(7) == 0x100_0000_0000_0000;
  }

  /** Two equal-width big-endian numbers with the same bytes are the same number. */
  lemma BeInjective(v: nat, w: nat, n: nat)
    requires v < Pow256(n) && w < Pow256(n)
    requires Be(v, n) == Be(w, n)
    ensures v == w
  {
    BeRoundTrip(v, n);
    BeRoundTrip(w, n);
  }

  // ----- signed 64-bit, two's complement -----

  function I64Be(v: i64): (b: Bytes)
    ensures |b| == 8
  {
    Be(v % 0x1_0000_0000_0000_0000, 8)
  }

  function FromI64Be(b: Bytes): (v: i64)
    requires |b| == 8
  {
    FromBeRoundTrip(b);
    Widths();
    var u := FromBe(b);
    if u < 0x8000_0000_0000_0000 then u else u - 0x1_0000_0000_0000_0000
  }

  lemma I64RoundTrip(v: i64)
    ensures FromI64Be(I64Be(v)) == v
  {
    Widths();
    BeRoundTrip(v % 0x1_0000_0000_0000_0000, 8);
  }

  lemma FromI64RoundTrip(b: Bytes)
    requires |b| == 8
    ensures I64Be(FromI64Be(b)) == b
  {
    Widths();
    FromBeRoundTrip(b);
    var v: int := FromI64Be(b);
    assert v % 0x1_0000_0000_0000_0000 == FromBe(b);
  }

  // ----- concatenation -----

  /** Equal concatenations cut at the same place have equal halves. */
  lemma SplitAt<T>(a: seq<T>, b: seq<T>, c: seq<T>, d: seq<T>)
    requires |a| == |c|
    requires a + b == c + d
    ensures a == c && b == d
  {
    assert (a + b)[..|a|] == a && (c + d)[..|c|] == c;
    assert (a + b)[|a|..] == b && (c + d)[|c|..] == d;
  }

  /** A longer prefix is the shorter one and the bytes between. */
  lemma Extend(x: Bytes, a: nat, b: nat)
    requires a <= b <= |x|
    ensures x[..b] == x[..a] + x[a..b]
  {
  }

  // ----- text -----

  /** The bytes of an ASCII text. Labels and prologues hold no other characters; one would become a question mark. */
  function Ascii(s: string): (b: Bytes)
    ensures |b| == |s|
    ensures forall i :: 0 <= i < |s| ==> b[i] == if s[i] as int < 128 then s[i] as int else 63
  {
    seq(|s|, i requires 0 <= i < |s| => if s[i] as int < 128 then s[i] as int else 63)
  }

  function HexDigit(n: nat): (c: char)
    requires n < 16
  {
    if n < 10 then '0' + n as char else 'a' + (n - 10) as char
  }

  function HexValue(c: char): (v: Option<nat>)
    ensures v.Some? ==> v.value < 16
  {
    if '0' <= c <= '9' then Some((c - '0') as int)
    else if 'a' <= c <= 'f' then Some((c - 'a') as int + 10)
    else if 'A' <= c <= 'F' then Some((c - 'A') as int + 10)
    else None
  }

  /** Lowercase hex. */
  function HexEncode(b: Bytes): (s: string)
    ensures |s| == 2 * |b|
  {
    if b == [] then "" else [HexDigit(b[0] / 16), HexDigit(b[0] % 16)] + HexEncode(b[1..])
  }

  /** Hex of either case; `None` for an odd length or another character. */
  function HexDecode(s: string): (b: Option<Bytes>) {
    if s == "" then Some([])
    else if |s| == 1 then None
    else
      match (HexValue(s[0]), HexValue(s[1]), HexDecode(s[2..]))
      case (Some(h), Some(l), Some(rest)) => Some([16 * h + l] + rest)
      case _ => None
  }

  lemma HexDigitRoundTrip(n: nat)
    requires n < 16
    ensures HexValue(HexDigit(n)) == Some(n)
  {
  }

  lemma {:induction false} HexRoundTrip(b: Bytes)
    ensures HexDecode(HexEncode(b)) == Some(b)
  {
    if b != [] {
      HexDigitRoundTrip(b[0] / 16);
      HexDigitRoundTrip(b[0] % 16);
      HexRoundTrip(b[1..]);
      assert HexEncode(b)[2..] == HexEncode(b[1..]);
      assert b == [b[0]] + b[1..];
    }
  }

  /** The bytes from `i` up to `j`, where there are that many. */
  function Slice(b: Bytes, i: nat, j: nat): Bytes {
    if i <= j <= |b| then b[i..j] else []
  }

  /** From `at` on, `b` is `rest`. */
  predicate EndsWith(b: Bytes, at: nat, rest: Bytes) {
    at <= |b| && b[at..] == rest
  }

  /** The first piece of what follows `at`, and what follows that piece. */
  lemma PieceAt(b: Bytes, at: nat, x: Bytes, rest: Bytes)
    requires EndsWith(b, at, x + rest)
    ensures Slice(b, at, at + |x|) == x && EndsWith(b, at + |x|, rest)
  {
    assert |b| - at == |x| + |rest|;
    assert b[at..at + |x|] == b[at..][..|x|];
    assert b[at + |x|..] == b[at..][|x|..];
  }

  lemma Whole(b: Bytes, c: Bytes)
    requires b == c
    ensures EndsWith(b, 0, c)
  {
    assert b[0..] == b;
  }

  lemma LastPiece(b: Bytes, at: nat, x: Bytes)
    requires EndsWith(b, at, x)
    ensures Slice(b, at, |b|) == x && |b| == at + |x|
  {
  }

  // ----- byte by byte -----

  lemma Pow256Step(n: nat)
    ensures Pow256(n + 1) == 256 * Pow256(n)
  {
  }

  lemma DivideTwice(v: nat, p: nat)
    requires p > 0
    ensures v / 256 / p == v / (256 * p)
  {
    var q, r := Bits.Division(v, 256 * p);
    TimesFirst(q, p);
    var t := q * p;
    assert v / 256 == t + r / 256;
    Bits.QuotientUnique(v / 256, p, q, r / 256);
  }

  lemma TimesFirst(q: nat, p: nat)
    ensures q * (256 * p) == 256 * (q * p)
  {
  }

  /** Least significant byte first: the i-th byte is the i-th digit in base 256. */
  lemma {:induction false} LeByte(v: nat, n: nat, i: nat)
    requires i < n
    ensures Le(v, n)[i] == v / Pow256(i) % 256
    decreases n
  {
    if i > 0 {
      hide Pow256;
      LeByte(v / 256, n - 1, i - 1);
      Pow256Step(i - 1);
      DivideTwice(v, Pow256(i - 1));
    }
  }

  /** Most significant byte first. */
  lemma {:induction false} BeByte(v: nat, n: nat, i: nat)
    requires i < n
    ensures Be(v, n)[i] == v / Pow256(n - 1 - i) % 256
    decreases n
  {
    if i < n - 1 {
      hide Pow256;
      BeByte(v / 256, n - 1, i);
      Pow256Step(n - 2 - i);
      DivideTwice(v, Pow256(n - 2 - i));
    }
  }

  /** The number an `i64` is written as: a negative one by its sum with 2^64. */
  function TwosComplement(v: i64): u64 {
    if v >= 0 then v else v + 0x1_0000_0000_0000_0000
  }

  lemma I64IsBe(v: i64)
    ensures I64Be(v) == Be(TwosComplement(v), 8)
  {
    hide Be;
  }

  lemma I64Byte(v: i64, i: nat)
    requires i < 8
    ensures I64Be(v)[i] == TwosComplement(v) / Pow256(7 - i) % 256
  {
    hide I64Be;
    hide Be;
    hide Pow256;
    hide TwosComplement;
    I64IsBe(v);
    BeByte(TwosComplement(v), 8, i);
  }

  const HEX_DIGITS: string := "0123456789abcdef"

  /** Each byte is two lower-case digits, the high one first. */
  lemma {:induction false} HexAt(b: Bytes, i: nat)
    requires i < |b|
    ensures HexEncode(b)[2 * i] == HEX_DIGITS[b[i] / 16] && HexEncode(b)[2 * i + 1] == HEX_DIGITS[b[i] % 16]
  {
    if i == 0 {
      HexDigitAt(b[0] / 16);
      HexDigitAt(b[0] % 16);
    } else {
      HexAt(b[1..], i - 1);
    }
  }

  lemma HexDigitAt(n: nat)
    requires n < 16
    ensures HexDigit(n) == HEX_DIGITS[n]
  {
  }

  /** `c` is a digit for `n`, in either case. */
  predicate IsHexFor(c: char, n: nat) {
    n < 16 && (c == HEX_DIGITS[n] || (n >= 10 && c == "ABCDEF"[n - 10]))
  }

  lemma HexValueIff(c: char, n: nat)
    ensures HexValue(c) == Some(n) <==> IsHexFor(c, n)
  {
  }

  /** `s` spells `b`: two digits a byte, high half first. */
  predicate Spells(s: string, b: Bytes) {
    |s| == 2 * |b| && forall i :: 0 <= i < |b| ==> IsHexFor(s[2 * i], b[i] / 16) && IsHexFor(s[2 * i + 1], b[i] % 16)
  }

  lemma SpellsStep(s: string, b: Bytes)
    requires b != [] && |s| >= 2
    ensures Spells(s, b) <==> IsHexFor(s[0], b[0] / 16) && IsHexFor(s[1], b[0] % 16) && Spells(s[2..], b[1..])
  {
    hide IsHexFor;
    var s', b' := s[2..], b[1..];
    if |s| == 2 * |b| {
      forall i | 0 <= i < |b'| ensures b'[i] == b[i + 1] && s'[2 * i] == s[2 * (i + 1)] && s'[2 * i + 1] == s[2 * (i + 1) + 1] {
      }
      if IsHexFor(s[0], b[0] / 16) && IsHexFor(s[1], b[0] % 16) && Spells(s', b') {
        forall i | 0 <= i < |b| ensures IsHexFor(s[2 * i], b[i] / 16) && IsHexFor(s[2 * i + 1], b[i] % 16) {
          if i > 0 {
            assert b'[i - 1] == b[i] && s'[2 * (i - 1)] == s[2 * i] && s'[2 * (i - 1) + 1] == s[2 * i + 1];
          }
        }
      }
    }
  }

  /** Decoding takes exactly what spells the bytes, in either case. */
  lemma {:induction false} HexDecodeIff(s: string, b: Bytes)
    ensures HexDecode(s) == Some(b) <==> Spells(s, b)
    decreases |s|
  {
    hide HexValue;
    hide IsHexFor;
    if b != [] && |s| >= 2 {
      hide Spells;
      SpellsStep(s, b);
      HexDecodeIff(s[2..], b[1..]);
      HexValueIff(s[0], b[0] / 16);
      HexValueIff(s[1], b[0] % 16);
      assert b == [b[0]] + b[1..];
    }
  }
}
