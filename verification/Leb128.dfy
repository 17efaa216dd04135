/** Minimal unsigned LEB128 as the wire payload's key index uses it: seven bits per byte, low first. */
module Leb128 {
  import opened ByteStrings
  import opened WireErrors
  import Bits

  /** The one encoding of `v`. */
  function Leb(v: nat): (b: Bytes)
    ensures |b| > 0
  {
    if v < 128 then [v] else [v % 128 + 128] + Leb(v / 128)
  }

  /** Reads from the `i`-th group on: what is left of the value, and of the bytes. */
  function ReadFrom(total: nat, rest: Bytes, i: nat): (r: Result<(nat, Bytes), WireError>)
    requires i <= 5
    decreases 5 - i
  {
    if i == 5 then Err(NonCanonicalKeyIndex)
    else if rest == [] then Err(TooShort(total))
    else
      var group := rest[0] % 128;
      if i == 4 && group > 15 then Err(NonCanonicalKeyIndex)
      else if rest[0] < 128 then
        if i > 0 && rest[0] == 0 then Err(NonCanonicalKeyIndex) else Ok((group, rest[1..]))
      else
        match ReadFrom(total, rest[1..], i + 1)
        case Err(e) => Err(e)
        case Ok((v, tail)) => Ok((group + 128 * v, tail))
  }

  /** What still fits in 32 bits from the `i`-th group on. */
  function Bound(i: nat): nat
    requires i <= 4
    decreases 4 - i
  {
    if i == 4 then 16 else 128 * Bound(i + 1)
  }

  lemma {:induction false} BoundStep(i: nat)
    requires i <= 4
    ensures i == 4 ==> Bound(i) == 16
    ensures i < 4 ==> Bound(i) == 128 * Bound(i + 1) && Bound(i + 1) >= 16
    decreases 4 - i
  {
    if i < 4 {
      BoundStep(i + 1);
    }
  }

  /** A group with the continuation bit, before the encoding of what is left. */
  lemma LebMore(b: u8, w: nat)
    requires b >= 128 && w > 0
    ensures Leb(b - 128 + 128 * w) == [b] + Leb(w)
  {
    var v := b - 128 + 128 * w;
    assert v / 128 == w && v % 128 == b - 128;
  }

  lemma LebLess(v: nat)
    requires v >= 128
    ensures Leb(v) == [v % 128 + 128] + Leb(v / 128)
  {
  }

  /** One step of the reader, by what it finds. */
  lemma ReadCases(total: nat, rest: Bytes, i: nat)
    requires i < 5
    ensures rest == [] ==> ReadFrom(total, rest, i) == Err(TooShort(total))
    ensures rest != [] && i == 4 && rest[0] % 128 > 15 ==> ReadFrom(total, rest, i) == Err(NonCanonicalKeyIndex)
    ensures rest != [] && !(i == 4 && rest[0] % 128 > 15) && rest[0] < 128 ==>
              ReadFrom(total, rest, i) == if i > 0 && rest[0] == 0 then Err(NonCanonicalKeyIndex) else Ok((rest[0], rest[1..]))
    ensures rest != [] && !(i == 4 && rest[0] % 128 > 15) && rest[0] >= 128 ==>
              ReadFrom(total, rest, i) == After(rest[0] - 128, ReadFrom(total, rest[1..], i + 1))
  {
  }

  function After(group: nat, r: Result<(nat, Bytes), WireError>): Result<(nat, Bytes), WireError> {
    match r
    case Err(e) => Err(e)
    case Ok((v, tail)) => Ok((group + 128 * v, tail))
  }

  lemma LastGroup(total: nat, rest: Bytes)
    ensures ReadFrom(total, rest, 5) == Err(NonCanonicalKeyIndex)
  {
  }

  lemma {:induction false} WrittenIsRead(total: nat, v: nat, tail: Bytes, i: nat)
    requires i <= 4 && v < Bound(i) && (i > 0 ==> v > 0)
    ensures ReadFrom(total, Leb(v) + tail, i) == Ok((v, tail))
    decreases 5 - i
  {
    hide ReadFrom;
    hide Bound;
    var rest := Leb(v) + tail;
    BoundStep(i);
    ReadCases(total, rest, i);
    if v < 128 {
      assert rest[1..] == tail;
    } else {
      LebLess(v);
      assert rest[1..] == Leb(v / 128) + tail;
      WrittenIsRead(total, v / 128, tail, i + 1);
    }
  }

  lemma {:induction false} ReadIsWritten(total: nat, rest: Bytes, i: nat)
    requires i <= 4 && ReadFrom(total, rest, i).Ok?
    ensures var (v, tail) := ReadFrom(total, rest, i).value;
            rest == Leb(v) + tail && v < Bound(i) && (i > 0 ==> v > 0)
    decreases 5 - i
  {
    hide ReadFrom;
    hide Leb;
    hide Bound;
    ReadCases(total, rest, i);
    BoundStep(i);
    assert rest == [rest[0]] + rest[1..];
    if rest[0] < 128 {
      LebOne(rest[0]);
    } else {
      LastGroup(total, rest[1..]);
      ReadIsWritten(total, rest[1..], i + 1);
      var (w, tail) := ReadFrom(total, rest[1..], i + 1).value;
      LebMore(rest[0], w);
      assert ([rest[0]] + Leb(w)) + tail == [rest[0]] + (Leb(w) + tail);
    }
  }

  lemma LebOne(v: nat)
    requires v < 128
    ensures Leb(v) == [v]
  {
  }

  /** The reader accepts exactly the writer's image: one encoding per value, and nothing past 32 bits. */
  lemma ReadLebIff(total: nat, rest: Bytes, v: nat, tail: Bytes)
    ensures ReadFrom(total, rest, 0) == Ok((v, tail)) <==> rest == Leb(v) + tail && v < 0x1_0000_0000
  {
    hide ReadFrom;
    hide Leb;
    assert Bound(0) == 0x1_0000_0000;
    if rest == Leb(v) + tail && v < 0x1_0000_0000 {
      WrittenIsRead(total, v, tail, 0);
    }
    if ReadFrom(total, rest, 0).Ok? {
      ReadIsWritten(total, rest, 0);
    }
  }

  /** `write_leb128`: appends `value` to `buffer`. */
  method WriteLeb128(buffer: Bytes, value: u32) returns (out: Bytes)
    ensures out == buffer + Leb(value)
  {
    out := buffer;
    var v: nat := value;
    while true
      invariant out + Leb(v) == buffer + Leb(value)
      decreases v
    {
      var b := v % 128;
      var more := v / 128;
      if more == 0 {
        return out + [b];
      }
      assert out + Leb(v) == (out + [b + 128]) + Leb(more);
      out, v := out + [b + 128], more;
    }
  }

  function Pow128(i: nat): (r: nat)
    ensures r > 0
  {
    if i == 0 then 1 else 128 * Pow128(i - 1)
  }

  /** A group in its place: `group << (7 * i)`. */
  function Shifted(group: nat, i: nat): nat {
    group * Pow128(i)
  }

  /** A value of which the groups below the `i`-th are read already. */
  function Resume(value: nat, i: nat, r: Result<(nat, Bytes), WireError>): Result<(nat, Bytes), WireError> {
    match r
    case Err(e) => Err(e)
    case Ok((v, tail)) => Ok((value + Shifted(v, i), tail))
  }

  /** `read_leb128`: the value at `cursor` and the cursor past it. */
  method ReadLeb128(data: Bytes, cursor: nat) returns (r: Result<(u32, nat), WireError>)
    requires cursor <= |data|
    ensures match ReadFrom(|data|, data[cursor..], 0)
            case Err(e) => r == Err(e)
            case Ok((v, tail)) => r.Ok? && r.value.0 == v && cursor < r.value.1 <= |data| && tail == data[r.value.1..]
  {
    hide Shifted;
    hide Resume;
    hide Leb;
    hide Bound;
    hide ReadFrom;
    var value: nat := 0;
    ghost var spec := ReadFrom(|data|, data[cursor..], 0);
    ResumeStart(spec);
    for i := 0 to 5
      invariant cursor + i <= |data|
      invariant spec == Resume(value, i, ReadFrom(|data|, data[cursor + i..], i))
    {
      ghost var rest := data[cursor + i..];
      ReadCases(|data|, rest, i);
      ResumeErr(value, i, ReadFrom(|data|, rest, i));
      if cursor + i >= |data| {
        return Err(TooShort(|data|));
      }
      var b := data[cursor + i];
      var group := b % 128;
      if i == 4 && group > 15 {
        return Err(NonCanonicalKeyIndex);
      }
      assert rest[1..] == data[cursor + i + 1..];
      if b < 128 {
        if i > 0 && b == 0 {
          return Err(NonCanonicalKeyIndex);
        }
        ResumeOk(value, i, b, data[cursor + i + 1..]);
        value := value + Shifted(group, i);
        ReadLebIff(|data|, data[cursor..], value, data[cursor + i + 1..]);
        return Ok((value, cursor + i + 1));
      }
      ResumeAfter(value, group, i, ReadFrom(|data|, data[cursor + i + 1..], i + 1));
      value := value + Shifted(group, i);
    }
    LastGroup(|data|, data[cursor + 5..]);
    ResumeErr(value, 5, ReadFrom(|data|, data[cursor + 5..], 5));
    return Err(NonCanonicalKeyIndex);
  }

  lemma ResumeStart(r: Result<(nat, Bytes), WireError>)
    ensures Resume(0, 0, r) == r
  {
  }

  lemma ResumeErr(value: nat, i: nat, r: Result<(nat, Bytes), WireError>)
    ensures r.Err? ==> Resume(value, i, r) == r
  {
  }

  lemma ResumeOk(value: nat, i: nat, group: nat, tail: Bytes)
    ensures Resume(value, i, Ok((group, tail))) == Ok((value + Shifted(group, i), tail))
  {
  }

  lemma ResumeAfter(value: nat, group: nat, i: nat, r: Result<(nat, Bytes), WireError>)
    ensures Resume(value, i, After(group, r)) == Resume(value + Shifted(group, i), i + 1, r)
  {
    hide Shifted;
    if r.Ok? {
      ShiftedSum(group, r.value.0, i);
    }
  }

  lemma ShiftedSum(group: nat, v: nat, i: nat)
    ensures Shifted(group + 128 * v, i) == Shifted(group, i) + Shifted(v, i + 1)
  {
    var p := Pow128(i);
    SumTimes(group, 128 * v, p);
    TimesShift(v, p);
  }

  lemma SumTimes(a: nat, b: nat, p: nat)
    ensures (a + b) * p == a * p + b * p
  {
  }

  lemma TimesShift(v: nat, p: nat)
    ensures (128 * v) * p == v * (128 * p)
  {
  }

  // ----- group by group -----

  /**
   What the bytes say: seven bits each, low group first, the high bit set on all but the last, and
   no last group of zero unless it is the only one.
   */
  lemma {:induction false} LebGroups(v: nat, i: nat)
    requires i < |Leb(v)|
    ensures Leb(v)[i] % 128 == v / Pow128(i) % 128
    ensures Leb(v)[i] >= 128 <==> i < |Leb(v)| - 1
    ensures i > 0 && i == |Leb(v)| - 1 ==> Leb(v)[i] > 0
    decreases i
  {
    if v >= 128 {
      LebLess(v);
      if i > 0 {
        hide Pow128;
        LebGroups(v / 128, i - 1);
        LebPositive(v / 128);
        Pow128Step(i - 1);
        DivideTwice(v, Pow128(i - 1));
      }
    }
  }

  lemma {:induction false} LebPositive(v: nat)
    requires v > 0
    ensures Leb(v)[|Leb(v)| - 1] > 0
  {
    if v >= 128 {
      LebLess(v);
      LebPositive(v / 128);
    }
  }

  lemma Pow128Step(i: nat)
    ensures Pow128(i + 1) == 128 * Pow128(i)
  {
  }

  lemma DivideTwice(v: nat, p: nat)
    requires p > 0
    ensures v / 128 / p == v / (128 * p)
  {
    var q, r := Bits.Division(v, 128 * p);
    TimesShift(q, p);
    var t := q * p;
    assert v / 128 == t + r / 128 by {
      assert q * (128 * p) == 128 * t by {
        assert (128 * q) * p == q * (128 * p);
        ShiftFirst(q, p);
      }
    }
    Bits.QuotientUnique(v / 128, p, q, r / 128);
  }

  lemma ShiftFirst(q: nat, p: nat)
    ensures (128 * q) * p == 128 * (q * p)
  {
  }
}
