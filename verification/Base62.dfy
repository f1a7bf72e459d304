/** Base-62 encoding of byte strings (common/base62/base62.go). */
module Base62 {
  import opened Arithmetic

  type Byte = b: int | 0 <= b < 256
  type Digit = d: int | 0 <= d < 62

  // The codes of 0-9, A-Z and a-z.
  const DIGITS: seq<Byte> := [48, 49, 50, 51, 52, 53, 54, 55, 56, 57]
  const UPPER: seq<Byte> :=
    [65, 66, 67, 68, 69, 70, 71, 72, 73, 74, 75, 76, 77, 78, 79, 80, 81, 82, 83, 84, 85, 86, 87, 88, 89, 90]
  const LOWER: seq<Byte> :=
    [97, 98, 99, 100, 101, 102, 103, 104, 105, 106, 107, 108, 109, 110, 111, 112, 113,
     114, 115, 116, 117, 118, 119, 120, 121, 122]
  const ENCODE_STD: seq<Byte> := DIGITS + UPPER + LOWER

  function Pow(b: nat, n: nat): (p: nat) {
    if n == 0 then 1 else b * Pow(b, n - 1)
  }

  lemma {:induction false} PowMonotone(b: nat, m: nat, n: nat)
    requires b > 0 && m <= n
    ensures Pow(b, m) <= Pow(b, n)
  {
    if m < n {
      PowMonotone(b, m, n - 1);
      Scale(Pow(b, n - 1), 1, b);
    }
  }

  /** The number a big-endian numeral denotes. */
  function Number(base: nat, s: seq<int>): int {
    if s == [] then 0 else base * Number(base, s[..|s| - 1]) + s[|s| - 1]
  }

  lemma {:induction false} NumberPrepend(base: nat, d: int, s: seq<int>)
    ensures Number(base, [d] + s) == d * Pow(base, |s|) + Number(base, s)
  {
    if s == [] {
      assert ([d] + s)[..0] == [];
    } else {
      var n := |s| - 1;
      assert ([d] + s)[..n + 1] == [d] + s[..n];
      NumberPrepend(base, d, s[..n]);
      calc {
        Number(base, [d] + s);
        base * (d * Pow(base, n) + Number(base, s[..n])) + s[n];
        d * (base * Pow(base, n)) + base * Number(base, s[..n]) + s[n];
      }
    }
  }

  predicate InBase(base: nat, s: seq<int>) {
    forall i | 0 <= i < |s| :: 0 <= s[i] < base
  }

  lemma {:induction false} NumberBound(base: nat, s: seq<int>)
    requires base > 0 && InBase(base, s)
    ensures 0 <= Number(base, s) < Pow(base, |s|)
  {
    if s != [] {
      var n := |s| - 1;
      NumberBound(base, s[..n]);
      Scale(base, 0, Number(base, s[..n]));
      Scale(base, Number(base, s[..n]) + 1, Pow(base, n));
      assert base * (Number(base, s[..n]) + 1) == base * Number(base, s[..n]) + base;
    }
  }

  /** Equally long numerals of one number are equal. */
  lemma {:induction false} NumberInjective(base: nat, s: seq<int>, t: seq<int>)
    requires base > 0 && InBase(base, s) && InBase(base, t) && |s| == |t| && Number(base, s) == Number(base, t)
    ensures s == t
  {
    if s != [] {
      var n := |s| - 1;
      Quotients(base, Number(base, s[..n]), s[n], Number(base, t[..n]), t[n]);
      NumberInjective(base, s[..n], t[..n]);
      assert s == s[..n] + [s[n]] && t == t[..n] + [t[n]];
    }
  }

  lemma Quotients(base: nat, q: int, r: int, q1: int, r1: int)
    requires 0 <= r < base && 0 <= r1 < base && base * q + r == base * q1 + r1
    ensures q == q1 && r == r1
  {
    if q < q1 {
      Scale(base, q + 1, q1);
    } else if q1 < q {
      Scale(base, q1 + 1, q);
    }
  }

  /** Without leading zeros a number has only one numeral. */
  lemma {:induction false} CanonicalUnique(base: nat, s: seq<int>, t: seq<int>)
    requires base > 1 && InBase(base, s) && InBase(base, t) && Canonical(s) && Canonical(t)
    requires Number(base, s) == Number(base, t)
    ensures s == t
  {
    CanonicalSize(base, s);
    CanonicalSize(base, t);
    if |s| < |t| {
      PowMonotone(base, |s|, |t| - 1);
    } else if |t| < |s| {
      PowMonotone(base, |t|, |s| - 1);
    } else {
      NumberInjective(base, s, t);
    }
  }

  predicate Canonical(s: seq<int>) {
    s != [] ==> s[0] != 0
  }

  lemma CanonicalSize(base: nat, s: seq<int>)
    requires base > 1 && InBase(base, s) && Canonical(s)
    ensures Number(base, s) < Pow(base, |s|)
    ensures s != [] ==> Pow(base, |s| - 1) <= Number(base, s)
  {
    hide Pow, Number;
    NumberBound(base, s);
    if s != [] {
      assert s == [s[0]] + s[1..];
      NumberPrepend(base, s[0], s[1..]);
      NumberBound(base, s[1..]);
      Scale(Pow(base, |s| - 1), 1, s[0]);
      assert s[0] * Pow(base, |s| - 1) == Pow(base, |s| - 1) * s[0];
    }
  }

  // ---- The conversion, one byte at a time ----

  lemma {:induction false} LeadingZeros(base: nat, s: seq<int>, k: nat)
    requires k <= |s| && forall i | 0 <= i < k :: s[i] == 0
    ensures Number(base, s) == Number(base, s[k..])
  {
    hide Pow, Number;
    if k > 0 {
      assert s == [0] + s[1..];
      NumberPrepend(base, 0, s[1..]);
      LeadingZeros(base, s[1..], k - 1);
      assert s[1..][k - 1..] == s[k..];
    } else {
      assert s[0..] == s;
    }
  }

  /** The first k digits are zero and the next one, if there is one, is not. */
  predicate Significant(s: seq<int>, k: nat) {
    k <= |s| && (forall i | 0 <= i < k :: s[i] == 0) && (k < |s| ==> s[k] != 0)
  }

  /** What is left to carry, and the digits written so far, make up what the digits read so far come to. */
  ghost predicate Carried(s: seq<int>, was: seq<int>, j: int, v: int, b: int)
    requires |s| == |was| && -1 <= j < |s|
  {
    v * Pow(62, |s| - 1 - j) + Number(62, s[j + 1..]) == 256 * Number(62, was[j + 1..]) + b
  }

  lemma CarryStep(s: seq<int>, was: seq<int>, j: nat, v: int, b: int, next: seq<int>)
    requires |s| == |was| == |next| && j < |s| && Carried(s, was, j, v, b)
    requires next == s[j := (v + 256 * was[j]) % 62]
    ensures Carried(next, was, j - 1, (v + 256 * was[j]) / 62, b)
  {
    hide Pow, Number;
    var t, p := v + 256 * was[j], Pow(62, |s| - 1 - j);
    assert next[j..] == [t % 62] + s[j + 1..] && was[j..] == [was[j]] + was[j + 1..];
    NumberPrepend(62, t % 62, s[j + 1..]);
    NumberPrepend(62, was[j], was[j + 1..]);
    PowStep(62, |s| - 1 - j);
    CarryAlgebra(t, p, v, was[j], Number(62, s[j + 1..]), Number(62, was[j + 1..]), b);
  }

  lemma PowStep(b: nat, n: nat)
    ensures Pow(b, n + 1) == b * Pow(b, n)
  {
  }

  lemma CarryAlgebra(t: int, p: int, v: int, d: int, n: int, m: int, b: int)
    requires t == v + 256 * d && v * p + n == 256 * m + b
    ensures (t / 62) * (62 * p) + (t % 62 * p + n) == 256 * (d * p + m) + b
  {
    assert t == 62 * (t / 62) + t % 62;
    calc {
      (t / 62) * (62 * p) + t % 62 * p;
      (62 * (t / 62) + t % 62) * p;
      t * p;
      v * p + 256 * d * p;
    }
  }

  /** Multiplies the number in `dst` by 256 and adds b. `rs` digits of it were in use, `c` are now. */
  method AddByte(dst: array<int>, rs: nat, b: Byte) returns (c: nat)
    requires rs <= dst.Length && InBase(62, dst[..]) && Significant(dst[..], dst.Length - rs)
    requires 256 * Number(62, dst[..]) + b < Pow(62, dst.Length)
    modifies dst
    ensures c <= dst.Length && InBase(62, dst[..]) && Significant(dst[..], dst.Length - c)
    ensures Number(62, dst[..]) == 256 * Number(62, old(dst[..])) + b
  {
    hide Pow, Number;
    ghost var was := dst[..];
    var n := dst.Length;
    c := 0;
    var v: int := b;
    var j := n - 1;
    assert was[n..] == [] && dst[..][n..] == [];
    CarriedNothing(was, b);
    while j >= 0 && (v != 0 || c < rs)
      invariant -1 <= j < n && c == n - 1 - j && 0 <= v <= 255
      invariant InBase(62, dst[..]) && forall i | 0 <= i <= j :: dst[i] == was[i]
      invariant Carried(dst[..], was, j, v, b)
      invariant c > 0 && v == 0 && c >= rs ==> dst[j + 1] != 0
    {
      ghost var s := dst[..];
      CarryStep(s, was, j, v, b, s[j := (v + 256 * was[j]) % 62]);
      v := v + 256 * dst[j];
      dst[j] := v % 62;
      assert dst[..] == s[j := v % 62];
      v := v / 62;
      c := c + 1;
      j := j - 1;
    }
    NothingLost(dst[..], was, j, v, b, rs);
  }

  lemma CarriedNothing(was: seq<int>, b: int)
    ensures Carried(was, was, |was| - 1, b, b)
  {
    assert was[|was|..] == [];
  }

  /** The carry has run out, and above it there were only zeros. */
  lemma NothingLost(s: seq<int>, was: seq<int>, j: int, v: int, b: int, rs: nat)
    requires |s| == |was| && -1 <= j < |s| && 0 <= v && rs <= |s|
    requires InBase(62, s) && Significant(was, |was| - rs) && (forall i | 0 <= i <= j :: s[i] == was[i])
    requires Carried(s, was, j, v, b) && 256 * Number(62, was) + b < Pow(62, |s|)
    requires j < 0 || (v == 0 && |s| - 1 - j >= rs)
    ensures v == 0 && Number(62, s) == 256 * Number(62, was) + b
    ensures forall i | 0 <= i <= j :: s[i] == 0
  {
    hide Pow, Number;
    if j < 0 {
      assert s[0..] == s && was[0..] == was;
      NumberBound(62, s);
      Scale(Pow(62, |s|), if v > 0 then 1 else 0, v);
      assert v == 0;
    } else {
      LeadingZeros(62, s, j + 1);
      LeadingZeros(62, was, j + 1);
      assert 0 * Pow(62, |s| - 1 - j) == 0;
    }
  }

  // ---- The encoding ----

  predicate Distinct(encoder: seq<Byte>) {
    forall i, j | 0 <= i < j < |encoder| :: encoder[i] != encoder[j]
  }

  /** The entry of the decode map for one byte: the last position of it among the first n of the alphabet. */
  predicate DecodesTo(encoder: seq<Byte>, n: nat, b: Byte, d: Byte)
    requires n <= |encoder|
  {
    if b in encoder[..n] then d < n && encoder[d] == b && b !in encoder[d + 1..n] else d == 0xFF
  }

  function Spell(encoder: seq<Byte>, digits: seq<int>): (out: seq<Byte>)
    requires |encoder| == 62 && InBase(62, digits)
  {
    seq(|digits|, i requires 0 <= i < |digits| => encoder[digits[i]])
  }

  /** The base-62 numeral of the number that a byte string denotes. */
  predicate IsNumeralOf(digits: seq<int>, src: seq<Byte>) {
    InBase(62, digits) && Canonical(digits) && Number(62, digits) == Number(256, src)
  }

  /** The encoding spells that numeral. */
  ghost predicate IsEncodingOf(encoder: seq<Byte>, src: seq<Byte>, out: seq<Byte>)
    requires |encoder| == 62
  {
    exists digits :: IsNumeralOf(digits, src) && out == Spell(encoder, digits)
  }

  class Encoding {
    const encode: array<Byte>
    const decodeMap: array<Byte>

    ghost predicate Valid(encoder: seq<Byte>)
      reads encode, decodeMap
    {
      && |encoder| == 62 && encode[..] == encoder && decodeMap.Length == 256
      && forall b: Byte :: DecodesTo(encoder, 62, b, decodeMap[b])
    }

    constructor (encoder: seq<Byte>)
      requires |encoder| == 62
      ensures Valid(encoder) && fresh(encode) && fresh(decodeMap)
    {
      encode := new Byte[62](i requires 0 <= i < 62 => encoder[i]);
      decodeMap := new Byte[256];
      new;
      for i := 0 to decodeMap.Length
        invariant forall k | 0 <= k < i :: decodeMap[k] == 0xFF
        invariant encode[..] == encoder
      {
        decodeMap[i] := 0xFF;
      }
      for i := 0 to |encoder|
        invariant forall b: Byte :: DecodesTo(encoder, i, b, decodeMap[b])
        invariant encode[..] == encoder
      {
        assert encoder[..i + 1] == encoder[..i] + [encoder[i]];
        decodeMap[encoder[i]] := i;
      }
      assert encoder[..62] == encoder;
    }

    /** `cs` is the size the source computes in floating point: enough base-62 digits for |src| bytes. */
    method Encode(src: seq<Byte>, cs: nat, ghost encoder: seq<Byte>) returns (out: seq<Byte>)
      requires Valid(encoder) && Pow(62, cs) >= Pow(256, |src|)
      ensures IsEncodingOf(encoder, src, out)
    {
      hide Pow, Number;
      if |src| == 0 {
        EmptyNumber(62);
        EmptyNumber(256);
        assert IsNumeralOf([], src) && Spell(encoder, []) == [];
        return [];
      }
      var rs := 0;
      var dst := new int[cs](_ => 0);
      ghost var s := dst[..];
      AllZero(dst[..]);
      EmptyNumber(256);
      for i := 0 to |src|
        invariant rs <= cs && InBase(62, dst[..]) && Significant(dst[..], cs - rs)
        invariant Number(62, dst[..]) == Number(256, src[..i])
      {
        Capacity(src, i, cs);
        rs := AddByte(dst, rs, src[i]);
      }
      assert src[..|src|] == src;
      s := dst[..];
      LeadingZeros(62, s, cs - rs);
      ghost var digits := s[cs - rs..];
      assert IsNumeralOf(digits, src);
      SpellInPlace(dst, encoder);
      assert Spell(encoder, s)[cs - rs..] == Spell(encoder, digits);
      if cs > rs {
        out := dst[cs - rs..];
      } else {
        out := dst[..];
      }
    }

    /** Replaces every digit by its character, in place. */
    method SpellInPlace(dst: array<int>, ghost encoder: seq<Byte>)
      requires Valid(encoder) && InBase(62, dst[..]) && dst as object != encode && dst as object != decodeMap
      modifies dst
      ensures dst[..] == Spell(encoder, old(dst[..]))
    {
      for i := 0 to dst.Length
        invariant forall k | 0 <= k < i :: dst[k] == encoder[old(dst[k])]
        invariant forall k | i <= k < dst.Length :: dst[k] == old(dst[k])
      {
        assert old(dst[..])[i] == dst[i] && encode[..][dst[i]] == encode[dst[i]];
        dst[i] := encode[dst[i]];
      }
    }
  }

  lemma EmptyNumber(base: nat)
    ensures Number(base, []) == 0
  {
  }

  lemma AllZero(s: seq<int>)
    requires forall i | 0 <= i < |s| :: s[i] == 0
    ensures Number(62, s) == 0
  {
    LeadingZeros(62, s, |s|);
    assert s[|s|..] == [];
  }

  /** The digits are enough for every prefix of the input. */
  lemma Capacity(src: seq<Byte>, i: nat, cs: nat)
    requires i < |src| && Pow(62, cs) >= Pow(256, |src|)
    ensures Number(256, src[..i + 1]) == 256 * Number(256, src[..i]) + src[i] < Pow(62, cs)
  {
    assert src[..i + 1][..i] == src[..i];
    NumberBound(256, src[..i + 1]);
    PowMonotone(256, i + 1, |src|);
  }

  // ---- What the encoding promises ----

  /** The decode map gives back every digit if and only if no character stands twice in the alphabet. */
  lemma DecodesEveryDigitIffDistinct(encoder: seq<Byte>, decodeMap: seq<Byte>)
    requires |encoder| == 62 && |decodeMap| == 256 && forall b: Byte :: DecodesTo(encoder, 62, b, decodeMap[b])
    ensures (forall d: Digit :: decodeMap[encoder[d]] == d) <==> Distinct(encoder)
  {
    assert encoder[..62] == encoder;
    if Distinct(encoder) {
      forall d: Digit
        ensures decodeMap[encoder[d]] == d
      {
        assert DecodesTo(encoder, 62, encoder[d], decodeMap[encoder[d]]);
      }
    }
    if forall d: Digit :: decodeMap[encoder[d]] == d {
      forall i, j | 0 <= i < j < |encoder|
        ensures encoder[i] != encoder[j]
      {
        var a: Digit, b: Digit := i, j;
        assert decodeMap[encoder[a]] == a && decodeMap[encoder[b]] == b;
      }
    }
  }

  lemma SpellInjective(encoder: seq<Byte>, s: seq<int>, t: seq<int>)
    requires |encoder| == 62 && Distinct(encoder) && InBase(62, s) && InBase(62, t)
    ensures Spell(encoder, s) == Spell(encoder, t) ==> s == t
  {
    if Spell(encoder, s) == Spell(encoder, t) {
      assert |Spell(encoder, s)| == |s| == |t|;
      forall i | 0 <= i < |s|
        ensures s[i] == t[i]
      {
        assert Spell(encoder, s)[i] == encoder[s[i]] && Spell(encoder, t)[i] == encoder[t[i]];
      }
    }
  }

  /** Two byte strings are encoded alike if and only if they denote the same number. */
  lemma EncodedAlikeIffSameNumber(encoder: seq<Byte>, src: seq<Byte>, src1: seq<Byte>, out: seq<Byte>, out1: seq<Byte>)
    requires |encoder| == 62 && Distinct(encoder) && IsEncodingOf(encoder, src, out)
    requires IsEncodingOf(encoder, src1, out1)
    ensures out == out1 <==> Number(256, src) == Number(256, src1)
  {
    hide Number, Spell, Distinct;
    var digits :| IsNumeralOf(digits, src) && out == Spell(encoder, digits);
    var digits1 :| IsNumeralOf(digits1, src1) && out1 == Spell(encoder, digits1);
    SpellInjective(encoder, digits, digits1);
    if Number(256, src) == Number(256, src1) {
      CanonicalUnique(62, digits, digits1);
    }
  }

  /** Byte strings of one length, such as digests, have different encodings when they differ. */
  lemma EncodingInjective(encoder: seq<Byte>, src: seq<Byte>, src1: seq<Byte>, out: seq<Byte>)
    requires |encoder| == 62 && Distinct(encoder) && IsEncodingOf(encoder, src, out) && IsEncodingOf(encoder, src1, out)
    requires |src| == |src1|
    ensures src == src1
  {
    hide Number, Distinct, IsEncodingOf;
    EncodedAlikeIffSameNumber(encoder, src, src1, out, out);
    NumberInjective(256, src, src1);
  }

  /** Leading zero bytes leave no trace, so byte strings of different lengths may be encoded alike. */
  lemma LeadingZeroBytesAreLost(encoder: seq<Byte>, src: seq<Byte>, k: nat, out: seq<Byte>)
    requires |encoder| == 62 && IsEncodingOf(encoder, src, out)
    ensures IsEncodingOf(encoder, seq(k, _ => 0) + src, out)
  {
    hide Number, Spell;
    var longer := seq(k, _ => 0) + src;
    LeadingZeros(256, longer, k);
    assert longer[k..] == src;
    var digits :| IsNumeralOf(digits, src) && out == Spell(encoder, digits);
    assert IsNumeralOf(digits, longer);
  }

  lemma StandardCode(i: nat)
    requires i < 62
    ensures |ENCODE_STD| == 62
    ensures ENCODE_STD[i] == if i < 10 then 48 + i else if i < 36 then 55 + i else 61 + i
  {
    if i < 10 {
      assert DIGITS[i] == 48 + i;
    } else if i < 36 {
      assert UPPER[i - 10] == 55 + i;
    } else {
      assert LOWER[i - 36] == 61 + i;
    }
  }

  lemma StandardAlphabetDistinct()
    ensures |ENCODE_STD| == 62 && Distinct(ENCODE_STD)
  {
    forall i, j | 0 <= i < j < 62
      ensures ENCODE_STD[i] != ENCODE_STD[j]
    {
      StandardCode(i);
      StandardCode(j);
    }
  }
}
