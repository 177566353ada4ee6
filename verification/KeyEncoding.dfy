/** The order-preserving encoding of index keys: the bytes of two keys compare as their values do. */
module KeyEncoding {
  import opened Base
  import opened ByteOrder

  const TWO_31: int := 0x8000_0000
  const TWO_32: int := 0x1_0000_0000
  const TWO_63: int := 0x8000_0000_0000_0000
  const TWO_64: int := 0x1_0000_0000_0000_0000

  // ---------------------------------------------------------------- integers

  /** Two's complement bits of a signed number, and the same with the sign bit flipped. */
  function Bits(i: int, half: int): int { if i < 0 then i + 2 * half else i }

  function Flipped(bits: int, half: int): int { if bits >= half then bits - half else bits + half }

  lemma FlippedOrder(i: int, half: int)
    requires half > 0 && -half <= i < half
    ensures 0 <= Bits(i, half) < 2 * half && Flipped(Bits(i, half), half) == i + half
  {}

  lemma Sizes()
    ensures Pow256(1) == 256 && Pow256(4) == TWO_32 && Pow256(8) == TWO_64
  {
    assert Pow256(1) == 256 && Pow256(2) == 65536 && Pow256(3) == 16777216 && Pow256(4) == TWO_32;
    assert Pow256(5) == 256 * TWO_32 && Pow256(6) == 65536 * TWO_32 && Pow256(7) == 16777216 * TWO_32;
  }

  // ---------------------------------------------------------------- floats

  const MANTISSA: int := 0x10_0000_0000_0000
  const INFINITY: int := 0x7FF0_0000_0000_0000
  const CANONICAL_NAN: int := 0x7FF8_0000_0000_0000

  function Pow2(n: nat): nat { if n == 0 then 1 else 2 * Pow2(n - 1) }

  /** What 64 bits mean as an IEEE 754 double: `Finite(n)` is n times 2 to the power -1074. */
  datatype Float = NaN | Infinite(negative: bool) | Finite(units: int)

  /** The size of a finite double, from its exponent and mantissa bits. */
  function Units(m: nat): nat {
    var e, f := m / MANTISSA, m % MANTISSA;
    if e == 0 then f else (MANTISSA + f) * Pow2(e - 1)
  }

  function Meaning(bits: int): Float
    requires 0 <= bits < TWO_64
  {
    var negative, m := bits >= TWO_63, bits % TWO_63;
    if m > INFINITY then NaN
    else if m == INFINITY then Infinite(negative)
    else Finite(if negative then -(Units(m) as int) else Units(m))
  }

  /** The order of doubles: NaN is the greatest and equals itself, and the two zeros are equal. */
  predicate FloatLess(x: Float, y: Float) {
    match x
    case NaN => false
    case Infinite(negative) => if negative then y != x else y == NaN
    case Finite(n) => y == NaN || y == Infinite(false) || (y.Finite? && n < y.units)
  }

  function Canonical(bits: int): int
    requires 0 <= bits < TWO_64
  {
    if Meaning(bits) == NaN then CANONICAL_NAN else if Meaning(bits) == Finite(0) then 0 else bits
  }

  function FloatBits(bits: int): (r: int)
    requires 0 <= bits < TWO_64
    ensures 0 <= r < TWO_64
  {
    var b := Canonical(bits);
    if b < TWO_63 then b + TWO_63 else TWO_64 - 1 - b
  }

  lemma Pow2Positive(n: nat)
    ensures Pow2(n) > 0
  {}

  /** Larger exponent and mantissa bits mean a larger size. */
  lemma UnitsStep(m: nat)
    ensures Units(m) < Units(m + 1)
  {
    var e, f := m / MANTISSA, m % MANTISSA;
    assert m == e * MANTISSA + f;
    if e > 0 { Pow2Positive(e - 1); }
    if f + 1 < MANTISSA {
      assert (m + 1) / MANTISSA == e && (m + 1) % MANTISSA == f + 1;
      if e > 0 { Scaled(MANTISSA + f, MANTISSA + f + 1, Pow2(e - 1)); }
    } else {
      assert (m + 1) / MANTISSA == e + 1 && (m + 1) % MANTISSA == 0;
      if e > 0 { Scaled(MANTISSA + f, 2 * MANTISSA, Pow2(e - 1)); }
    }
  }

  lemma Scaled(a: nat, b: nat, k: nat)
    requires a < b && k > 0
    ensures a * k < b * k
  {}

  lemma {:induction false} UnitsOrder(m: nat, n: nat)
    requires m < n
    ensures Units(m) < Units(n)
    decreases n - m
  {
    UnitsStep(n - 1);
    if m < n - 1 { UnitsOrder(m, n - 1); }
  }

  lemma UnitsAgree(m: nat, n: nat)
    ensures Units(m) < Units(n) <==> m < n
    ensures Units(m) == 0 <==> m == 0
  {
    if m < n { UnitsOrder(m, n); } else if n < m { UnitsOrder(n, m); }
    assert Units(0) == 0;
    if m > 0 { UnitsOrder(0, m); }
  }

  /** Where the encoded bits of a double lie. */
  lemma FloatBitsAre(bits: int)
    requires 0 <= bits < TWO_64
    ensures var m, x, r := bits % TWO_63, Meaning(bits), FloatBits(bits);
            && (x == NaN ==> r == TWO_63 + CANONICAL_NAN)
            && (x.Infinite? ==> r == if x.negative then TWO_63 - 1 - INFINITY else TWO_63 + INFINITY)
            && (x.Finite? && x.units == 0 ==> r == TWO_63)
            && (x.Finite? && x.units > 0 ==> r == TWO_63 + m && 0 < m < INFINITY && x.units == Units(m))
            && (x.Finite? && x.units < 0 ==> r == TWO_63 - 1 - m && 0 < m < INFINITY && x.units == -(Units(m) as int))
  {
    UnitsAgree(bits % TWO_63, 0);
  }

  /** The encoded bits of two doubles are in the order of the doubles. */
  lemma FloatOrder(a: int, b: int)
    requires 0 <= a < TWO_64 && 0 <= b < TWO_64
    ensures FloatBits(a) < FloatBits(b) <==> FloatLess(Meaning(a), Meaning(b))
    ensures FloatBits(a) == FloatBits(b) <==> Meaning(a) == Meaning(b)
  {
    FloatBitsAre(a);
    FloatBitsAre(b);
    UnitsAgree(a % TWO_63, b % TWO_63);
    UnitsAgree(b % TWO_63, a % TWO_63);
  }

  // ---------------------------------------------------------------- text

  /** A Unicode scalar value. */
  predicate Scalar(c: nat) { c < 0xD800 || 0xE000 <= c < 0x11_0000 }

  /** The low `n` groups of six bits of a character, and what is above them. */
  function Low(c: nat, n: nat): (b: Bytes)
    ensures |b| == n && forall i :: 0 <= i < n ==> b[i] >= 0x80
  {
    if n == 0 then [] else Low(c / 0x40, n - 1) + [(0x80 + c % 0x40) as byte]
  }

  function High(c: nat, n: nat): nat { if n == 0 then c else High(c / 0x40, n - 1) }

  lemma HighFits(c: nat)
    ensures c < 0x800 ==> High(c, 1) < 0x20
    ensures c < 0x1_0000 ==> High(c, 2) < 0x10
    ensures c < 0x11_0000 ==> High(c, 3) < 5
  {
    assert High(c, 1) == High(c / 0x40, 0) == c / 0x40;
    assert High(c, 2) == High(c / 0x40, 1) == c / 0x40 / 0x40;
    assert High(c / 0x40 / 0x40, 1) == c / 0x40 / 0x40 / 0x40;
    assert High(c, 3) == High(c / 0x40, 2) == High(c / 0x40 / 0x40, 1);
  }

  /** UTF-8, section 3 of RFC 3629. */
  function Utf8Char(c: nat): (b: Bytes)
    requires Scalar(c)
    ensures 1 <= |b| <= 4 && (c == 0 ==> b == [0]) && (c > 0 ==> forall i :: 0 <= i < |b| ==> b[i] != 0)
  {
    HighFits(c);
    if c < 0x80 then [c as byte]
    else if c < 0x800 then [(0xC0 + High(c, 1)) as byte] + Low(c, 1)
    else if c < 0x1_0000 then [(0xE0 + High(c, 2)) as byte] + Low(c, 2)
    else [(0xF0 + High(c, 3)) as byte] + Low(c, 3)
  }

  predicate Scalars(s: seq<nat>) { forall i :: 0 <= i < |s| ==> Scalar(s[i]) }

  function Utf8(s: seq<nat>): Bytes
    requires Scalars(s)
  {
    if s == [] then [] else Utf8Char(s[0]) + Utf8(s[1..])
  }

  /** The order of texts: the first character that differs decides. */
  predicate CharsLess(s: seq<nat>, t: seq<nat>) {
    t != [] && (s == [] || s[0] < t[0] || (s[0] == t[0] && CharsLess(s[1..], t[1..])))
  }

  /** `x` and `y` differ before either ends, and `x` comes first. */
  ghost predicate Before(x: Bytes, y: Bytes) { exists i :: PartAt(x, y, i) && x[i] < y[i] }

  /** Of two characters the larger is larger above the low groups, or in the first that differs. */
  lemma {:induction false} GroupOrder(c: nat, d: nat, n: nat)
    requires c < d
    ensures High(c, n) < High(d, n) || (High(c, n) == High(d, n) && Before(Low(c, n), Low(d, n)))
  {
    if n > 0 {
      var x, y := Low(c / 0x40, n - 1), Low(d / 0x40, n - 1);
      if c / 0x40 == d / 0x40 {
        assert PartAt(Low(c, n), Low(d, n), n - 1);
      } else {
        GroupOrder(c / 0x40, d / 0x40, n - 1);
        if Before(x, y) {
          var i :| PartAt(x, y, i) && x[i] < y[i];
          assert Low(c, n)[..i] == x[..i] && Low(d, n)[..i] == y[..i];
          assert PartAt(Low(c, n), Low(d, n), i);
        }
      }
    }
  }

  lemma LeadOrder(a: byte, b: byte, x: Bytes, y: Bytes)
    requires a < b || (a == b && Before(x, y))
    ensures Before([a] + x, [b] + y)
  {
    if a < b {
      assert PartAt([a] + x, [b] + y, 0);
    } else {
      var i :| PartAt(x, y, i) && x[i] < y[i];
      assert ([a] + x)[..i + 1] == [a] + x[..i] && ([b] + y)[..i + 1] == [b] + y[..i];
      assert PartAt([a] + x, [b] + y, i + 1);
    }
  }

  lemma CharBefore(c: nat, d: nat)
    requires Scalar(c) && Scalar(d) && c < d
    ensures Before(Utf8Char(c), Utf8Char(d))
  {
    HighFits(c);
    HighFits(d);
    var x, y := Utf8Char(c), Utf8Char(d);
    assert x == [x[0]] + x[1..] && y == [y[0]] + y[1..];
    if |x| == |y| {
      GroupOrder(c, d, |x| - 1);
      assert x[1..] == Low(c, |x| - 1) && y[1..] == Low(d, |x| - 1);
    }
    LeadOrder(x[0], y[0], x[1..], y[1..]);
  }

  /** Characters are encoded in their order, and no encoding is a prefix of another. */
  lemma CharOrder(c: nat, d: nat)
    requires Scalar(c) && Scalar(d) && c != d
    ensures Part(Utf8Char(c), Utf8Char(d)) && (Less(Utf8Char(c), Utf8Char(d)) <==> c < d)
  {
    var x, y := Utf8Char(c), Utf8Char(d);
    if c < d { CharBefore(c, d); } else { CharBefore(d, c); }
    var i: nat :| PartAt(x, y, i) && (x[i] < y[i] <==> c < d);
    PartDecides(x, y, [], [], i);
    assert x + [] == x && y + [] == y;
  }

  lemma SameHead(a: Bytes, x: Bytes, y: Bytes)
    ensures Less(a + x, a + y) <==> Less(x, y)
    ensures a + x == a + y <==> x == y
  {
    SamePrefix(a, x, y);
    assert (a + x)[|a|..] == x && (a + y)[|a|..] == y;
  }

  /** The bytes of two texts compare as their characters do, and different texts have different bytes. */
  lemma {:induction false} Utf8Order(s: seq<nat>, t: seq<nat>)
    requires Scalars(s) && Scalars(t)
    ensures Less(Utf8(s), Utf8(t)) <==> CharsLess(s, t)
    ensures Utf8(s) == Utf8(t) <==> s == t
  {
    if s != [] && t != [] {
      if s[0] == t[0] {
        Utf8Order(s[1..], t[1..]);
        SameHead(Utf8Char(s[0]), Utf8(s[1..]), Utf8(t[1..]));
        assert s == [s[0]] + s[1..] && t == [t[0]] + t[1..];
      } else {
        CharOrder(s[0], t[0]);
        PartOrder(Utf8Char(s[0]), Utf8Char(t[0]), Utf8(s[1..]), Utf8(t[1..]));
      }
    }
  }

  /** Zero bytes escaped, and a terminator that no text contains. */
  function Escaped(b: Bytes): Bytes {
    if b == [] then [0, 0] else if b[0] == 0 then [0, 255] + Escaped(b[1..]) else [b[0]] + Escaped(b[1..])
  }

  /** Appends the bytes of a text, each zero byte followed by an escape, then the terminator. */
  method EncodeBytes(bytes: Bytes, out: Bytes) returns (r: Bytes)
    ensures r == out + Escaped(bytes)
  {
    r := out;
    var i := 0;
    while i < |bytes|
      invariant 0 <= i <= |bytes| && r + Escaped(bytes[i..]) == out + Escaped(bytes)
    {
      assert bytes[i..][0] == bytes[i] && bytes[i..][1..] == bytes[i + 1..];
      r := r + [bytes[i]];
      if bytes[i] == 0 {
        r := r + [255];
      }
      i := i + 1;
    }
    r := r + [0, 0];
  }

  /** Texts that differ are encoded so that neither is a prefix of the other, and in their order. */
  lemma {:induction false} EscapedOrder(a: Bytes, b: Bytes)
    requires a != b
    ensures Part(Escaped(a), Escaped(b)) && (Less(Escaped(a), Escaped(b)) <==> Less(a, b))
  {
    var x, y := Escaped(a), Escaped(b);
    if a == [] || b == [] {
      EmptyFirst(if a == [] then b else a);
      PartSwap(x, y);
    } else if a[0] == b[0] {
      assert a == [a[0]] + a[1..] && b == [b[0]] + b[1..];
      EscapedOrder(a[1..], b[1..]);
      SamePrefix(if a[0] == 0 then [0, 255] else [a[0]], Escaped(a[1..]), Escaped(b[1..]));
      SamePrefix([a[0]], a[1..], b[1..]);
    } else {
      assert PartAt(x, y, 0);
      PartDecides(x, y, [], [], 0);
      assert x + [] == x && y + [] == y;
    }
  }

  lemma EscapedSame(a: Bytes, b: Bytes)
    ensures Escaped(a) == Escaped(b) <==> a == b
    ensures a != b ==> Part(Escaped(a), Escaped(b)) && (Less(Escaped(a), Escaped(b)) <==> Less(a, b))
  {
    if a != b {
      EscapedOrder(a, b);
      PartOrder(Escaped(a), Escaped(b), [], []);
      assert Escaped(a) + [] == Escaped(a) && Escaped(b) + [] == Escaped(b);
    }
  }

  lemma EmptyFirst(b: Bytes)
    requires b != []
    ensures Part(Escaped([]), Escaped(b)) && Less(Escaped([]), Escaped(b))
  {
    var x, y := Escaped([]), Escaped(b);
    var i := if b[0] == 0 then 1 else 0;
    assert PartAt(x, y, i);
    PartDecides(x, y, [], [], i);
    assert x + [] == x && y + [] == y;
  }

  lemma PartSwap(x: Bytes, y: Bytes)
    requires Part(x, y) || Part(y, x)
    ensures Part(x, y) && Part(y, x) && (Less(x, y) <==> !Less(y, x))
  {
    if Part(x, y) { PartOrder(x, y, [], []); } else { PartOrder(y, x, [], []); }
    LessTotal(x, y);
    if Less(x, y) && Less(y, x) {
      LessTransitive(x, y, x);
      LessIrreflexive(x);
    }
    assert x + [] == x && y + [] == y;
    LessIrreflexive(x);
  }

  lemma {:induction false} EscapedAppend(a: Bytes, b: Bytes)
    ensures |Escaped(a + b)| == |Escaped(a)| + |Escaped(b)| - 2
  {
    if a == [] {
      assert a + b == b;
    } else {
      assert (a + b)[0] == a[0] && (a + b)[1..] == a[1..] + b;
      EscapedAppend(a[1..], b);
    }
  }

  lemma {:induction false} EscapedPlain(b: Bytes)
    requires forall i :: 0 <= i < |b| ==> b[i] != 0
    ensures |Escaped(b)| == |b| + 2
  {
    if b != [] { EscapedPlain(b[1..]); }
  }

  /** A text of n characters takes at most 4n + 2 bytes. */
  lemma {:induction false} TextLength(s: seq<nat>)
    requires Scalars(s)
    ensures |Escaped(Utf8(s))| <= 4 * |s| + 2
  {
    if s != [] {
      TextLength(s[1..]);
      EscapedAppend(Utf8Char(s[0]), Utf8(s[1..]));
      if s[0] == 0 {
        assert [0 as byte][1..] == [];
      } else {
        EscapedPlain(Utf8Char(s[0]));
      }
    }
  }

  // ---------------------------------------------------------------- values

  datatype Type = BooleanType | IntType | BigIntType | FloatType | TimestampType | TextType

  /** A value; a float by its bits, a text by its characters. */
  datatype Value =
    | Boolean(b: bool)
    | Int(i: int)
    | BigInt(i: int)
    | FloatValue(bits: int)
    | Timestamp(i: int)
    | Text(chars: seq<nat>)

  predicate OfType(v: Value, t: Type) {
    match t
    case BooleanType => v.Boolean?
    case IntType => v.Int? && -TWO_31 <= v.i < TWO_31
    case BigIntType => v.BigInt? && -TWO_63 <= v.i < TWO_63
    case FloatType => v.FloatValue? && 0 <= v.bits < TWO_64
    case TimestampType => v.Timestamp? && -TWO_63 <= v.i < TWO_63
    case TextType => v.Text? && Scalars(v.chars)
  }

  /** The order of two values of a type, and when they count as one key. */
  predicate ValueLess(t: Type, v: Value, w: Value)
    requires OfType(v, t) && OfType(w, t)
  {
    match t
    case BooleanType => !v.b && w.b
    case FloatType => FloatLess(Meaning(v.bits), Meaning(w.bits))
    case TextType => CharsLess(v.chars, w.chars)
    case _ => v.i < w.i
  }

  predicate ValueSame(t: Type, v: Value, w: Value)
    requires OfType(v, t) && OfType(w, t)
  {
    match t
    case BooleanType => v.b == w.b
    case FloatType => Meaning(v.bits) == Meaning(w.bits)
    case TextType => v.chars == w.chars
    case _ => v.i == w.i
  }

  function Encode(v: Value, t: Type): Bytes
    requires OfType(v, t)
  {
    match t
    case BooleanType => [if v.b then 1 else 0]
    case IntType => FlippedOrder(v.i, TWO_31); BigEndian(4, Flipped(Bits(v.i, TWO_31), TWO_31))
    case FloatType => BigEndian(8, FloatBits(v.bits))
    case TextType => Escaped(Utf8(v.chars))
    case _ => FlippedOrder(v.i, TWO_63); BigEndian(8, Flipped(Bits(v.i, TWO_63), TWO_63))
  }

  /** `x` and `y` are one encoding exactly when the values are the same, and else they differ before
      either ends, in the order of the values. */
  ghost predicate Agree(x: Bytes, y: Bytes, same: bool, less: bool) {
    (x == y <==> same) && (!same ==> Part(x, y) && (Less(x, y) <==> less))
  }

  lemma BooleanAgree(a: bool, b: bool)
    ensures Agree([if a then 1 else 0], [if b then 1 else 0], a == b, !a && b)
  {
    LastByte([], if a then 1 else 0, if b then 1 else 0);
    if a != b { assert PartAt([if a then 1 else 0], [if b then 1 else 0], 0); }
  }

  lemma SignedAgree(n: nat, half: int, i: int, j: int)
    requires half > 0 && Pow256(n) == 2 * half && -half <= i < half && -half <= j < half
    ensures 0 <= Flipped(Bits(i, half), half) && 0 <= Flipped(Bits(j, half), half)
    ensures Agree(BigEndian(n, Flipped(Bits(i, half), half)), BigEndian(n, Flipped(Bits(j, half), half)), i == j, i < j)
  {
    FlippedOrder(i, half);
    FlippedOrder(j, half);
    BigEndianOrder(n, i + half, j + half);
  }

  lemma FloatAgree(a: int, b: int)
    requires 0 <= a < TWO_64 && 0 <= b < TWO_64
    ensures Agree(BigEndian(8, FloatBits(a)), BigEndian(8, FloatBits(b)), Meaning(a) == Meaning(b),
            FloatLess(Meaning(a), Meaning(b)))
  {
    Sizes();
    FloatOrder(a, b);
    BigEndianOrder(8, FloatBits(a), FloatBits(b));
  }

  lemma TextAgree(s: seq<nat>, t: seq<nat>)
    requires Scalars(s) && Scalars(t)
    ensures Agree(Escaped(Utf8(s)), Escaped(Utf8(t)), s == t, CharsLess(s, t))
  {
    Utf8Order(s, t);
    EscapedSame(Utf8(s), Utf8(t));
  }

  /** Encodings of one type compare as the values do, and none is a proper prefix of another. */
  lemma EncodeOrder(t: Type, v: Value, w: Value)
    requires OfType(v, t) && OfType(w, t)
    ensures Agree(Encode(v, t), Encode(w, t), ValueSame(t, v, w), ValueLess(t, v, w))
  {
    Sizes();
    match t
    case BooleanType => BooleanAgree(v.b, w.b);
    case IntType => SignedAgree(4, TWO_31, v.i, w.i);
    case FloatType => FloatAgree(v.bits, w.bits);
    case TextType => TextAgree(v.chars, w.chars);
    case _ => SignedAgree(8, TWO_63, v.i, w.i);
  }

  /** Appends the encoding of a value. */
  method EncodeValue(v: Value, t: Type, out: Bytes) returns (r: Bytes)
    requires OfType(v, t)
    ensures r == out + Encode(v, t)
  {
    match t
    case TextType => r := EncodeBytes(Utf8(v.chars), out);
    case _ => r := out + Encode(v, t);
  }

  /** The most bytes a value of a type takes in a key; `n` is how many characters a text may have. */
  function KeyWidth(t: Type, n: nat): nat {
    match t
    case BooleanType => 1
    case IntType => 4
    case TextType => 4 * n + 2
    case _ => 8
  }

  lemma KeyWidthHolds(v: Value, t: Type, n: nat)
    requires OfType(v, t) && (v.Text? ==> |v.chars| <= n)
    ensures |Encode(v, t)| <= KeyWidth(t, n)
  {
    if v.Text? { TextLength(v.chars); }
  }

  /** The longest text: every character takes four bytes and none is escaped. */
  lemma {:induction false} LongText(n: nat) returns (s: seq<nat>)
    ensures |s| == n && Scalars(s) && |Escaped(Utf8(s))| == 4 * n + 2
  {
    s := [];
    if n > 0 {
      var rest := LongText(n - 1);
      s := [0x1_0000] + rest;
      assert s[1..] == rest;
      EscapedAppend(Utf8Char(0x1_0000), Utf8(rest));
      EscapedPlain(Utf8Char(0x1_0000));
    }
  }

  /** No fewer bytes would do for any type. */
  lemma KeyWidthReached(t: Type, n: nat) returns (v: Value)
    ensures OfType(v, t) && (v.Text? ==> |v.chars| == n) && |Encode(v, t)| == KeyWidth(t, n)
  {
    match t
    case BooleanType => v := Boolean(true);
    case IntType => v := Int(0);
    case BigIntType => v := BigInt(0);
    case FloatType => v := FloatValue(0);
    case TimestampType => v := Timestamp(0);
    case TextType =>
      var s := LongText(n);
      v := Text(s);
  }

  // ---------------------------------------------------------------- keys of several columns

  predicate OfTypes(vs: seq<Value>, ts: seq<Type>) {
    |vs| == |ts| && forall i :: 0 <= i < |ts| ==> OfType(vs[i], ts[i])
  }

  function EncodeAll(vs: seq<Value>, ts: seq<Type>): Bytes
    requires OfTypes(vs, ts)
  {
    if ts == [] then [] else Encode(vs[0], ts[0]) + EncodeAll(vs[1..], ts[1..])
  }

  /** The longest key the columns can make, `ns[i]` being how many characters a text in column `i` may have. */
  function KeyWidths(ts: seq<Type>, ns: seq<nat>): nat
    requires |ns| == |ts|
  {
    if ts == [] then 0 else KeyWidth(ts[0], ns[0]) + KeyWidths(ts[1..], ns[1..])
  }

  /** So an index opened for keys of that length refuses none. */
  lemma {:induction false} KeysFit(vs: seq<Value>, ts: seq<Type>, ns: seq<nat>)
    requires OfTypes(vs, ts) && |ns| == |ts| && forall i :: 0 <= i < |vs| && vs[i].Text? ==> |vs[i].chars| <= ns[i]
    ensures |EncodeAll(vs, ts)| <= KeyWidths(ts, ns)
  {
    if ts != [] {
      KeyWidthHolds(vs[0], ts[0], ns[0]);
      KeysFit(vs[1..], ts[1..], ns[1..]);
    }
  }

  /** And none opened for shorter keys takes them all. */
  lemma {:induction false} WidthsReached(ts: seq<Type>, ns: seq<nat>) returns (vs: seq<Value>)
    requires |ns| == |ts|
    ensures OfTypes(vs, ts) && (forall i :: 0 <= i < |vs| && vs[i].Text? ==> |vs[i].chars| <= ns[i])
    ensures |EncodeAll(vs, ts)| == KeyWidths(ts, ns)
  {
    vs := [];
    if ts != [] {
      var v := KeyWidthReached(ts[0], ns[0]);
      var rest := WidthsReached(ts[1..], ns[1..]);
      vs := [v] + rest;
      assert vs[1..] == rest;
      assert forall i :: 0 < i < |vs| ==> vs[i] == rest[i - 1];
      assert forall i :: 0 < i < |ts| ==> ts[i] == ts[1..][i - 1] && ns[i] == ns[1..][i - 1];
    }
  }

  lemma {:induction false} EncodeAllAppend(vs: seq<Value>, ts: seq<Type>, v: Value, t: Type)
    requires OfTypes(vs, ts) && OfType(v, t)
    ensures EncodeAll(vs + [v], ts + [t]) == EncodeAll(vs, ts) + Encode(v, t)
  {
    if ts == [] {
      assert vs + [v] == [v] && ts + [t] == [t];
      assert EncodeAll([v][1..], [t][1..]) == [];
      assert Encode(v, t) + [] == Encode(v, t) && [] + Encode(v, t) == Encode(v, t);
    } else {
      assert (vs + [v])[1..] == vs[1..] + [v] && (ts + [t])[1..] == ts[1..] + [t];
      EncodeAllAppend(vs[1..], ts[1..], v, t);
    }
  }

  lemma EncodeNext(vs: seq<Value>, ts: seq<Type>, i: nat)
    requires OfTypes(vs, ts) && i < |vs|
    ensures EncodeAll(vs[..i + 1], ts[..i + 1]) == EncodeAll(vs[..i], ts[..i]) + Encode(vs[i], ts[i])
  {
    EncodeAllAppend(vs[..i], ts[..i], vs[i], ts[i]);
    assert vs[..i + 1] == vs[..i] + [vs[i]] && ts[..i + 1] == ts[..i] + [ts[i]];
  }

  /** The key of a list of values, built column by column. */
  method EncodeKey(vs: seq<Value>, ts: seq<Type>) returns (r: Bytes)
    requires OfTypes(vs, ts)
    ensures r == EncodeAll(vs, ts)
  {
    r := [];
    for i := 0 to |vs|
      invariant r == EncodeAll(vs[..i], ts[..i])
    {
      EncodeNext(vs, ts, i);
      r := EncodeValue(vs[i], ts[i], r);
    }
    assert vs[..|vs|] == vs && ts[..|ts|] == ts;
  }

  /** Column by column, the first that differs decides. */
  predicate TupleLess(ts: seq<Type>, vs: seq<Value>, ws: seq<Value>)
    requires OfTypes(vs, ts) && OfTypes(ws, ts)
  {
    ts != [] && (if ValueSame(ts[0], vs[0], ws[0]) then TupleLess(ts[1..], vs[1..], ws[1..])
        else ValueLess(ts[0], vs[0], ws[0]))
  }

  predicate TupleSame(ts: seq<Type>, vs: seq<Value>, ws: seq<Value>)
    requires OfTypes(vs, ts) && OfTypes(ws, ts)
  {
    forall i :: 0 <= i < |ts| ==> ValueSame(ts[i], vs[i], ws[i])
  }

  /** Keys of a column list compare as their tuples do, and none is a proper prefix of another. */
  lemma {:induction false} KeyOrder(ts: seq<Type>, vs: seq<Value>, ws: seq<Value>)
    requires OfTypes(vs, ts) && OfTypes(ws, ts)
    ensures EncodeAll(vs, ts) == EncodeAll(ws, ts) <==> TupleSame(ts, vs, ws)
    ensures !TupleSame(ts, vs, ws) ==> Part(EncodeAll(vs, ts), EncodeAll(ws, ts))
    ensures Less(EncodeAll(vs, ts), EncodeAll(ws, ts)) <==> TupleLess(ts, vs, ws)
  {
    if ts != [] {
      var a, b, x, y := Encode(vs[0], ts[0]), Encode(ws[0], ts[0]), EncodeAll(vs[1..], ts[1..]),
          EncodeAll(ws[1..], ts[1..]);
      EncodeOrder(ts[0], vs[0], ws[0]);
      if ValueSame(ts[0], vs[0], ws[0]) {
        KeyOrder(ts[1..], vs[1..], ws[1..]);
        SamePrefix(a, x, y);
        SameRest(ts, vs, ws);
        assert (a + x)[|a|..] == x && (a + y)[|a|..] == y;
      } else {
        PartOrder(a, b, x, y);
      }
    }
  }

  lemma SameRest(ts: seq<Type>, vs: seq<Value>, ws: seq<Value>)
    requires OfTypes(vs, ts) && OfTypes(ws, ts) && ts != [] && ValueSame(ts[0], vs[0], ws[0])
    ensures TupleSame(ts, vs, ws) <==> TupleSame(ts[1..], vs[1..], ws[1..])
  {
    if TupleSame(ts[1..], vs[1..], ws[1..]) {
      forall i | 0 <= i < |ts| ensures ValueSame(ts[i], vs[i], ws[i]) {
        if i > 0 { assert ValueSame(ts[1..][i - 1], vs[1..][i - 1], ws[1..][i - 1]); }
      }
    }
  }

  // ---------------------------------------------------------------- entries of an index

  const RID_MIN := RecordId(0, 0)
  const RID_MAX := RecordId(0xFFFF_FFFF, 0xFFFF_FFFF)

  predicate RidFits(rid: RecordId) { rid.pageId < TWO_32 && rid.slotId < TWO_32 }

  function Suffix(rid: RecordId): Bytes { BigEndian(4, rid.pageId) + BigEndian(4, rid.slotId) }

  function EntryKey(key: Bytes, rid: RecordId): Bytes { key + Suffix(rid) }

  predicate RidLess(a: RecordId, b: RecordId) { a.pageId < b.pageId || (a.pageId == b.pageId && a.slotId < b.slotId) }

  lemma SuffixOrder(a: RecordId, b: RecordId)
    requires RidFits(a) && RidFits(b)
    ensures Less(Suffix(a), Suffix(b)) <==> RidLess(a, b)
    ensures Suffix(a) == Suffix(b) <==> a == b
  {
    Sizes();
    BigEndianOrder(4, a.pageId, b.pageId);
    BigEndianOrder(4, a.slotId, b.slotId);
    var p, q, s, t := BigEndian(4, a.pageId), BigEndian(4, b.pageId), BigEndian(4, a.slotId), BigEndian(4, b.slotId);
    if a.pageId == b.pageId {
      SamePrefix(p, s, t);
      assert (p + s)[4..] == s && (q + t)[4..] == t;
    } else {
      PartOrder(p, q, s, t);
    }
  }

  /** Entries are in the order of their keys, and those of one key in the order of their record ids. */
  lemma EntryOrder(ts: seq<Type>, vs: seq<Value>, a: RecordId, ws: seq<Value>, b: RecordId)
    requires OfTypes(vs, ts) && OfTypes(ws, ts) && RidFits(a) && RidFits(b)
    ensures var x, y := EncodeAll(vs, ts), EncodeAll(ws, ts);
            Less(EntryKey(x, a), EntryKey(y, b)) <==> TupleLess(ts, vs, ws) || (TupleSame(ts, vs, ws) && RidLess(a, b))
  {
    KeyOrder(ts, vs, ws);
    SuffixOrder(a, b);
    var x, y := EncodeAll(vs, ts), EncodeAll(ws, ts);
    if TupleSame(ts, vs, ws) {
      SamePrefix(x, Suffix(a), Suffix(b));
      LessIrreflexive(x);
    } else {
      PartOrder(x, y, Suffix(a), Suffix(b));
    }
  }

  lemma TupleTotal(ts: seq<Type>, vs: seq<Value>, ws: seq<Value>)
    requires OfTypes(vs, ts) && OfTypes(ws, ts)
    ensures TupleLess(ts, vs, ws) || TupleLess(ts, ws, vs) || TupleSame(ts, vs, ws)
    ensures !(TupleLess(ts, vs, ws) && TupleLess(ts, ws, vs))
            && (TupleSame(ts, vs, ws) ==> !TupleLess(ts, vs, ws) && !TupleLess(ts, ws, vs))
  {
    var x, y := EncodeAll(vs, ts), EncodeAll(ws, ts);
    KeyOrder(ts, vs, ws);
    KeyOrder(ts, ws, vs);
    LessTotal(x, y);
    LessIrreflexive(x);
    if Less(x, y) && Less(y, x) { LessTransitive(x, y, x); }
  }

  /** What a scan's bounds on user keys become: from the smallest or past the largest entry of the
      key, and up to the largest or before the smallest. */
  lemma Brackets(ts: seq<Type>, vs: seq<Value>, ws: seq<Value>, rid: RecordId)
    requires OfTypes(vs, ts) && OfTypes(ws, ts) && RidFits(rid)
    ensures var k, e := EncodeAll(vs, ts), EntryKey(EncodeAll(ws, ts), rid);
            && (!Less(e, EntryKey(k, RID_MIN)) <==> !TupleLess(ts, ws, vs))
            && (Less(EntryKey(k, RID_MAX), e) <==> TupleLess(ts, vs, ws))
            && (!Less(EntryKey(k, RID_MAX), e) <==> !TupleLess(ts, vs, ws))
            && (Less(e, EntryKey(k, RID_MIN)) <==> TupleLess(ts, ws, vs))
  {
    EntryOrder(ts, ws, rid, vs, RID_MIN);
    EntryOrder(ts, vs, RID_MAX, ws, rid);
    TupleTotal(ts, vs, ws);
  }

  /** The entries between a key's smallest and its largest are exactly the entries of the key. */
  lemma BracketIsKey(ts: seq<Type>, vs: seq<Value>, ws: seq<Value>, rid: RecordId)
    requires OfTypes(vs, ts) && OfTypes(ws, ts) && RidFits(rid)
    ensures var k, e := EncodeAll(vs, ts), EntryKey(EncodeAll(ws, ts), rid);
            !Less(e, EntryKey(k, RID_MIN)) && !Less(EntryKey(k, RID_MAX), e) <==> EncodeAll(ws, ts) == k
  {
    Brackets(ts, vs, ws, rid);
    TupleTotal(ts, vs, ws);
    KeyOrder(ts, ws, vs);
    KeyOrder(ts, vs, ws);
  }
}
