/** The order of byte strings, as index pages compare keys. */
module ByteOrder {
  import opened Base
  import opened BPlusLayout

  /** Lexicographic order: a proper prefix comes first. */
  predicate Less(a: Bytes, b: Bytes)
    decreases |a|
  {
    b != [] && (a == [] || a[0] < b[0] || (a[0] == b[0] && Less(a[1..], b[1..])))
  }

  lemma {:induction false} LessIrreflexive(a: Bytes)
    ensures !Less(a, a)
  {
    if a != [] { LessIrreflexive(a[1..]); }
  }

  lemma {:induction false} LessTotal(a: Bytes, b: Bytes)
    ensures Less(a, b) || Less(b, a) || a == b
  {
    if a != [] && b != [] && a[0] == b[0] {
      assert a == [a[0]] + a[1..];
      assert b == [a[0]] + b[1..];
      LessTotal(a[1..], b[1..]);
    }
  }

  lemma {:induction false} LessTransitive(a: Bytes, b: Bytes, c: Bytes)
    requires Less(a, b) && Less(b, c)
    ensures Less(a, c)
    decreases |a|
  {
    if a != [] && a[0] == b[0] && b[0] == c[0] { LessTransitive(a[1..], b[1..], c[1..]); }
  }

  lemma LessIsTotalOrder()
    ensures TotalOrder(Less)
  {
    forall a ensures !Less(a, a) { LessIrreflexive(a); }
    forall a, b ensures Less(a, b) || Less(b, a) || a == b { LessTotal(a, b); }
    forall a, b, c | Less(a, b) && Less(b, c) ensures Less(a, c) { LessTransitive(a, b, c); }
  }

  /** Two strings that differ before either ends. */
  ghost predicate Part(x: Bytes, y: Bytes) { exists i :: PartAt(x, y, i) }

  predicate PartAt(x: Bytes, y: Bytes, i: int) { 0 <= i < |x| && i < |y| && x[..i] == y[..i] && x[i] != y[i] }

  /** Then whatever follows them does not matter. */
  lemma {:induction false} PartDecides(x: Bytes, y: Bytes, s: Bytes, t: Bytes, i: nat)
    requires PartAt(x, y, i)
    ensures Less(x + s, y + t) <==> x[i] < y[i]
  {
    assert (x + s)[0] == x[0] && (y + t)[0] == y[0];
    if i > 0 {
      assert x[0] == x[..i][0] && y[0] == y[..i][0];
      assert (x + s)[1..] == x[1..] + s && (y + t)[1..] == y[1..] + t;
      assert x[1..][..i - 1] == x[..i][1..] && y[1..][..i - 1] == y[..i][1..];
      PartDecides(x[1..], y[1..], s, t, i - 1);
    }
  }

  lemma PartOrder(x: Bytes, y: Bytes, s: Bytes, t: Bytes)
    requires Part(x, y)
    ensures Less(x + s, y + t) <==> Less(x, y)
    ensures x + s != y + t && Part(x + s, y + t) && Part(y, x)
  {
    var i :| PartAt(x, y, i);
    PartDecides(x, y, s, t, i);
    PartDecides(x, y, [], [], i);
    assert x + [] == x && y + [] == y;
    assert PartAt(y, x, i);
    assert (x + s)[..i] == x[..i] && (y + t)[..i] == y[..i];
    assert PartAt(x + s, y + t, i);
  }

  lemma {:induction false} SamePrefix(x: Bytes, s: Bytes, t: Bytes)
    ensures Less(x + s, x + t) <==> Less(s, t)
    ensures Part(s, t) ==> Part(x + s, x + t)
  {
    if Part(s, t) {
      var i :| PartAt(s, t, i);
      assert (x + s)[..|x| + i] == x + s[..i] && (x + t)[..|x| + i] == x + t[..i];
      assert PartAt(x + s, x + t, |x| + i);
    }
    if x == [] {
      assert x + s == s && x + t == t;
    } else {
      assert (x + s)[0] == x[0] == (x + t)[0] && (x + s)[1..] == x[1..] + s && (x + t)[1..] == x[1..] + t;
      SamePrefix(x[1..], s, t);
    }
  }

  /** Strings of one length that are not the same part ways. */
  lemma {:induction false} SameLength(x: Bytes, y: Bytes)
    requires |x| == |y| && x != y
    ensures Part(x, y)
  {
    if x[0] != y[0] {
      assert PartAt(x, y, 0);
    } else {
      assert x == [x[0]] + x[1..] && y == [x[0]] + y[1..];
      SameLength(x[1..], y[1..]);
      SamePrefix([x[0]], x[1..], y[1..]);
    }
  }

  // ---------------------------------------------------------------- big-endian numbers

  /** The `n` low bytes of `v`, the highest first. */
  function BigEndian(n: nat, v: nat): (b: Bytes)
    ensures |b| == n
  {
    if n == 0 then [] else BigEndian(n - 1, v / 256) + [(v % 256) as byte]
  }

  /** Big-endian bytes are in the order of the numbers. */
  lemma {:induction false} BigEndianOrder(n: nat, v: nat, w: nat)
    requires v < Pow256(n) && w < Pow256(n)
    ensures Less(BigEndian(n, v), BigEndian(n, w)) <==> v < w
    ensures BigEndian(n, v) == BigEndian(n, w) <==> v == w
    ensures v != w ==> Part(BigEndian(n, v), BigEndian(n, w))
  {
    if n > 0 {
      var a, b, x, y := BigEndian(n - 1, v / 256), BigEndian(n - 1, w / 256), (v % 256) as byte, (w % 256) as byte;
      BigEndianOrder(n - 1, v / 256, w / 256);
      if v / 256 == w / 256 {
        SamePrefix(a, [x], [y]);
        if x != y { assert PartAt([x], [y], 0); }
        LastByte(a, x, y);
      } else {
        PartOrder(a, b, [x], [y]);
      }
    }
  }

  lemma LastByte(a: Bytes, x: byte, y: byte)
    ensures Less([x], [y]) <==> x < y
    ensures a + [x] == a + [y] <==> x == y
  {
    assert [x][1..] == [] && [y][1..] == [];
    assert (a + [x])[|a|] == x && (a + [y])[|a|] == y;
  }
}
