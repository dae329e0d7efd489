/**
 * Bytes and the orders a byte-oriented key-value store can sort keys by.
 * LexLe is the store's order: unsigned, byte by byte, a proper prefix first.
 * SignedLexLe compares each byte as a Java `byte` (-128..127); it is the
 * order that breaks range scans, kept here only to state that it does.
 */
module ByteOrder {

  type byte = b: int | 0 <= b < 256

  type Bytes = seq<byte>

  /** Unsigned byte-lexicographic "less than or equal". */
  predicate LexLe(a: Bytes, b: Bytes)
  {
    |a| == 0 || (|b| > 0 && (a[0] < b[0] || (a[0] == b[0] && LexLe(a[1..], b[1..]))))
  }

  predicate LexLt(a: Bytes, b: Bytes)
  {
    LexLe(a, b) && a != b
  }

  /** The value a Java `byte` holding the bits of b stands for. */
  function Signed(b: byte): int
  {
    if b < 128 then b else b - 256
  }

  /** Byte-lexicographic order comparing bytes as signed Java bytes. */
  predicate SignedLexLe(a: Bytes, b: Bytes)
  {
    |a| == 0 || (|b| > 0 && (Signed(a[0]) < Signed(b[0]) || (a[0] == b[0] && SignedLexLe(a[1..], b[1..]))))
  }

  lemma {:induction false} LexLeReflexive(a: Bytes)
    ensures LexLe(a, a)
  {
    if |a| > 0 {
      LexLeReflexive(a[1..]);
    }
  }

  lemma {:induction false} LexLeAntisymmetric(a: Bytes, b: Bytes)
    requires LexLe(a, b) && LexLe(b, a)
    ensures a == b
  {
    if |a| > 0 {
      LexLeAntisymmetric(a[1..], b[1..]);
      assert a == [a[0]] + a[1..];
      assert b == [b[0]] + b[1..];
    }
  }

  lemma {:induction false} LexLeTransitive(a: Bytes, b: Bytes, c: Bytes)
    requires LexLe(a, b) && LexLe(b, c)
    ensures LexLe(a, c)
  {
    if |a| > 0 && a[0] == b[0] && b[0] == c[0] {
      LexLeTransitive(a[1..], b[1..], c[1..]);
    }
  }

  lemma {:induction false} LexLeTotal(a: Bytes, b: Bytes)
    ensures LexLe(a, b) || LexLe(b, a)
  {
    if |a| > 0 && |b| > 0 && a[0] == b[0] {
      LexLeTotal(a[1..], b[1..]);
    }
  }

  /** The negation of LexLe is the strict order the other way round. */
  lemma LexNotLe(a: Bytes, b: Bytes)
    requires !LexLe(a, b)
    ensures LexLt(b, a)
  {
    LexLeTotal(a, b);
    if b == a {
      LexLeReflexive(a);
    }
  }

  /**
   * Comparing two equally long keys extended by one byte each: the prefixes
   * decide unless they are equal, and then the last bytes decide.
   */
  lemma {:induction false} LexLeSnoc(a: Bytes, b: Bytes, x: byte, y: byte)
    requires |a| == |b|
    ensures LexLe(a + [x], b + [y]) <==> LexLt(a, b) || (a == b && x <= y)
  {
    if |a| > 0 {
      assert (a + [x])[1..] == a[1..] + [x];
      assert (b + [y])[1..] == b[1..] + [y];
      LexLeSnoc(a[1..], b[1..], x, y);
      assert a == [a[0]] + a[1..];
      assert b == [b[0]] + b[1..];
    }
  }
}
