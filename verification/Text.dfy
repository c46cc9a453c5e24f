/** Decimal numerals and the byte-wise order of text, as fmt.Sprintf and the C collation have them. */
module Text {

  predicate IsDigit(c: char) { '0' <= c <= '9' }

  predicate AllDigits(s: string) { forall c | c in s :: IsDigit(c) }

  function DigitChar(d: int): (c: char)
    requires 0 <= d < 10
    ensures IsDigit(c) && DigitValue(c) == d
  {
    ('0' as int + d) as char
  }

  function DigitValue(c: char): (d: int)
    requires IsDigit(c)
    ensures 0 <= d < 10
  {
    c as int - '0' as int
  }

  /** The number that a string of digits stands for; leading zeros are allowed. */
  function Value(s: string): nat
    requires AllDigits(s)
  {
    if s == "" then 0 else 10 * Value(s[..|s| - 1]) + DigitValue(s[|s| - 1])
  }

  /** %d of a number that is not negative. */
  function Digits(n: nat): (s: string)
    ensures s != "" && AllDigits(s) && Value(s) == n
  {
    if n < 10 then
      var s := [DigitChar(n)];
      assert s[..0] == "";
      s
    else
      var front := Digits(n / 10);
      var s := front + [DigitChar(n % 10)];
      assert s[..|s| - 1] == front;
      s
  }

  function Zeros(n: nat): (s: string)
    ensures |s| == n && AllDigits(s)
  {
    if n == 0 then "" else "0" + Zeros(n - 1)
  }

  /** %0wd: zeros in front until the width is reached. */
  function Pad(n: nat, width: nat): (s: string)
    ensures AllDigits(s) && Value(s) == n && |s| >= width
    ensures |Digits(n)| <= width ==> |s| == width
  {
    var s := Digits(n);
    if |s| >= width then s else
    ValueOfZeros(width - |s|, s);
    Zeros(width - |s|) + s
  }

  lemma {:induction false} ValueOfZeros(n: nat, s: string)
    requires AllDigits(s)
    ensures Value(Zeros(n) + s) == Value(s)
  {
    if s != "" {
      var all := Zeros(n) + s;
      assert all[..|all| - 1] == Zeros(n) + s[..|s| - 1];
      ValueOfZeros(n, s[..|s| - 1]);
    } else if n > 0 {
      ZerosAreZero(n);
      assert Zeros(n) + s == Zeros(n);
    }
  }

  lemma {:induction false} ZerosAreZero(n: nat)
    ensures Value(Zeros(n)) == 0
  {
    if n > 0 {
      ZerosAreZero(n - 1);
      ZerosEnd(n);
    }
  }

  lemma {:induction false} ZerosEnd(n: nat)
    requires n > 0
    ensures Zeros(n)[..n - 1] == Zeros(n - 1) && Zeros(n)[n - 1] == '0'
  {
    if n > 1 {
      ZerosEnd(n - 1);
      assert Zeros(n)[..n - 1] == "0" + Zeros(n - 1)[..n - 2];
    }
  }

  /** A number needs no more than w digits exactly when it is below ten to the power w. */
  function Pow10(w: nat): (p: nat)
    ensures p >= 1
  {
    if w == 0 then 1 else 10 * Pow10(w - 1)
  }

  lemma {:induction false} FitsWidth(n: nat, width: nat)
    requires width >= 1
    ensures |Digits(n)| <= width <==> n < Pow10(width)
  {
    if width == 1 {
      assert Pow10(1) == 10;
    } else if n >= 10 {
      FitsWidth(n / 10, width - 1);
    } else {
      assert Pow10(width) >= 10 * Pow10(width - 1);
    }
  }

  lemma {:induction false} ValueBelow(s: string)
    requires AllDigits(s)
    ensures Value(s) < Pow10(|s|)
  {
    if s != "" {
      ValueBelow(s[..|s| - 1]);
    }
  }

  // Order.

  predicate LexLess(a: string, b: string) {
    b != "" && (a == "" || a[0] < b[0] || (a[0] == b[0] && LexLess(a[1..], b[1..])))
  }

  lemma {:induction false} LexIrreflexive(a: string)
    ensures !LexLess(a, a)
  {
    if a != "" {
      LexIrreflexive(a[1..]);
    }
  }

  lemma {:induction false} LexTransitive(a: string, b: string, c: string)
    requires LexLess(a, b) && LexLess(b, c)
    ensures LexLess(a, c)
  {
    if a != "" && a[0] == b[0] == c[0] {
      LexTransitive(a[1..], b[1..], c[1..]);
    }
  }

  lemma {:induction false} LexTotal(a: string, b: string)
    ensures a == b || LexLess(a, b) || LexLess(b, a)
  {
    if a != "" && b != "" && a[0] == b[0] {
      LexTotal(a[1..], b[1..]);
      assert a == [a[0]] + a[1..] && b == [b[0]] + b[1..];
    }
  }

  lemma {:induction false} LexSamePrefix(p: string, a: string, b: string)
    ensures LexLess(p + a, p + b) <==> LexLess(a, b)
  {
    if p == "" {
      assert p + a == a && p + b == b;
    } else {
      assert (p + a)[1..] == p[1..] + a && (p + b)[1..] == p[1..] + b;
      LexSamePrefix(p[1..], a, b);
    }
  }

  /** Two texts that differ within the same number of leading characters are ordered by these. */
  lemma {:induction false} LexByFront(p: string, q: string, a: string, b: string)
    requires |p| == |q| && p != q
    ensures LexLess(p + a, q + b) <==> LexLess(p, q)
  {
    if p[0] == q[0] {
      assert p == [p[0]] + p[1..] && q == [q[0]] + q[1..];
      assert (p + a)[1..] == p[1..] + a && (q + b)[1..] == q[1..] + b;
      LexByFront(p[1..], q[1..], a, b);
    }
  }

  /** Numerals of one length are in the order of their numbers. */
  lemma {:induction false} SameLengthOrder(a: string, b: string)
    requires AllDigits(a) && AllDigits(b) && |a| == |b|
    ensures LexLess(a, b) <==> Value(a) < Value(b)
    ensures a == b <==> Value(a) == Value(b)
  {
    if a != "" {
      var k := |a| - 1;
      SameLengthOrder(a[..k], b[..k]);
      assert a == a[..k] + [a[k]] && b == b[..k] + [b[k]];
      if a[..k] == b[..k] {
        LexSamePrefix(a[..k], [a[k]], [b[k]]);
      } else {
        LexByFront(a[..k], b[..k], [a[k]], [b[k]]);
      }
    }
  }

  /** A text of digits is its number padded to its length: Pad(n, w) is the only numeral of w digits for n. */
  lemma PadIs(s: string)
    requires AllDigits(s) && s != ""
    ensures Pad(Value(s), |s|) == s
  {
    ValueBelow(s);
    FitsWidth(Value(s), |s|);
    SameLengthOrder(Pad(Value(s), |s|), s);
  }

  lemma ValueSnoc(s: string, c: char)
    requires AllDigits(s) && IsDigit(c)
    ensures AllDigits(s + [c]) && Value(s + [c]) == 10 * Value(s) + DigitValue(c)
  {
    assert (s + [c])[..|s|] == s;
  }

  lemma ValueOfNothing()
    ensures Value("") == 0
  {
  }

  /** Two digits, as they are written and read. */
  lemma PadTwo(a: char, b: char)
    requires IsDigit(a) && IsDigit(b)
    ensures Pad(10 * DigitValue(a) + DigitValue(b), 2) == [a, b]
  {
    hide Pad, Value;
    ValueSnoc("", a);
    ValueSnoc([a], b);
    ValueOfNothing();
    assert [] + [a] == [a] && [a] + [b] == [a, b];
    PadIs([a, b]);
  }

  /** And four. */
  lemma PadFour(a: char, b: char, c: char, d: char)
    requires IsDigit(a) && IsDigit(b) && IsDigit(c) && IsDigit(d)
    ensures Pad(1000 * DigitValue(a) + 100 * DigitValue(b) + 10 * DigitValue(c) + DigitValue(d), 4) == [a, b, c, d]
  {
    hide Pad, Value;
    ValueSnoc("", a);
    ValueSnoc([a], b);
    ValueSnoc([a, b], c);
    ValueSnoc([a, b, c], d);
    ValueOfNothing();
    assert [] + [a] == [a] && [a] + [b] == [a, b] && [a, b] + [c] == [a, b, c] && [a, b, c] + [d] == [a, b, c, d];
    PadIs([a, b, c, d]);
  }

  // Texts joined by a mark.

  lemma SameTail(a: string, b: string, c: string, d: string)
    requires a + b == c + d && |b| == |d|
    ensures a == c && b == d
  {
    assert a == (a + b)[..|a|] && b == (a + b)[|a|..] && c == (c + d)[..|c|] && d == (c + d)[|c|..];
  }

  lemma LongerHead(mark: char, a: string, x: string, b: string, y: string)
    requires mark !in b && |a| < |b|
    ensures a + [mark] + x != b + [mark] + y
  {
    assert (a + [mark] + x)[|a|] == mark;
    assert (b + [mark] + y)[|a|] in b;
  }

  /** The text before the first mark is determined by the whole. */
  lemma FirstMark(mark: char, a: string, x: string, b: string, y: string)
    requires mark !in a && mark !in b && a + [mark] + x == b + [mark] + y
    ensures a == b && x == y
  {
    if |a| < |b| {
      LongerHead(mark, a, x, b, y);
    } else if |b| < |a| {
      LongerHead(mark, b, y, a, x);
    }
    assert |x| == |y|;
    SameTail(a + [mark], x, b + [mark], y);
    SameTail(a, [mark], b, [mark]);
  }

  lemma LongerTail(mark: char, a: string, x: string, b: string, y: string)
    requires mark !in y && |x| < |y| && |a + [mark] + x| == |b + [mark] + y|
    ensures a + [mark] + x != b + [mark] + y
  {
    assert (a + [mark] + x)[|a|] == mark;
    assert (b + [mark] + y)[|a|] in y;
  }

  /** And so is the text behind the last mark. */
  lemma LastMark(mark: char, a: string, x: string, b: string, y: string)
    requires mark !in x && mark !in y && a + [mark] + x == b + [mark] + y
    ensures a == b && x == y
  {
    if |x| < |y| {
      LongerTail(mark, a, x, b, y);
    } else if |y| < |x| {
      LongerTail(mark, b, y, a, x);
    }
    SameTail(a + [mark], x, b + [mark], y);
    SameTail(a, [mark], b, [mark]);
  }
}
