/** The bit-wise `&` of the source on unsigned words, and what masking with a power of two less one computes. */
module BitMask {
  function And(x: nat, y: nat): nat
    decreases x
  {
    if x == 0 || y == 0 then 0 else 2 * And(x / 2, y / 2) + (if x % 2 == 1 && y % 2 == 1 then 1 else 0)
  }

  predicate Power(n: nat)
    decreases n
  {
    n == 1 || (n > 1 && n % 2 == 0 && Power(n / 2))
  }

  lemma DoubleMod(x: nat, n: nat)
    requires n > 0
    ensures x % (2 * n) == 2 * ((x / 2) % n) + x % 2
  {
    var h := x / 2;
    assert x == 2 * h + x % 2;
    assert h == n * (h / n) + h % n;
    assert x == (2 * n) * (h / n) + (2 * (h % n) + x % 2);
    ModUnique(x, 2 * n, h / n, 2 * (h % n) + x % 2);
  }

  lemma MulMonotone(m: nat, a: nat, b: nat)
    requires a <= b
    ensures m * a <= m * b
  {
  }

  lemma ModUnique(x: nat, m: nat, q: nat, r: nat)
    requires m > 0 && r < m && x == m * q + r
    ensures x % m == r
  {
    var q' := x / m;
    if q' < q { MulMonotone(m, q' + 1, q); }
    if q < q' { MulMonotone(m, q + 1, q'); }
    assert q' == q;
  }

  lemma PowerHalf(size: nat)
    requires Power(size) && size > 1
    ensures size / 2 >= 1 && Power(size / 2) && size == 2 * (size / 2)
    ensures (size - 1) / 2 == size / 2 - 1 && (size - 1) % 2 == 1
  {
  }

  function TwoTo(k: nat): (n: nat)
    ensures n > 0
  {
    if k == 0 then 1 else 2 * TwoTo(k - 1)
  }

  lemma TwoToWord()
    ensures TwoTo(31) == 0x8000_0000 && TwoTo(32) == 0x1_0000_0000
  {
    assert TwoTo(4) == 0x10;
    assert TwoTo(8) == 0x100;
    assert TwoTo(12) == 0x1000;
    assert TwoTo(16) == 0x1_0000;
    assert TwoTo(20) == 0x10_0000;
    assert TwoTo(24) == 0x100_0000;
    assert TwoTo(28) == 0x1000_0000;
  }

  // Of two powers of two the larger one is a multiple of twice the smaller one.
  lemma {:induction false} PowerAbove(n: nat, k: nat)
    requires Power(n) && n >= TwoTo(k)
    ensures n == TwoTo(k) || n % TwoTo(k + 1) == 0
    decreases k
  {
    if k > 0 {
      PowerHalf(n);
      PowerAbove(n / 2, k - 1);
      DoubleMod(n, TwoTo(k));
    }
  }

  lemma AndUnfold(x: nat, y: nat)
    requires x > 0 && y % 2 == 1
    ensures And(x, y) == 2 * And(x / 2, y / 2) + x % 2
  {
  }

  lemma AndZero(x: nat, y: nat)
    requires x == 0 || y == 0
    ensures And(x, y) == 0
  {
  }

  lemma PowerPositive(size: nat)
    requires Power(size)
    ensures size >= 1
  {
  }

  lemma ModHalf(x: nat, size: nat, h: nat, r: nat)
    requires h > 0 && size == 2 * h && r == (x / 2) % h
    ensures x % size == 2 * r + x % 2
  {
    DoubleMod(x, h);
  }

  // Masking with size - 1 is the remainder modulo size, for a power of two.
  lemma {:induction false} MaskIsMod(x: nat, size: nat)
    requires Power(size)
    ensures size > 0 && And(x, size - 1) == x % size
    decreases x
  {
    hide And, Power;
    PowerPositive(size);
    if size == 1 || x == 0 {
      AndZero(x, size - 1);
    } else {
      PowerHalf(size);
      var h := size / 2;
      MaskIsMod(x / 2, h);
      AndUnfold(x, size - 1);
      ModHalf(x, size, h, And(x / 2, h - 1));
    }
  }

  // The next slot of a circular scan.
  lemma MaskNext(i: nat, size: nat)
    requires Power(size) && i < size
    ensures And(i + 1, size - 1) == if i + 1 < size then i + 1 else 0
  {
    hide And, Power;
    MaskIsMod(i + 1, size);
  }
}
