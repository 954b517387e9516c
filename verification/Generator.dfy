/** The generator of mapping indices in exact arithmetic: a multiplicative generator modulo 2^64, and the jump to the
    next index (riblt/random.go). */
module Generator {
  import opened Words
  import opened Symbols
  import opened Mappings

  const MULTIPLIER: Word := 0xda942042e4dd58b5
  const INVERSE: Word := 0x8b838d0354ead59d

  function Step(s: Word): Word {
    s * MULTIPLIER % WORD_SIZE
  }

  function StepBack(s: Word): Word {
    s * INVERSE % WORD_SIZE
  }

  function Steps(s: Word, n: nat): Word {
    if n == 0 then s else Step(Steps(s, n - 1))
  }

  lemma ModSum(k: int, z: int)
    ensures (k * WORD_SIZE + z) % WORD_SIZE == z % WORD_SIZE
  {
  }

  lemma ModTimes(x: nat, y: nat)
    ensures x % WORD_SIZE * y % WORD_SIZE == x * y % WORD_SIZE
  {
    var q, r := x / WORD_SIZE, x % WORD_SIZE;
    assert x * y == (q * WORD_SIZE + r) * y == (q * y) * WORD_SIZE + r * y;
    ModSum(q * y, r * y);
  }

  /** Multiplying by the constant is a bijection on words. */
  lemma StepIsBijection(s: Word)
    ensures StepBack(Step(s)) == s && Step(StepBack(s)) == s
  {
    var k := MULTIPLIER * INVERSE / WORD_SIZE;
    ModTimes(s * MULTIPLIER, INVERSE);
    ModTimes(s * INVERSE, MULTIPLIER);
    assert s * MULTIPLIER * INVERSE == (s * k) * WORD_SIZE + s;
    assert s * INVERSE * MULTIPLIER == (s * k) * WORD_SIZE + s;
    ModSum(s * k, s);
  }

  /** Different states never merge. */
  lemma {:induction false} NeverMerge(s: Word, t: Word, n: nat)
    requires Steps(s, n) == Steps(t, n)
    ensures s == t
  {
    if n > 0 {
      StepIsBijection(Steps(s, n - 1));
      StepIsBijection(Steps(t, n - 1));
      NeverMerge(s, t, n - 1);
    }
  }

  /** How many times two divides n. */
  function Twos(n: nat): nat
    requires n > 0
  {
    if n % 2 == 1 then 0 else 1 + Twos(n / 2)
  }

  lemma {:induction false} TwosOf(e: nat, w: nat)
    requires w % 2 == 1
    ensures Pow2(e) * w > 0 && Twos(Pow2(e) * w) == e
  {
    if e == 0 {
      assert Pow2(0) * w == w;
    } else {
      TwosOf(e - 1, w);
      TwiceProduct(Pow2(e - 1), w);
      TwiceTwos(Pow2(e - 1) * w);
    }
  }

  lemma TwiceProduct(p: nat, w: nat)
    ensures 2 * p * w == 2 * (p * w)
  {
  }

  lemma TwiceTwos(h: nat)
    requires h > 0
    ensures Twos(2 * h) == 1 + Twos(h)
  {
    assert 2 * h / 2 == h;
  }

  lemma {:induction false} OddPart(n: nat) returns (w: nat)
    requires n > 0
    ensures w % 2 == 1 && n == Pow2(Twos(n)) * w
  {
    if n % 2 == 1 {
      w := n;
    } else {
      w := OddPart(n / 2);
      assert n == 2 * (Pow2(Twos(n / 2)) * w);
    }
  }

  lemma {:induction false} SmallerPow2(a: nat, b: nat)
    requires a <= b
    ensures Pow2(a) <= Pow2(b)
  {
    if a < b {
      SmallerPow2(a, b - 1);
    }
  }

  /** The number of bits of a word. */
  lemma Bits() returns (b: nat)
    ensures b == 64 && Pow2(b) == WORD_SIZE
  {
    WordRange();
    b := 64;
  }

  /** A word is not divisible by 2^64 unless it is zero. */
  lemma WordTwos(s: Word, b: nat)
    requires s > 0 && Pow2(b) == WORD_SIZE
    ensures Twos(s) < b
  {
    var w := OddPart(s);
    AtLeast(w, Pow2(Twos(s)));
    if Twos(s) >= b {
      SmallerPow2(b, Twos(s));
    }
  }

  lemma AtLeast(k: int, d: nat)
    ensures k >= 1 ==> k * d >= d
    ensures k <= -1 ==> k * d <= 0 - d
  {
    if k >= 1 {
      assert (k - 1) * d >= 0;
    } else if k <= -1 {
      assert (-k - 1) * d >= 0;
    }
  }

  lemma OddTimes(a: nat, b: nat)
    requires a % 2 == 1 && b % 2 == 1
    ensures a * b % 2 == 1
  {
    assert a * b == 2 * (a / 2 * b) + b;
  }

  /** Taking an even number of words off an odd multiple leaves an odd multiple. */
  lemma OddRest(p: nat, v: nat, m: nat, q: nat, g: nat) returns (w: int)
    requires v % 2 == 1 && m % 2 == 1
    ensures w % 2 == 1 && p * v * m - q * (p * (2 * g)) == p * w
  {
    OddTimes(v, m);
    w := v * m - 2 * (q * g);
    assert p * v * m == p * (v * m) && q * (p * (2 * g)) == p * (2 * (q * g));
  }

  lemma PositiveFactor(p: nat, w: int)
    requires p * w >= 0 && p > 0 && w % 2 == 1
    ensures w > 0
  {
    AtLeast(w, p);
  }

  /** A nonzero state keeps its trailing zero bits, and in particular never becomes zero. */
  lemma StepKeepsTwos(s: Word)
    requires s > 0
    ensures Step(s) > 0 && Twos(Step(s)) == Twos(s)
  {
    var b := Bits();
    WordTwos(s, b);
    var a := Twos(s);
    var v := OddPart(s);
    Pow2Sum(a, b - a);
    var w := OddRest(Pow2(a), v, MULTIPLIER, s * MULTIPLIER / WORD_SIZE, Pow2(b - a - 1));
    assert Step(s) == s * MULTIPLIER - s * MULTIPLIER / WORD_SIZE * WORD_SIZE;
    PositiveFactor(Pow2(a), w);
    TwosOf(a, w);
  }

  lemma {:induction false} StepsKeepTwos(s: Word, n: nat)
    requires s > 0
    ensures Steps(s, n) > 0 && Twos(Steps(s, n)) == Twos(s)
  {
    if n > 0 {
      StepsKeepTwos(s, n - 1);
      StepKeepsTwos(Steps(s, n - 1));
    }
  }

  function Power(n: nat): nat {
    if n == 0 then 1 else MULTIPLIER * Power(n - 1)
  }

  lemma {:induction false} PowerSum(a: nat, b: nat)
    ensures Power(a + b) == Power(a) * Power(b)
  {
    if b > 0 {
      PowerSum(a, b - 1);
      assert Power(a + b) == MULTIPLIER * Power(a + (b - 1));
    }
  }

  lemma {:induction false} StepsPower(s: Word, n: nat)
    ensures Steps(s, n) == s * Power(n) % WORD_SIZE
  {
    if n > 0 {
      StepsPower(s, n - 1);
      ModTimes(s * Power(n - 1), MULTIPLIER);
      assert s * Power(n - 1) * MULTIPLIER == s * Power(n);
    }
  }

  /** One less than the n-th power of the multiplier has exactly two more factors two than n. */
  lemma {:induction false} PowerForm(n: nat) returns (u: nat)
    requires n > 0
    ensures u % 2 == 1 && Power(n) == 1 + Pow2(Twos(n) + 2) * u
  {
    hide Power, Pow2, Twos;
    if n == 1 {
      u := MULTIPLIER / 4;
      FirstPower();
    } else if n % 2 == 1 {
      var x := PowerForm(n - 1);
      EvenTwos(n - 1);
      u := OddForm(Power(n - 1), Twos(n - 1), x);
      OddPowerIs(n);
    } else {
      var x := PowerForm(n / 2);
      PowerSum(n / 2, n / 2);
      EvenTwos(n);
      u := EvenForm(Power(n / 2), Twos(n / 2), x);
    }
  }

  lemma FirstPower()
    ensures Power(1) == MULTIPLIER && Pow2(Twos(1) + 2) == 4
  {
    assert Power(1) == MULTIPLIER * Power(0);
  }

  lemma OddPowerIs(n: nat)
    requires n % 2 == 1
    ensures Power(n) == MULTIPLIER * Power(n - 1) && Pow2(Twos(n) + 2) == 4
  {
    assert Pow2(2) == 4;
  }

  lemma EvenTwos(n: nat)
    requires n > 0 && n % 2 == 0
    ensures Twos(n) == Twos(n / 2) + 1
  {
  }

  lemma OddForm(p: nat, t: nat, x: nat) returns (u: nat)
    requires t > 0 && p == 1 + Pow2(t + 2) * x
    ensures u % 2 == 1 && MULTIPLIER * p == 1 + 4 * u
  {
    Pow2Eight(t - 1);
    u := OddPower(Pow2(t - 1), x);
  }

  lemma EvenForm(p: nat, t: nat, x: nat) returns (u: nat)
    requires x % 2 == 1 && p == 1 + Pow2(t + 2) * x
    ensures u % 2 == 1 && p * p == 1 + Pow2(t + 3) * u
  {
    u := SquaredPower(Pow2(t), x);
    Pow2Eight(t);
    assert Pow2(t + 2) == 4 * Pow2(t);
  }

  lemma OddPower(p: nat, x: nat) returns (u: nat)
    ensures u % 2 == 1 && MULTIPLIER * (1 + 8 * p * x) == 1 + 4 * u
  {
    u := MULTIPLIER / 4 + 2 * (MULTIPLIER * (p * x));
    assert MULTIPLIER * (8 * p * x) == 8 * (MULTIPLIER * (p * x));
  }

  lemma SquaredPower(p: nat, x: nat) returns (u: nat)
    requires x % 2 == 1
    ensures u % 2 == 1 && (1 + 4 * p * x) * (1 + 4 * p * x) == 1 + 8 * p * u
  {
    var y := p * (x * x);
    u := x + 2 * y;
    Scaled(4, p, x);
    Scaled(8, p, u);
    Square(p * x);
    SquareOfProduct(p, x);
    Distributes(p, x, y);
  }

  lemma Scaled(c: nat, p: nat, x: nat)
    ensures c * p * x == c * (p * x)
  {
  }

  lemma Distributes(p: nat, x: nat, y: nat)
    ensures p * (x + 2 * y) == p * x + 2 * (p * y)
  {
  }

  lemma SquareOfProduct(p: nat, x: nat)
    ensures (p * x) * (p * x) == p * (p * (x * x))
  {
    assert (p * x) * (p * x) == p * (x * (p * x));
    assert x * (p * x) == p * (x * x);
  }

  lemma Square(z: nat)
    ensures (1 + 4 * z) * (1 + 4 * z) == 1 + 8 * z + 16 * (z * z)
  {
  }

  lemma Pow2Eight(n: nat)
    ensures Pow2(n + 3) == 8 * Pow2(n)
  {
    assert Pow2(n + 2) == 4 * Pow2(n);
  }

  lemma Divides(e: nat, w: nat, b: nat)
    requires w % 2 == 1 && Pow2(b) == WORD_SIZE
    ensures Pow2(e) * w % WORD_SIZE == 0 <==> e >= b
  {
    if e >= b {
      Pow2Sum(b, e - b);
      assert Pow2(e) * w == (Pow2(e - b) * w) * WORD_SIZE;
      ModSum(Pow2(e - b) * w, 0);
    } else {
      Pow2Sum(e, b - e);
      NotMultiple(Pow2(e), w, Pow2(b - e - 1));
    }
  }

  lemma NotMultiple(p: nat, w: nat, h: nat)
    requires p > 0 && w % 2 == 1 && p * (2 * h) == WORD_SIZE
    ensures p * w % WORD_SIZE != 0
  {
    var q := p * w / WORD_SIZE;
    assert q * WORD_SIZE == p * (2 * (h * q));
    AtLeast(w - 2 * (h * q), p);
    assert p * w - q * WORD_SIZE == (w - 2 * (h * q)) * p;
  }

  lemma FactorsTell(s: Word, p: nat, a: nat, v: nat, c: nat, u: nat, b: nat)
    requires s == Pow2(a) * v && p == 1 + Pow2(c) * u && v % 2 == 1 && u % 2 == 1 && Pow2(b) == WORD_SIZE
    ensures s * p % WORD_SIZE == s <==> a + c >= b
  {
    var A, C := Pow2(a), Pow2(c);
    assert Pow2(a + c) == A * C by { Pow2Sum(a, c); }
    assert (v * u) % 2 == 1 by { OddTimes(v, u); }
    assert s * (C * u) == (A * C) * (v * u) by { Regroup(A, v, C, u); }
    Divides(a + c, v * u, b);
    SameRemainder(s, p, C * u);
  }

  lemma ComesBackAt(s: Word, n: nat, b: nat)
    requires s > 0 && n > 0 && Pow2(b) == WORD_SIZE
    ensures Steps(s, n) == s <==> Twos(s) + Twos(n) + 2 >= b
  {
    var v := OddPart(s);
    var u := PowerForm(n);
    StepsPower(s, n);
    FactorsTell(s, Power(n), Twos(s), v, Twos(n) + 2, u, b);
  }

  /** A nonzero state comes back after n steps exactly when n and the state together have at least 62 factors two. */
  lemma ComesBack(s: Word, n: nat)
    requires s > 0 && n > 0
    ensures Steps(s, n) == s <==> Twos(s) + Twos(n) >= 62
  {
    var b := Bits();
    ComesBackAt(s, n, b);
  }

  lemma SameRemainder(s: Word, p: nat, d: nat)
    requires p == 1 + d
    ensures s * p % WORD_SIZE == s <==> s * d % WORD_SIZE == 0
  {
    assert s * p == s * d + s;
    var q, r := s * d / WORD_SIZE, s * d % WORD_SIZE;
    assert s * p == q * WORD_SIZE + (r + s);
    ModSum(q, r + s);
  }

  lemma Regroup(a: nat, v: nat, b: nat, u: nat)
    ensures (a * v) * (b * u) == (a * b) * (v * u)
  {
  }

  lemma {:induction false} FactorsTwo(n: nat, k: nat)
    requires n > 0
    ensures Twos(n) >= k <==> n % Pow2(k) == 0
  {
    if k > 0 {
      if n % 2 == 1 {
        OddRemainder(n, Pow2(k - 1));
      } else {
        FactorsTwo(n / 2, k - 1);
        Halve(n / 2, Pow2(k - 1));
      }
    }
  }

  lemma OddRemainder(n: nat, h: nat)
    requires n % 2 == 1 && h > 0
    ensures n % (2 * h) != 0
  {
    var q := n / (2 * h);
    assert n == q * (2 * h) + n % (2 * h) == 2 * (q * h) + n % (2 * h);
  }

  lemma Halve(m: nat, h: nat)
    requires h > 0
    ensures 2 * m % (2 * h) == 0 <==> m % h == 0
  {
    var q, r := m / h, m % h;
    assert 2 * m == q * (2 * h) + 2 * r;
    RemainderIs(2 * m, q, 2 * h, 2 * r);
  }

  lemma RemainderIs(x: nat, q: nat, d: nat, r: nat)
    requires r < d && x == q * d + r
    ensures x % d == r
  {
    var p, t := x / d, x % d;
    assert x == p * d + t;
    assert (p - q) * d == r - t;
    AtLeast(p - q, d);
  }

  /** The orbit of an odd state has length exactly 2^62. */
  lemma OrbitLength(s: Word, n: nat)
    requires s % 2 == 1
    ensures Steps(s, n) == s <==> n % (WORD_SIZE / 4) == 0
  {
    if n > 0 {
      var b := Bits();
      var k := b - 2;
      assert WORD_SIZE / 4 == Pow2(k);
      ComesBackAt(s, n, b);
      FactorsTwo(n, k);
    }
  }

  /** With r = prng / 2^64, x is at least (j + 1.5) (1 / sqrt(1 - r) - 1), without roots and fractions. */
  predicate Reaches(prng: Word, j: nat, x: nat) {
    (2 * x + (2 * j + 3)) * (2 * x + (2 * j + 3)) * (WORD_SIZE - prng) >= (2 * j + 3) * (2 * j + 3) * WORD_SIZE
  }

  function Limit(j: nat): nat {
    (2 * j + 3) * WORD_SIZE
  }

  lemma LimitReaches(prng: Word, j: nat)
    ensures Reaches(prng, j, Limit(j))
  {
    var a, x := 2 * j + 3, Limit(j);
    var y := 2 * x + a;
    assert y * y >= a * a * WORD_SIZE by {
      LargerSquare(y, x);
      assert x * x == a * a * WORD_SIZE * WORD_SIZE;
      AtLeast(WORD_SIZE, a * a * WORD_SIZE);
    }
    assert y * y * (WORD_SIZE - prng) >= y * y by { AtLeast(WORD_SIZE - prng, y * y); }
  }

  lemma LargerSquare(y: nat, x: nat)
    requires y >= x
    ensures y * y >= x * x
  {
    assert y * y == x * x + (y - x) * (y + x);
  }

  function GapFrom(prng: Word, j: nat, x: nat): (g: nat)
    requires x <= Limit(j)
    ensures x <= g && Reaches(prng, j, g) && forall y: nat | x <= y < g :: !Reaches(prng, j, y)
    decreases Limit(j) - x
  {
    LimitReaches(prng, j);
    if Reaches(prng, j, x) then x else GapFrom(prng, j, x + 1)
  }

  /** How far to jump from index j: the least number that reaches. */
  function Gap(prng: Word, j: nat): nat {
    GapFrom(prng, j, 0)
  }

  lemma GapAdvances(prng: Word, j: nat)
    ensures Gap(prng, j) == 0 <==> prng == 0
  {
    var a := (2 * j + 3) * (2 * j + 3);
    AtLeast(prng, a);
    assert a * (WORD_SIZE - prng) == a * WORD_SIZE - prng * a;
    assert a >= 9;
    assert Reaches(prng, j, 0) <==> a * (WORD_SIZE - prng) >= a * WORD_SIZE;
  }

  /** q is 1 / sqrt(1 - prng / 2^64). */
  ghost predicate IsInverseRoot(q: real, prng: Word) {
    q >= 0.0 && q * q * (1.0 - prng as real / 0x1_0000_0000_0000_0000 as real) == 1.0
  }

  /** n is the least integer that is not below x. */
  ghost predicate IsCeiling(n: int, x: real) {
    n as real - 1.0 < x <= n as real
  }

  lemma JumpIs(prng: Word, j: nat)
    ensures forall q | IsInverseRoot(q, prng) :: IsCeiling(Gap(prng, j), (j as real + 1.5) * (q - 1.0))
  {
    hide IsInverseRoot, IsCeiling, Gap;
    forall q | IsInverseRoot(q, prng)
      ensures IsCeiling(Gap(prng, j), (j as real + 1.5) * (q - 1.0))
    {
      GapIsCeiling(prng, j, q);
    }
  }

  /** In real arithmetic the jump is (j + 1.5) (q - 1) rounded up. */
  lemma GapIsCeiling(prng: Word, j: nat, q: real)
    requires IsInverseRoot(q, prng)
    ensures IsCeiling(Gap(prng, j), (j as real + 1.5) * (q - 1.0))
  {
    var g := Gap(prng, j);
    ReachesMeans(prng, j, g, q);
    if g > 0 {
      ReachesMeans(prng, j, g - 1, q);
      assert !Reaches(prng, j, g - 1);
      assert (g - 1) as real == g as real - 1.0;
    } else {
      GapAdvances(prng, j);
      SquareOrder(q, 1.0);
      SquareOrder(1.0, q);
      assert q - 1.0 == 0.0;
    }
  }

  lemma ReachesMeans(prng: Word, j: nat, x: nat, q: real)
    requires q >= 0.0 && q * q * (1.0 - prng as real / WORD_SIZE as real) == 1.0
    ensures Reaches(prng, j, x) <==> x as real >= (j as real + 1.5) * (q - 1.0)
  {
    var w := WORD_SIZE as real;
    var f, a, y := 1.0 - prng as real / w, 2.0 * j as real + 3.0, 2.0 * x as real + (2.0 * j as real + 3.0);
    assert w * f == (WORD_SIZE - prng) as real;
    InReals(y, a, q, f, w);
    AsReals(2 * x + (2 * j + 3), 2 * j + 3, WORD_SIZE - prng);
  }

  lemma AsReals(y: nat, a: nat, d: nat)
    ensures (y * y * d) as real == y as real * y as real * d as real
    ensures (a * a * WORD_SIZE) as real == a as real * a as real * WORD_SIZE as real
  {
  }

  lemma InReals(y: real, a: real, q: real, f: real, w: real)
    requires y >= 0.0 && a > 0.0 && q >= 0.0 && w > 0.0 && f > 0.0 && q * q * f == 1.0
    ensures y * y * (w * f) >= a * a * w <==> y >= a * q
  {
    var z := a * q;
    assert z * z * f == a * a * (q * q * f) == a * a;
    assert y * y * (w * f) - a * a * w == (w * f) * (y * y - z * z);
    Scale(w * f, y * y - z * z);
    SquareOrder(y, z);
  }

  lemma Scale(f: real, u: real)
    requires f > 0.0
    ensures f * u >= 0.0 <==> u >= 0.0
  {
  }

  lemma SquareOrder(y: real, z: real)
    requires y >= 0.0 && z >= 0.0
    ensures y * y >= z * z <==> y >= z
  {
    assert y * y - z * z == (y - z) * (y + z);
    if y + z > 0.0 {
      Scale(y + z, y - z);
    }
  }

  /** The mapping after the next index: the code's state in exact arithmetic. */
  function Next(m: Mapping): Mapping {
    var r := Step(m.prng);
    Mapping(r, m.lastIdx + Gap(r, m.lastIdx))
  }

  class RandomMapping {
    var prng: Word
    var lastIdx: nat

    function State(): Mapping
      reads this
    {
      Mapping(prng, lastIdx)
    }

    method NextIndex() returns (idx: nat)
      modifies this
      ensures State() == Next(old(State())) && idx == lastIdx
      ensures prng == old(prng) * 0xda94_2042_e4dd_58b5 % 0x1_0000_0000_0000_0000
      ensures forall q | IsInverseRoot(q, prng) ::
        IsCeiling(idx - old(lastIdx), (old(lastIdx) as real + 1.5) * (q - 1.0))
      ensures idx > old(lastIdx) <==> old(prng) != 0
    {
      hide IsInverseRoot, IsCeiling, Gap, Reaches;
      IndexAdvances(State());
      prng := Step(prng);
      JumpIs(prng, lastIdx);
      lastIdx := lastIdx + Gap(prng, lastIdx);
      idx := lastIdx;
    }
  }

  /** The index strictly advances exactly when the state is not zero, and a nonzero state never becomes zero. */
  lemma IndexAdvances(m: Mapping)
    ensures m.lastIdx < Next(m).lastIdx <==> m.prng != 0
    ensures Next(m).prng == 0 <==> m.prng == 0
    ensures m.prng == 0 ==> Next(m) == m
  {
    if m.prng != 0 {
      StepKeepsTwos(m.prng);
    }
    GapAdvances(Step(m.prng), m.lastIdx);
  }

  /** The exact generator meets the codec's hypothesis, whatever the hash. */
  lemma GeneratorAdvances(hash: Word -> Word)
    ensures Advancing(Scheme(hash, Next))
  {
    forall m: Mapping | m.prng != 0
      ensures Next(m).prng != 0 && m.lastIdx < Next(m).lastIdx
    {
      IndexAdvances(m);
    }
  }
}
