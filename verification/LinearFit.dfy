/** linear_fit.hpp: rolling sums over a circular buffer, and least-squares slopes from them.
    Arithmetic is exact: the sums are over an abelian group, the fit is over the reals. */
module LinearFit {
  import opened CircularBuffers

  // ----- rolling sums

  /** The two operators a sample type has. */
  datatype Group<!T(!new)> = Group(plus: (T, T) -> T, minus: (T, T) -> T) {
    ghost predicate Commutes(a: T, b: T) { plus(a, b) == plus(b, a) }
    ghost predicate Associates(a: T, b: T, c: T) { plus(plus(a, b), c) == plus(a, plus(b, c)) }
    ghost predicate Cancels(a: T, b: T) { minus(plus(a, b), b) == a }
    ghost predicate Exchanges(a: T, b: T, c: T) { plus(minus(a, b), c) == minus(plus(a, c), b) }

    /** The laws of an abelian group that sliding a sum relies on. */
    ghost predicate Lawful() {
      && (forall a, b :: Commutes(a, b))
      && (forall a, b, c :: Associates(a, b, c))
      && (forall a, b :: Cancels(a, b))
      && (forall a, b, c :: Exchanges(a, b, c))
    }

    /** Sum of a window, oldest sample first. */
    function Sum(s: seq<T>): T
      requires s != []
    {
      if |s| == 1 then s[0] else plus(Sum(s[..|s| - 1]), s[|s| - 1])
    }

    lemma SumAppend(s: seq<T>, v: T)
      requires s != []
      ensures Sum(s + [v]) == plus(Sum(s), v)
    {
      assert (s + [v])[..|s|] == s;
    }

    lemma SumSingle(v: T)
      ensures Sum([v]) == v
    {}

    /** Taking the oldest sample out of the sum. */
    lemma {:induction false} SumWithoutOldest(s: seq<T>)
      requires Lawful() && |s| > 1
      ensures minus(Sum(s), s[0]) == Sum(s[1..])
      decreases |s|
    {
      hide Sum;
      var n := |s| - 1;
      var r, v := s[..n], s[n];
      assert s == r + [v];
      SumAppend(r, v);
      if n == 1 {
        assert r == [s[0]] && s[1..] == [v];
        SumSingle(s[0]);
        SumSingle(v);
        assert Commutes(s[0], v) && Cancels(v, s[0]);
      } else {
        SumWithoutOldest(r);
        assert s[1..] == r[1..] + [v];
        SumAppend(r[1..], v);
        assert Exchanges(Sum(r), s[0], v);
      }
    }

    /** One step of Feed keeps the running total equal to the sum of the window. */
    lemma SlideSum(s: seq<T>, v: T)
      requires Lawful() && s != []
      ensures plus(minus(Sum(s), s[0]), v) == Sum(s[1..] + [v])
    {
      hide Sum;
      if |s| == 1 {
        assert s == [s[0]] && s[1..] + [v] == [v];
        SumSingle(s[0]);
        SumSingle(v);
        assert Exchanges(s[0], s[0], v) && Commutes(s[0], v) && Cancels(v, s[0]);
      } else {
        SumWithoutOldest(s);
        SumAppend(s[1..], v);
      }
    }
  }

  class RollingSum<!T(!new)> {
    const group: Group<T>
    const buf: CircularBuffer<T>
    var total: T

    ghost predicate Valid()
      reads this, buf, buf.underlying
    {
      buf.Valid() && group.Lawful() && total == group.Sum(buf.Contents())
    }

    /** The window, oldest sample first. */
    ghost function Window(): (s: seq<T>)
      requires buf.Valid()
      reads this, buf, buf.underlying
      ensures |s| == buf.underlying.Length
    {
      buf.Contents()
    }

    constructor (group: Group<T>, length: nat, start: T)
      requires group.Lawful() && length > 0
      ensures Valid() && fresh(buf) && fresh(buf.underlying) && this.group == group
      ensures Window() == seq(length, i => start)
    {
      this.group := group;
      buf := new CircularBuffer(length, start);
      total := start;
      new;
      Fill(start);
    }

    method Fill(start: T)
      requires buf.Valid() && group.Lawful()
      modifies this, buf.underlying
      ensures Valid() && Window() == seq(buf.underlying.Length, i => start)
    {
      buf.Fill(start);
      total := buf.OldestSample();
      ghost var s := buf.Contents();
      for i := 1 to buf.underlying.Length
        invariant buf.Valid() && buf.Contents() == s && total == group.Sum(s[..i])
      {
        var next := buf.At(i);
        assert s[..i + 1] == s[..i] + [s[i]];
        group.SumAppend(s[..i], s[i]);
        total := group.plus(total, next);
      }
      assert s[..|s|] == s;
    }

    /** The window slides by one sample and the total follows. */
    method Feed(value: T)
      requires Valid()
      modifies this, buf, buf.underlying
      ensures Valid() && Window() == old(Window())[1..] + [value]
    {
      group.SlideSum(buf.Contents(), value);
      var oldest := buf.OldestSample();
      total := group.minus(total, oldest);
      total := group.plus(total, value);
      buf.AddSample(value);
    }

    method Sum() returns (sum: T)
      requires Valid()
      ensures sum == group.Sum(Window())
    {
      sum := total;
    }
  }

  /** The window after a number of Feed calls. */
  function Slid<T>(window: seq<T>, values: seq<T>): (s: seq<T>)
    requires window != []
    ensures |s| == |window|
  {
    if values == [] then window else Slid(window, values[..|values| - 1])[1..] + [values[|values| - 1]]
  }

  /** After any number of Feed calls the window holds the last values of the padded history, in
      order. */
  lemma {:induction false} WindowIsRecentHistory<T>(window: seq<T>, values: seq<T>)
    requires window != []
    ensures Slid(window, values) == (window + values)[|values|..]
  {
    if values != [] {
      var n := |values| - 1;
      WindowIsRecentHistory(window, values[..n]);
      assert values == values[..n] + [values[n]];
      assert window + values == (window + values[..n]) + [values[n]];
    }
  }

  // ----- moving averages

  const REALS: Group<real> := Group((a, b) => a + b, (a, b) => a - b)

  lemma RealsLawful()
    ensures REALS.Lawful()
  {
    forall a, b
      ensures REALS.Commutes(a, b) && REALS.Cancels(a, b)
    {
    }
    forall a, b, c
      ensures REALS.Associates(a, b, c) && REALS.Exchanges(a, b, c)
    {
    }
  }

  lemma {:induction false} SumBounds(s: seq<real>, low: real, high: real)
    requires s != [] && forall i | 0 <= i < |s| :: low <= s[i] <= high
    ensures low * |s| as real <= REALS.Sum(s) <= high * |s| as real
  {
    var n := |s| - 1;
    if n > 0 {
      SumBounds(s[..n], low, high);
      assert |s| as real == n as real + 1.0;
    }
  }

  /** An average lies between any bounds of its window. */
  lemma AverageBetween(s: seq<real>, average: real, low: real, high: real)
    requires s != [] && average * |s| as real == REALS.Sum(s)
    requires forall i | 0 <= i < |s| :: low <= s[i] <= high
    ensures low <= average <= high
  {
    SumBounds(s, low, high);
    var n, sum := |s| as real, REALS.Sum(s);
    assert Product(average, n) == sum && Product(low, n) <= sum <= Product(high, n);
    hide Product, Group.Sum;
    Scaled(average, low, n);
    Scaled(high, average, n);
  }

  lemma Scaled(a: real, b: real, n: real)
    requires n > 0.0
    ensures a < b ==> Product(a, n) < Product(b, n)
  {
    if a < b {
      PositiveProduct(b - a, n);
      assert (b - a) * n == b * n - a * n;
    }
  }

  lemma PositiveProduct(a: real, b: real)
    requires a > 0.0 && b > 0.0
    ensures a * b > 0.0
  {}

  class MovingAverage {
    const rollingSum: RollingSum<real>

    ghost predicate Valid()
      reads rollingSum, rollingSum.buf, rollingSum.buf.underlying
    {
      rollingSum.Valid() && rollingSum.group == REALS
    }

    constructor (length: nat, start: real)
      requires length > 0
      ensures Valid() && fresh(rollingSum) && fresh(rollingSum.buf) && fresh(rollingSum.buf.underlying)
      ensures rollingSum.Window() == seq(length, i => start)
    {
      RealsLawful();
      rollingSum := new RollingSum(REALS, length, start);
    }

    method Feed(value: real)
      requires Valid()
      modifies rollingSum, rollingSum.buf, rollingSum.buf.underlying
      ensures Valid() && rollingSum.Window() == old(rollingSum.Window())[1..] + [value]
    {
      rollingSum.Feed(value);
    }

    method Fill(start: real)
      requires Valid()
      modifies rollingSum, rollingSum.buf.underlying
      ensures Valid() && rollingSum.Window() == seq(rollingSum.buf.underlying.Length, i => start)
    {
      rollingSum.Fill(start);
    }

    method Avg() returns (average: real)
      requires Valid()
      ensures average * |rollingSum.Window()| as real == REALS.Sum(rollingSum.Window())
    {
      var sum := rollingSum.Sum();
      var n := rollingSum.buf.underlying.Length as real;
      average := sum / n;
    }
  }

  // ----- samples of a fit

  datatype Sample = Sample(x: real, y: real, xx: real, xy: real)

  /** The two-argument constructor of LinearFitSample. */
  function Point(x: real, y: real): Sample {
    Sample(x, y, x * x, x * y)
  }

  function AddSamples(a: Sample, b: Sample): Sample {
    Sample(a.x + b.x, a.y + b.y, a.xx + b.xx, a.xy + b.xy)
  }

  function SubtractSamples(a: Sample, b: Sample): Sample {
    Sample(a.x - b.x, a.y - b.y, a.xx - b.xx, a.xy - b.xy)
  }

  const SAMPLES: Group<Sample> := Group(AddSamples, SubtractSamples)

  /** operator+ and operator- of LinearFitSample form an abelian group. */
  lemma SamplesLawful()
    ensures SAMPLES.Lawful()
  {
    forall a, b
      ensures SAMPLES.Commutes(a, b) && SAMPLES.Cancels(a, b)
    {
    }
    forall a, b, c
      ensures SAMPLES.Associates(a, b, c) && SAMPLES.Exchanges(a, b, c)
    {
    }
  }

  /** The window's sum, written out. */
  function Total(s: seq<Sample>): Sample {
    if s == [] then Sample(0.0, 0.0, 0.0, 0.0) else AddSamples(Total(s[..|s| - 1]), s[|s| - 1])
  }

  /** It is what a rolling sum over samples delivers. */
  lemma {:induction false} TotalIsSum(s: seq<Sample>)
    requires s != []
    ensures Total(s) == SAMPLES.Sum(s)
    decreases |s|
  {
    var n := |s| - 1;
    if n == 0 {
      assert Total(s[..0]) == Sample(0.0, 0.0, 0.0, 0.0);
    } else {
      TotalIsSum(s[..n]);
    }
  }

  /** FindSlope, given the window's sum and size; None is the return value false. */
  datatype Option<T> = None | Some(value: T)

  function FindSlope(n: nat, e: Sample): Option<real> {
    var denom := Denominator(n as real, e);
    if denom == 0.0 then None else Some((n as real * e.xy - e.x * e.y) / denom)
  }

  // ----- what the slope means

  /** A window all of whose samples were built from (x, y). */
  predicate AllPoints(s: seq<Sample>) {
    forall i | 0 <= i < |s| :: s[i] == Point(s[i].x, s[i].y)
  }

  function Product(a: real, b: real): real {
    a * b
  }

  function Square(x: real): real {
    Product(x, x)
  }

  /** Residual of one sample. */
  function Miss(p: Sample, m: real, b: real): real {
    p.y - m * p.x - b
  }

  /** Sum of squared residuals of the line y = m x + b. */
  function Residual(s: seq<Sample>, m: real, b: real): real {
    if s == [] then 0.0
    else
      Residual(s[..|s| - 1], m, b) + Square(Miss(s[|s| - 1], m, b))
  }

  /** Sum of squared distances of the x values from `c`. */
  function Spread(s: seq<Sample>, c: real): real {
    if s == [] then 0.0
    else Spread(s[..|s| - 1], c) + Square(s[|s| - 1].x - c)
  }

  /** Sum over all pairs of (xi - xj)^2. */
  function PairSpread(s: seq<Sample>): real {
    if s == [] then 0.0 else PairSpread(s[..|s| - 1]) + Spread(s[..|s| - 1], s[|s| - 1].x)
  }

  /** Sum of (x - c)^2 in terms of the sums of a window of n samples. */
  function SpreadForm(e: Sample, n: real, c: real): real {
    e.xx - 2.0 * c * e.x + n * c * c
  }

  lemma SpreadStep(e: Sample, p: Sample, n: real, c: real)
    requires p == Point(p.x, p.y)
    ensures SpreadForm(e, n, c) + Square(p.x - c) == SpreadForm(AddSamples(e, p), n + 1.0, c)
  {
    assert (p.x - c) * (p.x - c) == p.x * p.x - 2.0 * c * p.x + c * c;
    assert 2.0 * c * (e.x + p.x) == 2.0 * c * e.x + 2.0 * c * p.x;
    assert (n + 1.0) * c * c == n * c * c + c * c;
  }

  lemma NoSpread(c: real)
    ensures SpreadForm(Sample(0.0, 0.0, 0.0, 0.0), 0.0, c) == 0.0
  {}

  lemma {:induction false} SpreadExpanded(s: seq<Sample>, c: real)
    requires AllPoints(s)
    ensures Spread(s, c) == SpreadForm(Total(s), |s| as real, c)
  {
    hide SpreadForm, Square;
    NoSpread(c);
    if s != [] {
      var n := |s| - 1;
      SpreadExpanded(s[..n], c);
      SpreadStep(Total(s[..n]), s[n], n as real, c);
      assert |s| as real == n as real + 1.0;
    }
  }

  /** The denominator of FindSlope. */
  function Denominator(n: real, e: Sample): real {
    n * e.xx - e.x * e.x
  }

  /** FindSlope's denominator is the sum over all pairs of squared x distances. */
  lemma {:induction false} DenominatorIsPairSpread(s: seq<Sample>)
    requires AllPoints(s)
    ensures Denominator(|s| as real, Total(s)) == PairSpread(s)
  {
    if s != [] {
      hide Denominator, SpreadForm, Spread;
      var n := |s| - 1;
      DenominatorIsPairSpread(s[..n]);
      SpreadExpanded(s[..n], s[n].x);
      DenominatorStep(n as real, Total(s[..n]), s[n]);
      assert |s| as real == n as real + 1.0;
    }
  }

  lemma DenominatorStep(n: real, e: Sample, p: Sample)
    requires p == Point(p.x, p.y)
    ensures Denominator(n + 1.0, AddSamples(e, p)) == Denominator(n, e) + SpreadForm(e, n, p.x)
  {
    assert (n + 1.0) * (e.xx + p.x * p.x) == n * e.xx + n * p.x * p.x + e.xx + p.x * p.x by {
      assert n * (e.xx + p.x * p.x) == n * e.xx + n * (p.x * p.x);
      assert n * (p.x * p.x) == n * p.x * p.x;
    }
    assert (e.x + p.x) * (e.x + p.x) == e.x * e.x + 2.0 * p.x * e.x + p.x * p.x;
  }

  lemma SameSign(a: real, b: real)
    requires (a > 0.0 && b > 0.0) || (a < 0.0 && b < 0.0)
    ensures a * b > 0.0
  {}

  lemma ProductPositive(a: real, b: real)
    requires (a > 0.0 && b > 0.0) || (a < 0.0 && b < 0.0)
    ensures Product(a, b) > 0.0
  {
    SameSign(a, b);
  }

  lemma ProductZero(b: real)
    ensures Product(0.0, b) == 0.0
  {}

  lemma SquarePositive(x: real)
    ensures x != 0.0 ==> Square(x) > 0.0
    ensures x == 0.0 ==> Square(x) == 0.0
  {
    hide Product;
    ProductZero(0.0);
    if x != 0.0 {
      ProductPositive(x, x);
    }
  }

  lemma SquareNonnegative(x: real)
    ensures Square(x) >= 0.0 && (Square(x) == 0.0 <==> x == 0.0)
  {
    hide Square;
    SquarePositive(x);
  }

  lemma {:induction false} SpreadZero(s: seq<Sample>, c: real)
    ensures Spread(s, c) >= 0.0
    ensures Spread(s, c) == 0.0 <==> forall i | 0 <= i < |s| :: s[i].x == c
  {
    hide Square;
    if s != [] {
      var n := |s| - 1;
      SpreadZero(s[..n], c);
      SquareNonnegative(s[n].x - c);
      assert forall i | 0 <= i < n :: s[..n][i] == s[i];
    }
  }

  /** All x values of the window are the same. */
  ghost predicate SameX(s: seq<Sample>) {
    forall i, j | 0 <= i < j < |s| :: s[i].x == s[j].x
  }

  lemma {:induction false} PairSpreadZero(s: seq<Sample>)
    ensures PairSpread(s) >= 0.0
    ensures PairSpread(s) == 0.0 <==> SameX(s)
  {
    if s != [] {
      var n := |s| - 1;
      PairSpreadZero(s[..n]);
      SpreadZero(s[..n], s[n].x);
      assert forall i | 0 <= i < n :: s[..n][i] == s[i];
    }
  }

  /** FindSlope returns false exactly for windows that lie on a vertical line. */
  lemma SlopeExists(s: seq<Sample>)
    requires s != [] && AllPoints(s)
    ensures FindSlope(|s|, Total(s)).None? <==> SameX(s)
  {
    DenominatorIsPairSpread(s);
    PairSpreadZero(s);
  }

  // ----- least squares

  /** The line's value above a sample. */
  function LineAt(p: Sample, m: real, b: real): real {
    m * p.x + b
  }

  /** Sum of (m x + b)^2. */
  function LineSquares(s: seq<Sample>, m: real, b: real): real {
    if s == [] then 0.0
    else
      var p := s[|s| - 1];
      LineSquares(s[..|s| - 1], m, b) + Square(LineAt(p, m, b))
  }

  lemma {:induction false} LineSquaresNonnegative(s: seq<Sample>, m: real, b: real)
    ensures LineSquares(s, m, b) >= 0.0
    ensures LineSquares(s, m, b) == 0.0 && !SameX(s) ==> m == 0.0 && b == 0.0
  {
    if LineSquares(s, m, b) == 0.0 && !SameX(s) {
      var i, j :| 0 <= i < j < |s| && s[i].x != s[j].x;
      LineSquaresTerm(s, m, b, i);
      LineSquaresTerm(s, m, b, j);
      assert m * (s[i].x - s[j].x) == 0.0;
      ZeroProduct(m, s[i].x - s[j].x);
    } else {
      LineSquaresSum(s, m, b);
    }
  }

  lemma ZeroProduct(a: real, b: real)
    requires a * b == 0.0 && b != 0.0
    ensures a == 0.0
  {
    assert a == a * b / b;
  }

  lemma {:induction false} LineSquaresSum(s: seq<Sample>, m: real, b: real)
    ensures LineSquares(s, m, b) >= 0.0
  {
    hide Square;
    if s != [] {
      LineSquaresSum(s[..|s| - 1], m, b);
      SquareNonnegative(LineAt(s[|s| - 1], m, b));
    }
  }

  lemma {:induction false} LineSquaresTerm(s: seq<Sample>, m: real, b: real, i: nat)
    requires i < |s| && LineSquares(s, m, b) == 0.0
    ensures LineAt(s[i], m, b) == 0.0
  {
    hide Square, LineAt;
    var n := |s| - 1;
    LineSquaresSum(s[..n], m, b);
    SquareNonnegative(LineAt(s[n], m, b));
    if i < n {
      LineSquaresTerm(s[..n], m, b, i);
    }
  }

  /** Sum of r (dm x + db) over the residuals r of the line (m, b). */
  function Cross(s: seq<Sample>, m: real, b: real, dm: real, db: real): real {
    if s == [] then 0.0
    else
      var p := s[|s| - 1];
      Cross(s[..|s| - 1], m, b, dm, db) + CrossTerm(p, m, b, dm, db)
  }

  lemma ResidualStep(p: Sample, m: real, b: real, dm: real, db: real)
    ensures Square(Miss(p, m + dm, b + db)) ==
            Square(Miss(p, m, b)) - 2.0 * CrossTerm(p, m, b, dm, db) + Square(LineAt(p, dm, db))
  {
    var r, d := p.y - m * p.x - b, dm * p.x + db;
    assert p.y - (m + dm) * p.x - (b + db) == r - d;
    assert (r - d) * (r - d) == r * r - 2.0 * (r * d) + d * d;
  }

  /** Moving the line by (dm, db) changes the residual sum by a cross term and a square. */
  lemma {:induction false} ResidualMoved(s: seq<Sample>, m: real, b: real, dm: real, db: real)
    ensures Residual(s, m + dm, b + db) == Residual(s, m, b) - 2.0 * Cross(s, m, b, dm, db) + LineSquares(s, dm, db)
  {
    hide Square, CrossTerm, LineAt, Miss;
    if s != [] {
      var n := |s| - 1;
      ResidualMoved(s[..n], m, b, dm, db);
      ResidualStep(s[n], m, b, dm, db);
    }
  }

  /** The cross term in terms of the sums of a window of n samples. */
  function CrossForm(e: Sample, n: real, m: real, b: real, dm: real, db: real): real {
    dm * (e.xy - m * e.xx - b * e.x) + db * (e.y - m * e.x - n * b)
  }

  lemma {:induction false} CrossExpanded(s: seq<Sample>, m: real, b: real, dm: real, db: real)
    requires AllPoints(s)
    ensures Cross(s, m, b, dm, db) == CrossForm(Total(s), |s| as real, m, b, dm, db)
  {
    NoCross(m, b, dm, db);
    hide CrossForm, CrossTerm;
    if s != [] {
      var n := |s| - 1;
      CrossExpanded(s[..n], m, b, dm, db);
      CrossStep(Total(s[..n]), n as real, s[n], m, b, dm, db);
      assert |s| as real == n as real + 1.0;
    }
  }

  lemma NoCross(m: real, b: real, dm: real, db: real)
    ensures CrossForm(Sample(0.0, 0.0, 0.0, 0.0), 0.0, m, b, dm, db) == 0.0
  {}

  function CrossTerm(p: Sample, m: real, b: real, dm: real, db: real): real {
    (p.y - m * p.x - b) * (dm * p.x + db)
  }

  lemma CrossStep(e: Sample, n: real, p: Sample, m: real, b: real, dm: real, db: real)
    requires p == Point(p.x, p.y)
    ensures CrossForm(AddSamples(e, p), n + 1.0, m, b, dm, db) ==
            CrossForm(e, n, m, b, dm, db) + CrossTerm(p, m, b, dm, db)
  {
    var r := p.y - m * p.x - b;
    var u, v := e.xy - m * e.xx - b * e.x, e.y - m * e.x - n * b;
    MomentStep(e, p, m, b);
    OffsetStep(e, n, p, m, b);
    SumOfProducts(dm, u, r * p.x);
    SumOfProducts(db, v, r);
    CrossTermSplit(r, p.x, dm, db);
  }

  lemma MomentStep(e: Sample, p: Sample, m: real, b: real)
    requires p == Point(p.x, p.y)
    ensures var t := AddSamples(e, p);
            t.xy - m * t.xx - b * t.x == (e.xy - m * e.xx - b * e.x) + (p.y - m * p.x - b) * p.x
  {
    SumOfProducts(m, e.xx, p.x * p.x);
    SumOfProducts(b, e.x, p.x);
    assert (p.y - m * p.x - b) * p.x == p.x * p.y - m * (p.x * p.x) - b * p.x;
  }

  lemma OffsetStep(e: Sample, n: real, p: Sample, m: real, b: real)
    ensures var t := AddSamples(e, p);
            t.y - m * t.x - (n + 1.0) * b == (e.y - m * e.x - n * b) + (p.y - m * p.x - b)
  {
    SumOfProducts(m, e.x, p.x);
    SumOfProducts(b, n, 1.0);
  }

  lemma CrossTermSplit(r: real, x: real, dm: real, db: real)
    ensures r * (dm * x + db) == dm * (r * x) + db * r
  {}

  lemma SumOfProducts(a: real, x: real, y: real)
    ensures a * (x + y) == a * x + a * y
  {}

  /** The intercept that goes with a slope. */
  function Intercept(n: nat, e: Sample, slope: real): real
    requires n > 0
  {
    (e.y - slope * e.x) / n as real
  }

  lemma NormalEquations(n: nat, e: Sample, m: real)
    requires n > 0 && FindSlope(n, e) == Some(m)
    ensures e.y - m * e.x - n as real * Intercept(n, e, m) == 0.0
    ensures e.xy - m * e.xx - Intercept(n, e, m) * e.x == 0.0
  {
    var c := n as real;
    var b := Intercept(n, e, m);
    assert c * b == e.y - m * e.x;
    var denom := Denominator(c, e);
    assert m * denom == c * e.xy - e.x * e.y;
    var u := e.xy - m * e.xx - b * e.x;
    assert c * u == c * e.xy - m * (c * e.xx) - (c * b) * e.x;
    assert (e.y - m * e.x) * e.x == e.x * e.y - m * (e.x * e.x);
    assert m * denom == m * (c * e.xx) - m * (e.x * e.x);
    assert u * c == 0.0;
    ZeroProduct(u, c);
  }

  /** For windows of any length: the slope FindSlope returns, with its intercept, is the one and
      only line with the least sum of squared residuals. */
  lemma LeastSquares(s: seq<Sample>, m: real, m': real, b': real)
    requires s != [] && AllPoints(s)
    ensures FindSlope(|s|, Total(s)) == Some(m) ==>
              var b := Intercept(|s|, Total(s), m);
              Residual(s, m, b) <= Residual(s, m', b') &&
              (Residual(s, m, b) == Residual(s, m', b') <==> m' == m && b' == b)
  {
    hide Residual, Cross, LineSquares, Total, FindSlope, Intercept;
    var e := Total(s);
    if FindSlope(|s|, e) == Some(m) {
      var b := Intercept(|s|, e, m);
      var dm, db := m' - m, b' - b;
      NormalEquations(|s|, e, m);
      CrossExpanded(s, m, b, dm, db);
      ZeroCross(dm, db, e.xy - m * e.xx - b * e.x, e.y - m * e.x - |s| as real * b);
      ResidualMoved(s, m, b, dm, db);
      LineSquaresNonnegative(s, dm, db);
      SlopeExists(s);
    }
  }

  lemma ZeroCross(dm: real, db: real, u: real, v: real)
    requires u == 0.0 && v == 0.0
    ensures dm * u + db * v == 0.0
  {}
}
