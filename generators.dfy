/**
  Sample-array generation: the word bank, the data types and target
  languages, the five element generators and the dispatch that picks one.

  Each `Math.random()` call is an input here: `rand(i)` is the value the
  i-th call returns while one array is built, a real in [0, 1).  Numbers
  are kept exactly, as `scaled / 10^places`.
 */
module Generators {
  import opened Decimal

  /** The lorem-ipsum word bank strings are drawn from (62 words), kept in the rows it is written in. */
  const Words: seq<string> :=
    WordRow1 + WordRow2 + WordRow3 + WordRow4 + WordRow5 + WordRow6 + WordRow7 + WordRow8

  const WordRow1: seq<string> := ["lorem", "ipsum", "dolor", "sit", "amet", "consectetur", "adipiscing", "elit"]
  const WordRow2: seq<string> := ["sed", "do", "eiusmod", "tempor", "incididunt", "ut", "labore", "et", "dolore"]
  const WordRow3: seq<string> := ["magna", "aliqua", "enim", "ad", "minim", "veniam", "quis", "nostrud"]
  const WordRow4: seq<string> := ["exercitation", "ullamco", "laboris", "nisi", "aliquip", "ex", "ea", "commodo"]
  const WordRow5: seq<string> := ["consequat", "duis", "aute", "irure", "in", "reprehenderit", "voluptate"]
  const WordRow6: seq<string> := ["velit", "esse", "cillum", "fugiat", "nulla", "pariatur", "excepteur", "sint"]
  const WordRow7: seq<string> := ["occaecat", "cupidatat", "non", "proident", "sunt", "culpa", "qui", "officia"]
  const WordRow8: seq<string> := ["deserunt", "mollit", "anim", "id", "est", "laborum"]

  /** "int" | "float" | "double" | "string" | "bool" */
  datatype DataType = Int | Float | Double | String | Bool

  /** "javascript" | "typescript" | "python" | "java" | "csharp" | "cpp" | "c" */
  datatype Language = JavaScript | TypeScript | Python | Java | CSharp | Cpp | C

  /** An array element: a number `scaled / 10^places`, a string or a boolean. */
  datatype Value = Num(scaled: int, places: nat) | Str(s: string) | Boolean(b: bool)

  /** A value `Math.random()` can return. */
  type Draw = r: real | 0.0 <= r < 1.0

  /** JavaScript's `String(v)`, which `join` and template literals apply to each element. */
  function ToText(v: Value): string
  {
    match v
    case Num(scaled, places) => NumberText(scaled, places)
    case Str(s) => s
    case Boolean(b) => if b then "true" else "false"
  }

  /** JavaScript truthiness of an element (`b ? "1" : "0"`). */
  predicate Truthy(v: Value)
  {
    match v
    case Num(scaled, _) => scaled != 0
    case Str(s) => s != ""
    case Boolean(b) => b
  }

  const MaxValue: int := 1000

  /** The lower bound `generateArray` passes to the numeric generators. */
  function MinValue(allowNegative: bool): int
  {
    if allowNegative then -1000 else 0
  }

  // ---------------------------------------------------------------------------
  // Arithmetic on draws

  lemma ScaleDraw(r: Draw, n: int)
    requires n >= 1
    ensures 0.0 <= r * n as real < n as real
  {
    assert (1.0 - r) * n as real > 0.0;
  }

  lemma ScaleBetween(x: real, lo: int, hi: int, s: nat)
    requires lo as real <= x <= hi as real && s >= 1
    ensures (lo * s) as real <= x * s as real <= (hi * s) as real
  {
    assert (x - lo as real) * s as real >= 0.0;
    assert (hi as real - x) * s as real >= 0.0;
  }

  /**
    The integer `toFixed` picks for `y` scaled to the requested places: the
    nearest one, ties going away from zero (the sign is set aside first).
   */
  function RoundHalfAway(y: real): int
  {
    if y < 0.0 then -((-y + 0.5).Floor) else (y + 0.5).Floor
  }

  lemma FractionBelowOne(a: real, b: real)
    requires 0.0 <= a < b
    ensures 0.0 <= a / b < 1.0
  {
    assert a / b * b == a;
  }

  lemma DivThenMul(a: real, b: real)
    requires b != 0.0
    ensures a / b * b == a
  {
  }

  lemma CastProduct(a: int, b: int)
    ensures (a * b) as real == a as real * b as real
  {
  }

  lemma UnscaleFraction(r: real, k: real, d: real, s: real, m: real)
    requires d * s != 0.0 && r == (k - 0.25) / (d * s)
    ensures (r * d + m) * s == k - 0.25 + m * s
  {
    assert r * (d * s) == k - 0.25;
  }

  lemma FloorOfFraction(i: nat, n: nat)
    requires i < n
    ensures ((i as real / n as real) * n as real).Floor == i
  {
    DivThenMul(i as real, n as real);
  }

  lemma RoundHalfAwayNear(n: int)
    ensures RoundHalfAway(n as real) == n
    ensures RoundHalfAway(n as real - 0.25) == n
  {
  }

  lemma RoundHalfAwayBetween(y: real, lo: int, hi: int)
    requires lo as real <= y <= hi as real
    ensures lo <= RoundHalfAway(y) <= hi
  {
  }

  // ---------------------------------------------------------------------------
  // One element per draw

  /** `Math.floor(r * (max - min + 1)) + min` */
  function IntDraw(r: Draw, min: int, max: int): (v: int)
    ensures min <= max ==> min <= v <= max
  {
    var k := (r * (max - min + 1) as real).Floor;
    assert min <= max ==> 0 <= k <= max - min by {
      if min <= max {
        ScaleDraw(r, max - min + 1);
      }
    }
    k + min
  }

  /** `r * (max - min) + min`, the number `toFixed` rounds, in units of 10^-places. */
  function ScaledValue(r: Draw, min: int, max: int, places: nat): real
  {
    (r * (max - min) as real + min as real) * Pow10(places) as real
  }

  lemma DrawBetween(r: Draw, min: int, max: int)
    requires min <= max
    ensures min as real <= r * (max - min) as real + min as real <= max as real
  {
    if min < max {
      ScaleDraw(r, max - min);
    }
  }

  lemma ScaledValueBetween(r: Draw, min: int, max: int, places: nat)
    requires min <= max
    ensures (min * Pow10(places)) as real <= ScaledValue(r, min, max, places) <= (max * Pow10(places)) as real
  {
    DrawBetween(r, min, max);
    ScaleBetween(r * (max - min) as real + min as real, min, max, Pow10(places));
  }

  /**
    `parseFloat((r * (max - min) + min).toFixed(places))`, as the integer
    number of 10^-places units.
   */
  function FixedDraw(r: Draw, min: int, max: int, places: nat): (n: int)
    ensures min <= max ==> min * Pow10(places) <= n <= max * Pow10(places)
  {
    var y := ScaledValue(r, min, max, places);
    if min <= max then
      ScaledValueBetween(r, min, max, places);
      RoundHalfAwayBetween(y, min * Pow10(places), max * Pow10(places));
      RoundHalfAway(y)
    else
      RoundHalfAway(y)
  }

  /** `bank[Math.floor(r * bank.length)]` */
  function Pick(bank: seq<string>, r: Draw): (w: string)
    requires |bank| > 0
    ensures w in bank
  {
    ScaleDraw(r, |bank|);
    bank[(r * |bank| as real).Floor]
  }

  /** `words[Math.floor(Math.random() * words.length)]` */
  function WordDraw(r: Draw): (w: string)
    ensures w in Words
  {
    Pick(Words, r)
  }

  // ---------------------------------------------------------------------------
  // The generators

  /** `generateInts(count, min, max)` */
  function GenerateInts(count: nat, min: int, max: int, rand: nat -> Draw): (r: seq<Value>)
    ensures |r| == count
    ensures forall i | 0 <= i < |r| :: r[i].Num? && r[i].places == 0
    ensures min <= max ==> forall i | 0 <= i < |r| :: min <= r[i].scaled <= max
  {
    var r := seq(count, i requires 0 <= i < count => Num(IntDraw(rand(i), min, max), 0));
    assert forall i | 0 <= i < count :: r[i].scaled == IntDraw(rand(i), min, max);
    r
  }

  /** `generateFloats(count, min, max)`: two decimal places. */
  function GenerateFloats(count: nat, min: int, max: int, rand: nat -> Draw): (r: seq<Value>)
    ensures |r| == count
    ensures forall i | 0 <= i < |r| :: r[i].Num? && r[i].places == 2
    ensures min <= max ==> forall i | 0 <= i < |r| :: min * Pow10(2) <= r[i].scaled <= max * Pow10(2)
  {
    var r := seq(count, i requires 0 <= i < count => Num(FixedDraw(rand(i), min, max, 2), 2));
    assert forall i | 0 <= i < count :: r[i].scaled == FixedDraw(rand(i), min, max, 2);
    r
  }

  /** `generateDoubles(count, min, max)`: six decimal places. */
  function GenerateDoubles(count: nat, min: int, max: int, rand: nat -> Draw): (r: seq<Value>)
    ensures |r| == count
    ensures forall i | 0 <= i < |r| :: r[i].Num? && r[i].places == 6
    ensures min <= max ==> forall i | 0 <= i < |r| :: min * Pow10(6) <= r[i].scaled <= max * Pow10(6)
  {
    var r := seq(count, i requires 0 <= i < count => Num(FixedDraw(rand(i), min, max, 6), 6));
    assert forall i | 0 <= i < count :: r[i].scaled == FixedDraw(rand(i), min, max, 6);
    r
  }

  /** `generateStrings(count)` */
  function GenerateStrings(count: nat, rand: nat -> Draw): (r: seq<Value>)
    ensures |r| == count
    ensures forall i | 0 <= i < |r| :: r[i].Str? && r[i].s in Words
  {
    var r := seq(count, i requires 0 <= i < count => Str(WordDraw(rand(i))));
    assert forall i | 0 <= i < count :: r[i].s == WordDraw(rand(i));
    r
  }

  /** `generateBools(count)`: true exactly when the draw is below one half. */
  function GenerateBools(count: nat, rand: nat -> Draw): (r: seq<Value>)
    ensures |r| == count
    ensures forall i | 0 <= i < |r| :: r[i].Boolean? && (r[i].b <==> rand(i) < 0.5)
  {
    seq(count, i requires 0 <= i < count => Boolean(rand(i) < 0.5))
  }

  /** A number with `places` decimals within the range `generateArray` uses. */
  predicate FitsNumber(v: Value, places: nat, allowNegative: bool)
  {
    v.Num? && v.places == places &&
    MinValue(allowNegative) * Pow10(places) <= v.scaled <= MaxValue * Pow10(places)
  }

  /** `v` is an element `generateArray(kind, _, allowNegative)` can produce. */
  predicate Fits(v: Value, kind: DataType, allowNegative: bool)
  {
    match kind
    case Int => FitsNumber(v, 0, allowNegative)
    case Float => FitsNumber(v, 2, allowNegative)
    case Double => FitsNumber(v, 6, allowNegative)
    case String => v.Str? && v.s in Words
    case Bool => v.Boolean?
  }

  /** `generateArray(type, count, allowNegative)` */
  function GenerateArray(kind: DataType, count: nat, allowNegative: bool, rand: nat -> Draw): (r: seq<Value>)
    ensures |r| == count
    ensures forall i | 0 <= i < |r| :: Fits(r[i], kind, allowNegative)
  {
    var min := MinValue(allowNegative);
    match kind
    case Int => GenerateInts(count, min, MaxValue, rand)
    case Float => GenerateFloats(count, min, MaxValue, rand)
    case Double => GenerateDoubles(count, min, MaxValue, rand)
    case String => GenerateStrings(count, rand)
    case Bool => GenerateBools(count, rand)
  }

  // ---------------------------------------------------------------------------
  // Every element that fits can be drawn

  /** First position of `x` in `xs`. */
  function IndexOf<T(==)>(xs: seq<T>, x: T): (i: nat)
    requires x in xs
    ensures i < |xs| && xs[i] == x
  {
    if xs[0] == x then 0 else 1 + IndexOf(xs[1..], x)
  }

  /** A draw for which `IntDraw` yields `v`. */
  function IntPreimage(v: int, min: int, max: int): Draw
  {
    if min <= v <= max then
      FractionBelowOne((v - min) as real, (max - min + 1) as real);
      (v - min) as real / (max - min + 1) as real
    else 0.0
  }

  lemma IntPreimageExact(v: int, min: int, max: int)
    requires min <= v <= max
    ensures IntDraw(IntPreimage(v, min, max), min, max) == v
  {
    var n := (max - min + 1) as real;
    assert IntPreimage(v, min, max) * n == (v - min) as real;
  }

  /** A draw for which `FixedDraw` yields `n`. */
  function FixedPreimage(n: int, min: int, max: int, places: nat): Draw
  {
    var k := n - min * Pow10(places);
    var span := (max - min) * Pow10(places);
    if 1 <= k <= span then
      FractionBelowOne(k as real - 0.25, span as real);
      (k as real - 0.25) / span as real
    else 0.0
  }

  lemma ScaledValueOfPreimage(n: int, min: int, max: int, places: nat)
    requires min * Pow10(places) <= n <= max * Pow10(places)
    ensures ScaledValue(FixedPreimage(n, min, max, places), min, max, places) ==
      if n == min * Pow10(places) then n as real else n as real - 0.25
  {
    if n == min * Pow10(places) {
      CastProduct(min, Pow10(places));
      assert FixedPreimage(n, min, max, places) == 0.0;
    } else {
      ScaledValueAboveMin(n, min, max, places);
    }
  }

  lemma ScaledValueAboveMin(n: int, min: int, max: int, places: nat)
    requires min * Pow10(places) < n <= max * Pow10(places)
    ensures ScaledValue(FixedPreimage(n, min, max, places), min, max, places) == n as real - 0.25
  {
    FixedPreimageAboveMin(n, min, max, places);
    AffineOfPreimage(FixedPreimage(n, min, max, places), n, min, max, Pow10(places));
  }

  lemma FixedPreimageAboveMin(n: int, min: int, max: int, places: nat)
    requires min * Pow10(places) < n <= max * Pow10(places)
    ensures (max - min) * Pow10(places) > 0
    ensures FixedPreimage(n, min, max, places) ==
      ((n - min * Pow10(places)) as real - 0.25) / ((max - min) * Pow10(places)) as real
  {
    SpanBound(n, min, max, Pow10(places));
  }

  lemma AffineOfPreimage(r: real, n: int, min: int, max: int, s: int)
    requires (max - min) * s > 0
    requires r == ((n - min * s) as real - 0.25) / ((max - min) * s) as real
    ensures (r * (max - min) as real + min as real) * s as real == n as real - 0.25
  {
    CastProduct(max - min, s);
    UnscaleFraction(r, (n - min * s) as real, (max - min) as real, s as real, min as real);
    CastProduct(min, s);
  }

  lemma SpanBound(n: int, min: int, max: int, s: nat)
    requires min * s <= n <= max * s
    ensures 0 <= n - min * s <= (max - min) * s
  {
    assert (max - min) * s == max * s - min * s;
  }

  lemma FixedPreimageExact(n: int, min: int, max: int, places: nat)
    requires min * Pow10(places) <= n <= max * Pow10(places)
    ensures FixedDraw(FixedPreimage(n, min, max, places), min, max, places) == n
  {
    ScaledValueOfPreimage(n, min, max, places);
    RoundHalfAwayNear(n);
  }

  /** A draw for which `Pick(bank, _)` yields `w`. */
  function PickPreimage(bank: seq<string>, w: string): Draw
  {
    if w in bank then
      var i := IndexOf(bank, w);
      FractionBelowOne(i as real, |bank| as real);
      i as real / |bank| as real
    else 0.0
  }

  lemma PickPreimageExact(bank: seq<string>, w: string)
    requires w in bank
    ensures Pick(bank, PickPreimage(bank, w)) == w
  {
    FloorOfFraction(IndexOf(bank, w), |bank|);
  }

  /** A draw that makes `generateArray(kind, ...)` produce `v`. */
  function Preimage(v: Value, kind: DataType, allowNegative: bool): Draw
  {
    var min := MinValue(allowNegative);
    match v
    case Num(scaled, places) =>
      if kind == Int then IntPreimage(scaled, min, MaxValue) else FixedPreimage(scaled, min, MaxValue, places)
    case Str(s) => PickPreimage(Words, s)
    case Boolean(b) => if b then 0.0 else 0.5
  }

  /** The draws that make `generateArray` produce `xs`. */
  function PreimageStream(xs: seq<Value>, kind: DataType, allowNegative: bool): nat -> Draw
  {
    (i: nat) => if i < |xs| then Preimage(xs[i], kind, allowNegative) else 0.0
  }

  /** The element `generateArray(kind, _, allowNegative)` makes from one draw. */
  function DrawElement(kind: DataType, allowNegative: bool, r: Draw): Value
  {
    var min := MinValue(allowNegative);
    match kind
    case Int => Num(IntDraw(r, min, MaxValue), 0)
    case Float => Num(FixedDraw(r, min, MaxValue, 2), 2)
    case Double => Num(FixedDraw(r, min, MaxValue, 6), 6)
    case String => Str(WordDraw(r))
    case Bool => Boolean(r < 0.5)
  }

  /** Element `i` of a generated array is made from the i-th draw alone. */
  lemma GenerateArrayElement(kind: DataType, count: nat, allowNegative: bool, rand: nat -> Draw, i: nat)
    requires i < count
    ensures GenerateArray(kind, count, allowNegative, rand)[i] == DrawElement(kind, allowNegative, rand(i))
  {
  }

  lemma PreimageExact(v: Value, kind: DataType, allowNegative: bool)
    requires Fits(v, kind, allowNegative)
    ensures DrawElement(kind, allowNegative, Preimage(v, kind, allowNegative)) == v
  {
    var min := MinValue(allowNegative);
    match kind
    case Int => IntPreimageExact(v.scaled, min, MaxValue);
    case Float => FixedPreimageExact(v.scaled, min, MaxValue, 2);
    case Double => FixedPreimageExact(v.scaled, min, MaxValue, 6);
    case String => PickPreimageExact(Words, v.s);
    case Bool =>
  }

  /**
    Every array of `count` elements that fit `kind` and the sign policy is
    produced by some sequence of draws: with the ensures of `GenerateArray`,
    the arrays it can return are exactly the fitting ones.
   */
  lemma {:induction false} GenerateArrayOnto(kind: DataType, allowNegative: bool, xs: seq<Value>)
    requires forall i | 0 <= i < |xs| :: Fits(xs[i], kind, allowNegative)
    ensures GenerateArray(kind, |xs|, allowNegative, PreimageStream(xs, kind, allowNegative)) == xs
  {
    var rand := PreimageStream(xs, kind, allowNegative);
    var r := GenerateArray(kind, |xs|, allowNegative, rand);
    forall i | 0 <= i < |xs| ensures r[i] == xs[i] {
      PreimageExact(xs[i], kind, allowNegative);
      GenerateArrayElement(kind, |xs|, allowNegative, rand, i);
    }
  }

  /**
    Although every draw is below 1, rounding to two or six decimals can carry
    a float or a double up to exactly the maximum, 1000.
   */
  lemma RoundingReachesMax(allowNegative: bool)
    ensures exists r: Draw :: DrawElement(Float, allowNegative, r) == Num(MaxValue * Pow10(2), 2)
    ensures exists r: Draw :: DrawElement(Double, allowNegative, r) == Num(MaxValue * Pow10(6), 6)
  {
    var top2 := Num(MaxValue * Pow10(2), 2);
    var top6 := Num(MaxValue * Pow10(6), 6);
    PreimageExact(top2, Float, allowNegative);
    PreimageExact(top6, Double, allowNegative);
  }
}
