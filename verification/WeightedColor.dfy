/**
 * The weighted colour accumulator of the slicer: integer channel sums and a
 * weight, averaged, rounded and clamped into an opaque ARGB value.
 */
module WeightedColors {
  import opened Common

  /** The state of a WeightedColor: the weight and the channel sums `$r`, `$g`, `$b`. */
  datatype ColorSum = ColorSum(weight: int, r: int, g: int, b: int)
  {
    /** `add(other)` for another WeightedColor: component-wise sum. */
    function Plus(o: ColorSum): (s: ColorSum)
      ensures s.weight - weight == o.weight && s.r - r == o.r && s.g - g == o.g && s.b - b == o.b
    {
      ColorSum(weight + o.weight, r + o.r, g + o.g, b + o.b)
    }

    /**
     * `add(color, w)` for a hex number: the weight grows by `w || 1`, each channel by
     * the colour's byte, which is not scaled by the weight.
     */
    function PlusHex(color: int, w: int): (s: ColorSum)
      ensures s.weight - weight == (if w == 0 then 1 else w)
      ensures 0 <= s.r - r < 256 && 0 <= s.g - g < 256 && 0 <= s.b - b < 256
      ensures s.r - r == (color / 0x10000) % 256 && s.g - g == (color / 0x100) % 256 && s.b - b == color % 256
    {
      Pow2Values();
      ColorSum(weight + OrOne(w), r + ByteOf(color, 16), g + ByteOf(color, 8), b + ByteOf(color, 0))
    }

    /** The getter `r`. */
    function Red(): Channel { Average(r, weight) }

    /** The getter `g`. */
    function Green(): Channel { Average(g, weight) }

    /** The getter `b`. */
    function Blue(): Channel { Average(b, weight) }

    /**
     * The getter `value`: alpha 0xff in the top byte, then the three channels; a NaN
     * channel (weight and sum both 0) contributes 0.
     */
    function Value(): (v: int)
      ensures 0xff00_0000 <= v < 0x1_0000_0000
      ensures ByteOf(v, 24) == 0xff
      ensures ByteOf(v, 16) == Bits(Red()) && ByteOf(v, 8) == Bits(Green()) && ByteOf(v, 0) == Bits(Blue())
    {
      UnpackPack(0xff, Bits(Red()), Bits(Green()), Bits(Blue()));
      Pack(0xff, Bits(Red()), Bits(Green()), Bits(Blue()))
    }
  }

  const Empty := ColorSum(0, 0, 0, 0)

  /** A getter's result: a number, or NaN for the quotient 0/0. */
  datatype Channel = Num(n: int) | NaN

  /** `x << k >>> 0` of a channel in a sum: NaN shifts as 0. */
  function Bits(c: Channel): byte
    requires c.NaN? || 0 <= c.n < 256
  {
    if c.NaN? then 0 else c.n
  }

  function Clamp(v: int): int { if v < 0 then 0 else if v > 255 then 255 else v }

  /**
   * A getter `r`, `g` or `b`: `min(255, max(0, round(sum / weight)))`. Division by a
   * zero weight gives +Infinity (clamped to 255), -Infinity (clamped to 0) or NaN.
   */
  function Average(sum: int, weight: int): (c: Channel)
    ensures weight != 0 ==> c.Num? && c.n == Clamp(Round(sum as real / weight as real))
    ensures c.Num? ==> 0 <= c.n <= 255
    ensures c.NaN? <==> weight == 0 && sum == 0
    ensures weight == 0 && sum > 0 ==> c == Num(255)
    ensures weight == 0 && sum < 0 ==> c == Num(0)
  {
    if weight == 0 then
      (if sum > 0 then Num(255) else if sum < 0 then Num(0) else NaN)
    else
      RoundOfQuotient(sum, weight);
      Num(Clamp(RoundQuotient(sum, weight)))
  }

  /** One call of `add`: another WeightedColor, or a hex colour with a weight argument. */
  datatype Sample = OfColor(c: ColorSum) | OfHex(color: int, w: int)

  function AddSample(acc: ColorSum, s: Sample): ColorSum {
    match s
    case OfColor(c) => acc.Plus(c)
    case OfHex(color, w) => acc.PlusHex(color, w)
  }

  /** The state after a sequence of `add` calls, in order. */
  function AddAll(acc: ColorSum, ss: seq<Sample>): ColorSum
    decreases |ss|
  {
    if ss == [] then acc else AddAll(AddSample(acc, ss[0]), ss[1..])
  }

  /** What one sample contributes, independently of the state it is added to. */
  function Contribution(s: Sample): ColorSum {
    AddSample(Empty, s)
  }

  function Total(ss: seq<Sample>): ColorSum {
    if ss == [] then Empty else Contribution(ss[0]).Plus(Total(ss[1..]))
  }

  lemma {:induction false} AddAllIsTotal(acc: ColorSum, ss: seq<Sample>)
    ensures AddAll(acc, ss) == acc.Plus(Total(ss))
    decreases |ss|
  {
    if ss != [] {
      AddAllIsTotal(AddSample(acc, ss[0]), ss[1..]);
    }
  }

  lemma {:induction false} TotalRemove(ts: seq<Sample>, i: nat)
    requires i < |ts|
    ensures Total(ts) == Contribution(ts[i]).Plus(Total(ts[..i] + ts[i + 1..]))
  {
    if i > 0 {
      var rest, rest1 := ts[..i] + ts[i + 1..], ts[1..][..i - 1] + ts[1..][i..];
      TotalRemove(ts[1..], i - 1);
      assert ts[1..][i - 1] == ts[i];
      assert rest[0] == ts[0] && rest[1..] == rest1;
      assert Total(rest) == Contribution(ts[0]).Plus(Total(rest1));
    } else {
      assert ts[..0] + ts[1..] == ts[1..];
    }
  }

  lemma {:induction false} TotalPermutation(ss: seq<Sample>, ts: seq<Sample>)
    requires multiset(ss) == multiset(ts)
    ensures Total(ss) == Total(ts)
  {
    if ss == [] {
      assert |ts| == |multiset(ts)| == 0;
    } else {
      assert ss[0] in multiset(ts);
      var i :| 0 <= i < |ts| && ts[i] == ss[0];
      var rest := ts[..i] + ts[i + 1..];
      assert ts == ts[..i] + [ts[i]] + ts[i + 1..];
      assert multiset(ts) == multiset(ts[..i]) + multiset{ts[i]} + multiset(ts[i + 1..]);
      assert ss == [ss[0]] + ss[1..];
      assert multiset(ss) == multiset{ss[0]} + multiset(ss[1..]);
      assert multiset(rest) == multiset(ts[..i]) + multiset(ts[i + 1..]);
      assert multiset(ss[1..]) == multiset(ss) - multiset{ss[0]};
      assert multiset(ts) - multiset{ts[i]} == multiset(rest);
      TotalPermutation(ss[1..], rest);
      TotalRemove(ts, i);
    }
  }

  /**
   * The accumulated state does not depend on the order of the `add` calls: any
   * permutation of the same samples gives the same weight and sums.
   */
  lemma AddOrderIndependent(acc: ColorSum, ss: seq<Sample>, ts: seq<Sample>)
    requires multiset(ss) == multiset(ts)
    ensures AddAll(acc, ss) == AddAll(acc, ts)
  {
    AddAllIsTotal(acc, ss);
    AddAllIsTotal(acc, ts);
    TotalPermutation(ss, ts);
  }

  /** Every channel sum lies between 0 and 255 times the weight. */
  predicate InRange(c: ColorSum) {
    0 <= c.r <= 255 * c.weight && 0 <= c.g <= 255 * c.weight && 0 <= c.b <= 255 * c.weight
  }

  /** Hex colours added with the default weight keep the sums within 0..255 per unit of weight. */
  lemma {:induction false} DefaultWeightKeepsRange(acc: ColorSum, ss: seq<Sample>)
    requires InRange(acc)
    requires forall i :: 0 <= i < |ss| ==> ss[i].OfHex? && ss[i].w == 0
    ensures InRange(AddAll(acc, ss))
    ensures AddAll(acc, ss).weight == acc.weight + |ss|
    decreases |ss|
  {
    if ss != [] {
      DefaultWeightKeepsRange(AddSample(acc, ss[0]), ss[1..]);
    }
  }

  /** For sums within range the clamp never applies: a channel is the rounded mean. */
  lemma InRangeAverageIsMean(c: ColorSum)
    requires InRange(c) && c.weight > 0
    ensures c.Red() == Num(Round(c.r as real / c.weight as real))
    ensures c.Green() == Num(Round(c.g as real / c.weight as real))
    ensures c.Blue() == Num(Round(c.b as real / c.weight as real))
  {
    MeanInByteRange(c.r, c.weight);
    MeanInByteRange(c.g, c.weight);
    MeanInByteRange(c.b, c.weight);
  }

  lemma MeanInByteRange(s: int, w: int)
    requires w > 0 && 0 <= s <= 255 * w
    ensures 0 <= Round(s as real / w as real) <= 255
  {
    var x := s as real / w as real;
    assert x * w as real == s as real;
    assert 0.0 <= x <= 255.0;
  }

  /** n samples of pure green (0x00ff00) with the default weight average to opaque green. */
  lemma SolidGreen(n: nat)
    requires n > 0
    ensures AddAll(Empty, seq(n, _ => OfHex(0x00ff00, 0))).Value() == 0xff00ff00
  {
    GreenSums(Empty, n);
    assert AddAll(Empty, seq(n, _ => OfHex(0x00ff00, 0))) == ColorSum(n, 0, 255 * n, 0);
    GreenValue(n);
  }

  lemma GreenValue(n: nat)
    requires n > 0
    ensures ColorSum(n, 0, 255 * n, 0).Value() == 0xff00ff00
  {
    var c := ColorSum(n, 0, 255 * n, 0);
    DivModUnique(2 * (255 * n) + n, 2 * n, 255, n);
    DivModUnique(2 * 0 + n, 2 * n, 0, n);
    assert RoundQuotient(255 * n, n) == (2 * (255 * n) + n) / (2 * n) == 255;
    assert RoundQuotient(0, n) == 0;
    assert c.Green() == Num(255);
    assert c.Red() == Num(0) && c.Blue() == Num(0);
    assert c.Value() == Pack(0xff, 0, 0xff, 0);
  }

  lemma {:induction false} GreenSums(acc: ColorSum, n: nat)
    ensures AddAll(acc, seq(n, _ => OfHex(0x00ff00, 0)))
         == ColorSum(acc.weight + n, acc.r, acc.g + 255 * n, acc.b)
    decreases n
  {
    Pow2Values();
    if n > 0 {
      var ss := seq(n, _ => OfHex(0x00ff00, 0));
      assert ss[1..] == seq(n - 1, _ => OfHex(0x00ff00, 0));
      GreenSums(AddSample(acc, ss[0]), n - 1);
    }
  }

  /** A WeightedColor object; its fields are updated in place by `add`. */
  class WeightedColor {
    var weight: int
    /** The channel sums `$r`, `$g`, `$b`. */
    var r: int
    var g: int
    var b: int

    function Snapshot(): ColorSum
      reads this
    {
      ColorSum(weight, r, g, b)
    }

    constructor ()
      ensures Snapshot() == Empty
    {
      weight, r, g, b := 0, 0, 0, 0;
    }

    /** A copy in a fresh object: later adds to either do not affect the other. */
    method Clone() returns (c: WeightedColor)
      ensures fresh(c) && c.Snapshot() == Snapshot()
    {
      c := new WeightedColor();
      c.weight, c.r, c.g, c.b := weight, r, g, b;
    }

    /** `add(other)`; adding an object to itself doubles it. */
    method Add(other: WeightedColor)
      modifies this
      ensures Snapshot() == old(Snapshot()).Plus(old(other.Snapshot()))
    {
      weight := weight + other.weight;
      r := r + other.r;
      g := g + other.g;
      b := b + other.b;
    }

    /** `add(color, w)` for a hex colour; `w == 0` stands for an omitted weight. */
    method AddHex(color: int, w: int)
      modifies this
      ensures Snapshot() == old(Snapshot()).PlusHex(color, w)
    {
      weight := weight + OrOne(w);
      r := r + ByteOf(color, 16);
      g := g + ByteOf(color, 8);
      b := b + ByteOf(color, 0);
    }
  }
}
