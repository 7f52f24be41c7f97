/** Values and JavaScript number semantics shared by every part of the model. */
module Common {

  datatype Option<T> = None | Some(value: T)

  /** A computation that either returns a value or throws an Error carrying the source's message. */
  datatype Result<T> = Ok(value: T) | Err(error: string)
  {
    predicate IsFailure() { Err? }

    function PropagateFailure<U>(): Result<U>
      requires Err?
    {
      Err(error)
    }

    function Extract(): T
      requires Ok?
    {
      value
    }
  }

  /** A computation run for its effect: it either completes or throws. */
  datatype Outcome = Pass | Fail(error: string)

  type byte = x: int | 0 <= x < 256

  /** `Math.floor` on a finite number. */
  function Floor(x: real): (n: int)
    ensures n as real <= x < n as real + 1.0
  {
    x.Floor
  }

  /** `Math.ceil` on a finite number. */
  function Ceil(x: real): (n: int)
    ensures n as real - 1.0 < x <= n as real
  {
    -((-x).Floor)
  }

  /** `Math.round`: the nearest integer, a half is rounded towards +infinity. */
  function Round(x: real): (n: int)
    ensures n as real - 0.5 <= x < n as real + 0.5
  {
    (x + 0.5).Floor
  }

  /** `Number.isInteger` on a finite number. */
  predicate IsInteger(x: real) {
    x == x.Floor as real
  }

  /**
   * The remainder operator `%` of JavaScript for a positive divisor: it truncates,
   * so the result takes the sign of the dividend (Dafny's `%` is Euclidean). A
   * negative multiple of `d` gives -0, which compares like 0.
   */
  function JsRem(a: int, d: int): (r: int)
    requires d > 0
    ensures -d < r < d
    ensures r >= 0 <==> (a >= 0 || a % d == 0)
    ensures r == if r >= 0 then a % d else a % d - d
  {
    NegatedRemainder(a, d);
    if a >= 0 then a % d else -((-a) % d)
  }

  lemma NegatedRemainder(a: int, d: int)
    requires d > 0
    ensures a % d == 0 ==> (-a) % d == 0
    ensures a % d != 0 ==> (-a) % d == d - a % d
  {
    var q, m := a / d, a % d;
    if m == 0 {
      DivModUnique(-a, d, -q, 0);
    } else {
      DivModUnique(-a, d, -q - 1, d - m);
    }
  }

  function Pow2(k: nat): (p: nat)
    ensures p >= 1
  {
    if k == 0 then 1 else 2 * Pow2(k - 1)
  }

  /**
   * `(c >> k) & 0xff` for an integer-valued number `c`: JavaScript first wraps `c`
   * to 32 bits (two's complement) and the mask keeps bits k..k+7, which are the
   * bits k..k+7 of `c` itself for k <= 24.
   */
  function ByteOf(c: int, k: nat): (b: byte)
    requires k <= 24
  {
    (c / Pow2(k)) % 256
  }

  lemma Pow2Values()
    ensures Pow2(0) == 1 && Pow2(8) == 0x100 && Pow2(16) == 0x1_0000 && Pow2(24) == 0x100_0000
  {
  }

  /** `x / d == q` and `x % d == r` when `x == q * d + r` with `0 <= r < d`. */
  lemma DivModUnique(x: int, d: int, q: int, r: int)
    requires d > 0 && 0 <= r < d && x == q * d + r
    ensures x / d == q && x % d == r
  {
    var q', r' := x / d, x % d;
    assert (q' - q) * d == r - r';
    OnlyZeroMultipleIsSmall(q' - q, d);
  }

  lemma OnlyZeroMultipleIsSmall(k: int, d: int)
    requires d > 0 && -d < k * d < d
    ensures k == 0
  {
    if k >= 1 {
      MulAtLeast(k, d);
    } else if k <= -1 {
      MulAtLeast(-k, d);
    }
  }

  lemma {:induction false} MulAtLeast(k: int, d: int)
    requires k >= 1 && d > 0
    ensures k * d >= d
  {
    if k > 1 {
      assert k * d == (k - 1) * d + d;
      MulAtLeast(k - 1, d);
    }
  }

  lemma CastMul(a: int, b: int)
    ensures (a * b) as real == a as real * b as real
  {
  }

  lemma DivLe(e: real, d: real, n: real)
    requires d > 0.0 && d * n <= e
    ensures n <= e / d
  {
    var y := e / d;
    assert y * d == e;
    assert (y - n) * d == e - d * n;
    NonnegFactor(y - n, d);
  }

  lemma DivLt(e: real, d: real, n: real)
    requires d > 0.0 && e < d * n + d
    ensures e / d < n + 1.0
  {
    var y := e / d;
    assert y * d == e;
    assert (n + 1.0 - y) * d == d * n + d - e;
    PositiveFactor(n + 1.0 - y, d);
  }

  lemma MulNonneg(a: real, b: real)
    requires a >= 0.0 && b >= 0.0
    ensures a * b >= 0.0
  {
  }

  lemma PositiveFactor(a: real, d: real)
    requires d > 0.0 && a * d > 0.0
    ensures a > 0.0
  {
  }

  lemma NonnegFactor(a: real, d: real)
    requires d > 0.0 && a * d >= 0.0
    ensures a >= 0.0
  {
  }

  /** Integer division of a positive divisor is the floor of the exact quotient. */
  lemma FloorOfQuotient(e: int, d: int)
    requires d > 0
    ensures Floor(e as real / d as real) == e / d
  {
    var n, m := e / d, e % d;
    CastMul(d, n);
    var E, D, N := e as real, d as real, n as real;
    assert E == D * N + m as real;
    DivLe(E, D, N);
    DivLt(E, D, N);
  }

  lemma HalfShift(p: real, q: real)
    requires q != 0.0
    ensures p / q + 0.5 == (2.0 * p + q) / (2.0 * q)
  {
    var y := p / q;
    assert y * q == p;
    assert (y + 0.5) * (2.0 * q) == 2.0 * p + q;
    QuotientOf(2.0 * p + q, 2.0 * q, y + 0.5);
  }

  lemma QuotientOf(a: real, b: real, z: real)
    requires b != 0.0 && z * b == a
    ensures z == a / b
  {
  }

  /**
   * `Math.round(p / q)` on integers: for a positive q it is `(2p + q) / 2q` in integer
   * division, and a negative q is handled by negating both.
   */
  lemma RoundOfQuotient(p: int, q: int)
    requires q != 0
    ensures q > 0 ==> Round(p as real / q as real) == (2 * p + q) / (2 * q)
    ensures q < 0 ==> Round(p as real / q as real) == (-2 * p - q) / (-2 * q)
  {
    if q > 0 {
      HalfShift(p as real, q as real);
      FloorOfQuotient(2 * p + q, 2 * q);
    } else {
      HalfShift(-p as real, -q as real);
      assert (-p) as real / (-q) as real == p as real / q as real;
      FloorOfQuotient(-2 * p - q, -2 * q);
    }
  }

  /** `Math.round(p / q)` for integers, in integer arithmetic (see `RoundOfQuotient`). */
  function RoundQuotient(p: int, q: int): int
    requires q != 0
  {
    if q > 0 then (2 * p + q) / (2 * q) else (-2 * p - q) / (-2 * q)
  }

  /** `x || 1` for a number: zero (or a missing argument) becomes one. */
  function OrOne(x: int): int { if x == 0 then 1 else x }

  /** Four bytes packed as one unsigned 32-bit number, most significant first. */
  function Pack(a: byte, r: byte, g: byte, b: byte): int {
    a * 0x100_0000 + r * 0x1_0000 + g * 0x100 + b
  }

  /** Shifting and masking recovers each packed byte. */
  lemma UnpackPack(a: byte, r: byte, g: byte, b: byte)
    ensures 0 <= Pack(a, r, g, b) < 0x1_0000_0000
    ensures ByteOf(Pack(a, r, g, b), 24) == a && ByteOf(Pack(a, r, g, b), 16) == r
    ensures ByteOf(Pack(a, r, g, b), 8) == g && ByteOf(Pack(a, r, g, b), 0) == b
  {
    Pow2Values();
    var v := Pack(a, r, g, b);
    DivModUnique(v, 0x100_0000, a, r * 0x1_0000 + g * 0x100 + b);
    DivModUnique(a, 256, 0, a);
    DivModUnique(v, 0x1_0000, a * 0x100 + r, g * 0x100 + b);
    DivModUnique(a * 0x100 + r, 256, a, r);
    DivModUnique(v, 0x100, a * 0x1_0000 + r * 0x100 + g, b);
    DivModUnique(a * 0x1_0000 + r * 0x100 + g, 256, a * 0x100 + r, g);
    DivModUnique(v, 1, v, 0);
    DivModUnique(v, 256, a * 0x1_0000 + r * 0x100 + g, b);
  }

  /** `data[i]` of a byte array used in a shift: out of range it is `undefined`, which shifts as 0. */
  function ByteOr0(data: seq<byte>, i: int): (b: byte)
    ensures 0 <= i < |data| ==> b == data[i]
    ensures !(0 <= i < |data|) ==> b == 0
  {
    if 0 <= i < |data| then data[i] else 0
  }

  /** A JSON value, as stored in a container's meta objects. Numbers are finite reals. */
  datatype Json =
    | JNull
    | JBool(b: bool)
    | JNum(n: real)
    | JStr(s: string)
    | JArr(items: seq<Json>)
    | JObj(members: seq<(string, Json)>)

  /** The truthiness of a JSON value in a JavaScript condition. */
  predicate Truthy(j: Json) {
    match j
    case JNull => false
    case JBool(b) => b
    case JNum(n) => n != 0.0
    case JStr(s) => s != ""
    case JArr(_) => true
    case JObj(_) => true
  }

  /** Property access `j[key]` on a JSON object; `None` stands for `undefined`. */
  function Member(j: Json, key: string): (r: Option<Json>)
    ensures r.Some? ==> j.JObj? && (key, r.value) in j.members
    ensures r.None? && j.JObj? ==> forall m :: m in j.members ==> m.0 != key
  {
    if !j.JObj? then None else FirstWithKey(j.members, key)
  }

  function FirstWithKey(members: seq<(string, Json)>, key: string): (r: Option<Json>)
    ensures r.Some? ==> (key, r.value) in members
    ensures r.None? ==> forall m :: m in members ==> m.0 != key
  {
    if members == [] then None
    else if members[0].0 == key then Some(members[0].1)
    else FirstWithKey(members[1..], key)
  }
}
