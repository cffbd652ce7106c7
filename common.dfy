/**
 * Shared vocabulary of the model: nullable values, results of operations
 * that may fail with an exception, identifiers and Java integer division.
 */
module Common {

  /** A Java reference that may be `null`. */
  datatype Option<T> = None | Some(value: T) {
    function GetOr(default: T): T {
      match this
      case None => default
      case Some(v) => v
    }
  }

  /** The outcome of an operation that returns a value or throws. */
  datatype Result<T, E> = Ok(value: T) | Err(error: E)

  /** Database identifiers (UUID primary keys), compared by value. */
  type Uuid = int

  /** Milliseconds in a second, seconds in a day. */
  const MillisPerSecond := 1000
  const SecondsPerDay := 86400

  function Max(a: int, b: int): (r: int)
    ensures r >= a && r >= b && (r == a || r == b)
  {
    if a >= b then a else b
  }

  function Min(a: int, b: int): (r: int)
    ensures r <= a && r <= b && (r == a || r == b)
  {
    if a <= b then a else b
  }

  /** Java's `/` on `int`: the quotient is truncated toward zero. */
  function JavaDiv(a: int, b: int): int
    requires b != 0
  {
    if a >= 0 then
      (if b > 0 then a / b else -(a / (-b)))
    else
      (if b > 0 then -((-a) / b) else (-a) / (-b))
  }

  /** Java's `%` on `int`: the remainder takes the sign of the dividend. */
  function JavaRem(a: int, b: int): int
    requires b != 0
  {
    a - JavaDiv(a, b) * b
  }

  /** `Math.round` of a double: the nearest integer, halves rounded up. */
  function JavaRound(x: real): (n: int)
    ensures x - 0.5 < n as real <= x + 0.5
  {
    (x + 0.5).Floor
  }

  /** `(double) part / whole * 100`, computed exactly. */
  function Percent(part: int, whole: int): real
    requires whole != 0
  {
    part as real / whole as real * 100.0
  }

  lemma PercentScale(part: int, whole: int)
    requires whole > 0
    ensures Percent(part, whole) * whole as real == part as real * 100.0
  {
  }

  /** A percentage reaches `t` exactly when `100 * part` reaches `t * whole`. */
  lemma PercentAtLeast(part: int, whole: int, t: int)
    requires whole > 0
    ensures Percent(part, whole) >= t as real <==> 100 * part >= t * whole
  {
    var p := Percent(part, whole);
    var w := whole as real;
    var r := t as real;
    assert (100 * part) as real == part as real * 100.0;
    assert (t * whole) as real == r * w;
    PercentScale(part, whole);
    assert (p - r) * w == p * w - r * w;
    if p >= r {
      assert (p - r) * w >= 0.0;
    } else {
      assert (r - p) * w > 0.0;
    }
  }

  /** A part between 0 and the whole gives a percentage between 0 and 100. */
  lemma PercentBounds(part: int, whole: int)
    requires 0 <= part <= whole && whole > 0
    ensures 0.0 <= Percent(part, whole) <= 100.0
  {
    PercentAtLeast(part, whole, 0);
    PercentAtLeast(part, whole, 100);
  }

  /** The position of the first entry with the given id (`List.remove` compares entities by id), or -1. */
  function FirstWithId(ids: seq<Option<Uuid>>, id: Option<Uuid>): (k: int)
    ensures -1 <= k < |ids|
    ensures k >= 0 ==> ids[k] == id && forall j :: 0 <= j < k ==> ids[j] != id
    ensures k == -1 ==> id !in ids
  {
    if ids == [] then -1
    else if ids[0] == id then 0
    else
      var k := FirstWithId(ids[1..], id);
      assert forall j :: 1 <= j < |ids| ==> ids[j] == ids[1..][j - 1];
      if k == -1 then -1 else k + 1
  }
}
