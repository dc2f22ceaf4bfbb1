/** The checked native integers of the initialization predicate
    (lib/init_pred.ml, `chk_add` and `chk_mul`): a step that leaves the range is
    reported, although it is computed on integers that have already wrapped. */
module CheckedInt {
  import opened Options

  /** OCaml's `max_int`: native integers are 63 bits wide. */
  const EDGE := 0x3FFF_FFFF_FFFF_FFFF
  const MODULUS := 0x8000_0000_0000_0000
  const LIMIT := 0x1000_0000_0000_0000

  predicate Native(v: int) {
    -EDGE - 1 <= v <= EDGE
  }

  type NativeInt = v: int | Native(v)

  /** What a native operation stores. */
  function Wrap(v: int): (r: int)
    ensures Native(r) && (Native(v) ==> r == v)
  {
    var r := v % MODULUS;
    if r > EDGE then r - MODULUS else r
  }

  function Abs(v: int): nat {
    if v < 0 then -v else v
  }

  /** Native division truncates toward zero, and wraps on `min_int / -1`. */
  function Quot(p: int, b: int): int
    requires b != 0
  {
    Signed(Abs(p) / Abs(b), (p < 0) != (b < 0))
  }

  function Signed(q: int, negative: bool): int {
    Wrap(if negative then -q else q)
  }

  function Chk(v: int): Option<NativeInt> {
    if v > EDGE || v < -EDGE then None else Some(v)
  }

  function ChkAdd(a: NativeInt, b: NativeInt): Option<NativeInt> {
    var s := Wrap(a + b);
    if (a >= 0 && b >= 0 && s < 0) || (a < 0 && b < 0 && s >= 0) then None else Chk(s)
  }

  function ChkMul(a: NativeInt, b: NativeInt): Option<NativeInt> {
    if a == 0 || b == 0 then Some(0)
    else
      var p := Wrap(a * b);
      if Quot(p, b) != a || (a == -EDGE - 1 && b == -1) || (b == -EDGE - 1 && a == -1) then None else Chk(p)
  }

  /** The sum is returned exactly when it is in range. */
  lemma {:induction false} ChkAddExact(a: NativeInt, b: NativeInt)
    ensures ChkAdd(a, b) == Chk(a + b)
  {
    var x: int, y: int := a, b;
    assert Native(x) && Native(y);
    assert (x + y) % MODULUS == if x + y >= 0 then x + y else x + y + MODULUS;
  }

  lemma {:induction false} DivOfProduct(x: nat, y: nat)
    requires y > 0
    ensures x * y / y == x
  {
    DivUnique(x * y, y, x, 0);
  }

  lemma {:induction false} MulAtLeast(d: int, y: nat)
    ensures d >= 1 ==> d * y >= y
    ensures d <= -1 ==> d * y <= 0 - y
  {
    assert d * y == (d - 1) * y + y && d * y == (d + 1) * y - y;
  }

  lemma {:induction false} DivUnique(v: int, y: nat, q: int, r: int)
    requires y > 0 && v == q * y + r && 0 <= r < y
    ensures v / y == q
  {
    var d := v / y - q;
    assert v == (v / y) * y + v % y;
    assert d * y == r - v % y;
    MulAtLeast(d, y);
  }

  lemma {:induction false} SignOfProduct(a: int, b: int)
    requires b != 0
    ensures Abs(a * b) == Abs(a) * Abs(b)
    ensures a != 0 ==> ((a * b < 0) == (b < 0) <==> a > 0)
  {
    if a > 0 && b > 0 { assert a * b > 0; }
    else if a > 0 { assert a * -b > 0 && a * b == -(a * -b); }
    else if a < 0 && b > 0 { assert -a * b > 0 && a * b == -(-a * b); }
    else if a < 0 { assert -a * -b > 0 && a * b == -a * -b; }
    else { assert a * b == 0; }
  }

  lemma {:induction false} QuotProduct(a: int, b: int)
    requires b != 0 && Native(a)
    ensures Quot(a * b, b) == a
  {
    SignOfProduct(a, b);
    DivOfProduct(Abs(a), Abs(b));
    SignedIs(Abs(a), (a * b < 0) != (b < 0));
  }

  lemma {:induction false} SmallMultiple(r: int, q: int)
    requires r == MODULUS * q && -MODULUS < r < MODULUS
    ensures r == 0
  {
  }

  lemma {:induction false} WrapDiffers(v: int) returns (d: int)
    ensures Wrap(v) - v == MODULUS * d
  {
    var k := v / MODULUS;
    assert v == MODULUS * k + v % MODULUS;
    d := if v % MODULUS > EDGE then -k - 1 else -k;
  }

  lemma {:induction false} RestBySign(p: int, b: int, q: int, r: int)
    requires q >= 0 && r >= 0 && Abs(p) == q * Abs(b) + r
    ensures Abs(p - (if (p < 0) == (b < 0) then q else -q) * b) == r
  {
    if b < 0 {
      assert q * Abs(b) == -q * b && -q * b == -(q * b);
    } else {
      assert -q * b == -(q * b);
    }
  }

  lemma {:induction false} DoubleAtMost(q: int, y: int)
    requires q >= 0 && y >= 2
    ensures 2 * q <= q * y
  {
    assert q * y == q * (y - 2) + 2 * q;
    assert q * (y - 2) >= 0;
  }

  lemma {:induction false} QuotSize(p: int, b: int, q: int)
    requires Native(p) && b != 0 && !(p == -EDGE - 1 && b == -1) && q == Abs(p) / Abs(b)
    ensures 0 <= q <= EDGE || (q == EDGE + 1 && p < 0 && b > 0)
  {
    var v: int, y: int := Abs(p), Abs(b);
    assert q >= 0;
    assert v == q * y + v % y;
    if y >= 2 {
      DoubleAtMost(q, y);
    } else {
      assert y == 1 && q == v;
    }
  }

  lemma {:induction false} QuotIs(p: int, b: int, q: int)
    requires b != 0 && q == Abs(p) / Abs(b)
    requires 0 <= q <= EDGE || (q == EDGE + 1 && p < 0 && b > 0)
    ensures Quot(p, b) == if (p < 0) == (b < 0) then q else -q
  {
    SignedIs(q, (p < 0) != (b < 0));
  }

  lemma {:induction false} SignedIs(q: int, negative: bool)
    requires 0 <= q <= EDGE || (q == EDGE + 1 && negative)
    ensures Signed(q, negative) == if negative then -q else q
  {
  }

  lemma {:induction false} DivMod(v: int, y: int) returns (q: int, r: int)
    requires v >= 0 && y > 0
    ensures q == v / y && v == q * y + r && 0 <= r < y && q >= 0
  {
    q, r := v / y, v % y;
  }

  /** Truncated division leaves less than the divisor. */
  lemma {:induction false} QuotRest(p: int, b: int)
    requires Native(p) && b != 0 && !(p == -EDGE - 1 && b == -1)
    ensures Abs(p - Quot(p, b) * b) < Abs(b)
  {
    var q, r := DivMod(Abs(p), Abs(b));
    QuotSize(p, b, q);
    QuotIs(p, b, q);
    RestBySign(p, b, q, r);
  }

  /** A quotient that gives back a factor came from the exact product. */
  lemma {:induction false} QuotOfWrap(a: int, b: int)
    requires Native(a) && Native(b) && b != 0
    requires Quot(Wrap(a * b), b) == a && !(a == -EDGE - 1 && b == -1)
    ensures Wrap(a * b) == a * b
  {
    var p := Wrap(a * b);
    assert !(p == -EDGE - 1 && b == -1);
    QuotRest(p, b);
    var d := WrapDiffers(a * b);
    SmallMultiple(p - a * b, d);
  }

  /** The product is returned exactly when it is in range. */
  lemma {:induction false} ChkMulExact(a: NativeInt, b: NativeInt)
    ensures ChkMul(a, b) == Chk(a * b)
  {
    if a != 0 && b != 0 {
      if Chk(a * b).Some? {
        QuotProduct(a, b);
      } else if ChkMul(a, b).Some? {
        QuotOfWrap(a, b);
      }
    }
  }
}
