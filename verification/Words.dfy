/** Machine words of the Go source, modelled as bounded integers with explicit wrap-around. */
module Words {

  const U16_SIZE: int := 0x1_0000
  const U32_SIZE: int := 0x1_0000_0000

  type Byte = x: int | 0 <= x < 256
  type U16 = x: int | 0 <= x < 0x1_0000
  type U32 = x: int | 0 <= x < 0x1_0000_0000

  datatype Option<+T> = None | Some(value: T)

  /** `uint16` arithmetic: the value reduced modulo 2^16. */
  function Wrap16(x: int): U16 {
    x % U16_SIZE
  }

  /** `uint32` arithmetic: the value reduced modulo 2^32. */
  function Wrap32(x: int): U32 {
    x % U32_SIZE
  }

  function Max(a: int, b: int): int {
    if a < b then b else a
  }

  function Min(a: int, b: int): int {
    if a > b then b else a
  }

  /** The concatenation of a sequence of sequences. */
  function Flatten<T>(parts: seq<seq<T>>): seq<T> {
    if parts == [] then [] else parts[0] + Flatten(parts[1..])
  }

  lemma Associative<T>(a: seq<T>, b: seq<T>, c: seq<T>)
    ensures (a + b) + c == a + (b + c)
  {
  }

  lemma {:induction false} FlattenAppend<T>(xs: seq<seq<T>>, ys: seq<seq<T>>)
    ensures Flatten(xs + ys) == Flatten(xs) + Flatten(ys)
  {
    if xs == [] {
      assert xs + ys == ys;
    } else {
      assert (xs + ys)[1..] == xs[1..] + ys;
      FlattenAppend(xs[1..], ys);
    }
  }

  lemma FlattenSnoc<T>(xs: seq<seq<T>>, y: seq<T>)
    ensures Flatten(xs + [y]) == Flatten(xs) + y
  {
    FlattenAppend(xs, [y]);
    assert Flatten([y]) == y + Flatten([]);
  }

  /** Adding before or after a reduction modulo 2^32 is the same. */
  lemma WrapAdd32(x: int, y: int)
    ensures Wrap32(Wrap32(x) + y) == Wrap32(x + y)
  {
    var q := x / U32_SIZE;
    assert x == q * U32_SIZE + x % U32_SIZE;
    var r := x % U32_SIZE + y;
    assert x + y == q * U32_SIZE + r;
    ModShift(r, q, U32_SIZE);
  }

  lemma WrapAdd16(x: int, y: int)
    ensures Wrap16(Wrap16(x) + y) == Wrap16(x + y)
  {
    var q := x / U16_SIZE;
    assert x == q * U16_SIZE + x % U16_SIZE;
    var r := x % U16_SIZE + y;
    assert x + y == q * U16_SIZE + r;
    ModShift(r, q, U16_SIZE);
  }

  /** A multiple of the modulus does not change the remainder. */
  lemma ModShift(r: int, q: int, m: int)
    requires m > 0
    ensures (q * m + r) % m == r % m
  {
    var a := (q * m + r) / m;
    var b := r / m;
    assert q * m + r == a * m + (q * m + r) % m;
    assert r == b * m + r % m;
    var d := q + b - a;
    assert d * m == (q * m + r) % m - r % m by {
      assert d * m == q * m + b * m - a * m;
    }
    assert d > 0 ==> d * m >= m;
    assert d < 0 ==> d * m <= -m;
  }

  /** Division is the only quotient with a remainder in range. */
  lemma DivUnique(x: int, q: int, r: int, m: int)
    requires m > 0 && x == q * m + r && 0 <= r < m
    ensures x / m == q
  {
    var a := x / m;
    var d := a - q;
    assert d * m == r - x % m by {
      assert x == a * m + x % m;
      assert d * m == a * m - q * m;
    }
    assert d > 0 ==> d * m >= m;
    assert d < 0 ==> d * m <= -m;
  }

  lemma MulMono(a: int, b: int, m: nat)
    requires a <= b
    ensures a * m <= b * m
  {
  }

  lemma SubsetSize<T>(a: set<T>, b: set<T>)
    requires a <= b
    ensures |a| <= |b|
  {
    assert b == a + (b - a);
  }
}
