/** The integer conversions a typed array applies when a number is stored into it
    (`Int8Array.from`, ..., `Uint32Array.from`): ToInt8, ToUint8, ToInt16, ToUint16, ToInt32
    and ToUint32 of ECMA-262 (6th edition), sections 7.1.5 to 7.1.10, on integral numbers. */
module TypedArrays {
  import opened Types

  /** 2 to the power of the width. */
  function Modulus(w: Width): (m: nat)
    ensures m == 256 || m == 65536 || m == 0x1_0000_0000
  {
    match w
    case W8 => 256
    case W16 => 65536
    case W32 => 0x1_0000_0000
  }

  /** The values a typed array of this signedness and width can hold. */
  predicate InRange(signed: bool, w: Width, x: int) {
    if signed then -(Modulus(w) / 2) <= x < Modulus(w) / 2 else 0 <= x < Modulus(w)
  }

  /** The conversion: the integer modulo 2^width, moved down by 2^width when it lands in the
      upper half and the target is signed. The result is in range and congruent to the input. */
  function Wrap(signed: bool, w: Width, x: int): (r: int)
    ensures InRange(signed, w, r)
    ensures (r - x) % Modulus(w) == 0
  {
    var m := x % Modulus(w);
    ModuloCongruent(x, Modulus(w));
    if signed && m >= Modulus(w) / 2 then m - Modulus(w) else m
  }

  /** `x % m` and `x % m - m` differ from `x` by multiples of `m`. */
  lemma ModuloCongruent(x: int, m: int)
    requires m > 0
    ensures (x % m - x) % m == 0 && (x % m - m - x) % m == 0
  {
    var q := x / m;
    var r := x % m;
    assert x == m * q + r;
    MultipleModulo(r - x, m, -q);
    MultipleModulo(r - m - x, m, -q - 1);
  }

  /** A multiple of `m` leaves no remainder. */
  lemma MultipleModulo(y: int, m: int, k: int)
    requires m > 0 && y == m * k
    ensures y % m == 0
  {
    var q, r := y / m, y % m;
    assert y == m * q + r && 0 <= r < m;
    assert m * (k - q) == r;
    MultipleBounds(m, k - q);
  }

  /** A value already in range is stored unchanged. */
  lemma WrapIdentity(signed: bool, w: Width, x: int)
    requires InRange(signed, w, x)
    ensures Wrap(signed, w, x) == x
  {
  }

  /** Two in-range values that are congruent modulo 2^width are equal. */
  lemma InRangeCongruentEqual(signed: bool, w: Width, x: int, y: int)
    requires InRange(signed, w, x) && InRange(signed, w, y)
    requires (x - y) % Modulus(w) == 0
    ensures x == y
  {
    var m := Modulus(w);
    var d := x - y;
    assert -m < d < m;
    assert d == m * (d / m) + d % m;
    MultipleBounds(m, d / m);
  }

  /** Wrap is the one in-range value congruent to its input: inputs that agree modulo
      2^width are stored as the same value. */
  lemma WrapCongruent(signed: bool, w: Width, x: int, y: int)
    requires (x - y) % Modulus(w) == 0
    ensures Wrap(signed, w, x) == Wrap(signed, w, y)
  {
    var m := Modulus(w);
    var a, b := Wrap(signed, w, x), Wrap(signed, w, y);
    assert (a - x) % m == 0 && (b - y) % m == 0;
    Divisible3(a - x, x - y, y - b, m);
    assert (a - x) + (x - y) + (y - b) == a - b;
    InRangeCongruentEqual(signed, w, a, b);
  }

  lemma Divisible3(p: int, q: int, r: int, m: int)
    requires m > 0
    requires p % m == 0 && q % m == 0 && (-r) % m == 0
    ensures (p + q + r) % m == 0
  {
    assert p == m * (p / m);
    assert q == m * (q / m);
    assert -r == m * ((-r) / m);
    var k := p / m + q / m - (-r) / m;
    assert p + q + r == m * k;
    MultipleMod(m, k);
  }

  lemma MultipleMod(m: int, k: int)
    requires m > 0
    ensures (m * k) % m == 0
  {
    var x := m * k;
    var j := k - x / m;
    assert x == m * (x / m) + x % m;
    assert m * j == m * k - m * (x / m);
    assert m * j == x % m;
    MultipleBounds(m, j);
  }

  lemma MultipleBounds(m: int, j: int)
    requires m > 0
    ensures j >= 1 ==> m * j >= m
    ensures j <= -1 ==> m * j <= -m
    ensures j == 0 ==> m * j == 0
  {
  }

  /** Storing into a narrower (or equally wide) array after a wider one gives the same value as
      storing into the narrower array directly. */
  lemma WrapNarrowing(s1: bool, w1: Width, s2: bool, w2: Width, x: int)
    requires Modulus(w2) <= Modulus(w1)
    ensures Wrap(s2, w2, Wrap(s1, w1, x)) == Wrap(s2, w2, x)
  {
    var m1, m2 := Modulus(w1), Modulus(w2);
    var d := Wrap(s1, w1, x) - x;
    assert d % m1 == 0;
    assert m1 % m2 == 0;
    var c := m1 / m2;
    assert m1 == m2 * c;
    assert d == m1 * (d / m1);
    assert d == m2 * (c * (d / m1));
    MultipleMod(m2, c * (d / m1));
    WrapCongruent(s2, w2, Wrap(s1, w1, x), x);
  }
}
