// Diffie-Hellman with 64-bit words (lua-crypt.c): powers of 5 modulo 2^64 - 59.

module Crypt {
  import opened Division
  import opened LittleEndian

  const P: nat := 0xffff_ffff_ffff_ffc5
  const G: nat := 5

  type Word = x: int | 0 <= x < TWO64

  /** Arithmetic of 64-bit words wraps. */
  function Add(a: Word, b: Word): Word { (a + b) % TWO64 }

  function Sub(a: Word, b: Word): Word { (a - b) % TWO64 }

  function Double(a: Word): Word { a * 2 % TWO64 }

  function Pow(a: nat, b: nat): nat {
    if b == 0 then 1 else a * Pow(a, b - 1)
  }

  // ---- Congruences ----

  lemma ModUnique(x: int, k: int, r: int)
    requires x == k * P + r && 0 <= r < P
    ensures x % P == r
  {
    DivUnique(x, P, k, r);
  }

  /** Factors may be reduced first. */
  lemma ModFactor(x: nat, y: nat)
    ensures (x % P) * y % P == x * y % P
  {
    var q := x / P;
    assert x == q * P + x % P;
    assert x * y == (q * y) * P + (x % P) * y;
    var z := (x % P) * y;
    assert z == z / P * P + z % P;
    assert x * y == (q * y + z / P) * P + z % P;
    ModUnique(x * y, q * y + z / P, z % P);
  }

  lemma ModFactors(x: nat, y: nat)
    ensures (x % P) * (y % P) % P == x * y % P
  {
    ModFactor(x, y % P);
    assert x * (y % P) == (y % P) * x && x * y == y * x;
    ModFactor(y, x);
  }

  lemma {:induction false} PowAdd(a: nat, m: nat, n: nat)
    ensures Pow(a, m + n) == Pow(a, m) * Pow(a, n)
    decreases m
  {
    if m > 0 {
      PowAdd(a, m - 1, n);
      assert a * (Pow(a, m - 1) * Pow(a, n)) == (a * Pow(a, m - 1)) * Pow(a, n);
    }
  }

  lemma {:induction false} PowMul(a: nat, m: nat, n: nat)
    ensures Pow(Pow(a, m), n) == Pow(a, m * n)
    decreases n
  {
    if n > 0 {
      PowMul(a, m, n - 1);
      assert m * n == m + m * (n - 1);
      PowAdd(a, m, m * (n - 1));
    } else {
      assert m * n == 0;
    }
  }

  /** The base may be reduced first. */
  lemma {:induction false} PowBase(a: nat, b: nat)
    ensures Pow(a % P, b) % P == Pow(a, b) % P
    decreases b
  {
    if b > 0 {
      PowBase(a, b - 1);
      var x, y := Pow(a % P, b - 1), Pow(a, b - 1);
      ModFactors(a % P, x);
      ModFactors(a, y);
      assert (a % P) % P == a % P;
    }
  }

  lemma {:induction false} PowZero(b: nat)
    requires b > 0
    ensures Pow(P, b) % P == 0
  {
    var x := Pow(P, b - 1);
    assert Pow(P, b) == x * P + 0;
    ModUnique(Pow(P, b), x, 0);
  }

  // ---- The three loops and recursions ----

  /** A product by doubling and adding, although doubling wraps: 'mul_mod_p'. */
  method MulModP(a0: Word, b0: Word) returns (m: Word)
    requires a0 <= P
    ensures m == a0 * b0 % P
  {
    var a: Word, b: Word := a0, b0;
    m := 0;
    ghost var k := 0;
    while b > 0
      invariant a <= P && (a == P <==> a0 == P) && m < P
      invariant m + a * b + k * P == a0 * b0
      decreases b
    {
      ghost var m0, a1 := m, a;
      if b % 2 == 1 { m := AddModP(m, a); }
      a := DoubleModP(a);
      k := Halved(m0, a1, b, k, m, a);
      b := b / 2;
    }
    ModUnique(a0 * b0, k, m);
  }

  method AddModP(m: Word, a: Word) returns (r: Word)
    requires m < P && a <= P
    ensures r < P && (r == m + a || r == m + a - P)
  {
    var t := Sub(P, a);
    if m >= t {
      r := Sub(m, t);
    } else {
      r := Add(m, a);
    }
  }

  method DoubleModP(a: Word) returns (r: Word)
    requires a <= P
    ensures r <= P && (r == 2 * a || r == 2 * a - P) && (r == P <==> a == P)
  {
    if a >= Sub(P, a) {
      r := Sub(Double(a), P);
    } else {
      r := Double(a);
    }
  }

  /** A turn of the loop moves multiples of P out of the sum. */
  lemma Halved(m: nat, a: nat, b: nat, k: int, m': nat, a': nat) returns (k': int)
    requires if b % 2 == 1 then m' == m + a || m' == m + a - P else m' == m
    requires a' == 2 * a || a' == 2 * a - P
    ensures m' + a' * (b / 2) + k' * P == m + a * b + k * P
  {
    var h := b / 2;
    assert a * b == (2 * a) * h + a * (b % 2);
    k' := k;
    if m' != m + a * (b % 2) { k' := k' + 1; }
    assert m' + k' * P == m + a * (b % 2) + k * P;
    if a' != 2 * a {
      assert a' * h + h * P == (2 * a) * h;
      assert (k' + h) * P == k' * P + h * P;
      k' := k' + h;
    }
  }

  /** Powers by squaring: 'pow_mod_p'. */
  method PowModP(a: Word, b: Word) returns (r: Word)
    requires a <= P && b > 0
    ensures r == if a == P && b == 1 then P else Pow(a, b) % P
    decreases b
  {
    if b == 1 {
      assert Pow(a, 1) == a * Pow(a, 0);
      return a;
    }
    var t := PowModP(a, b / 2);
    ghost var x := Pow(a, b / 2);
    Squares(a, b);
    if a == P { PowZero(b / 2); }
    t := MulModP(t, t);
    ModFactors(x, x);
    assert t == x * x % P;
    if b % 2 == 1 {
      ModFactor(x * x, a);
      t := MulModP(t, a);
    }
    r := t;
  }

  lemma Squares(a: nat, b: nat)
    ensures Pow(a, b) == if b % 2 == 1 then Pow(a, b / 2) * Pow(a, b / 2) * a else Pow(a, b / 2) * Pow(a, b / 2)
  {
    PowAdd(a, b / 2, b / 2);
    if b % 2 == 1 { PowAdd(a, b / 2 + b / 2, 1); }
  }

  /**
   * 'powmodp': the power modulo P, for all words but one pair. A base equal to P is not reduced, so
   * its first power is P instead of zero.
   */
  method PowMod(a0: Word, b: Word) returns (r: Word)
    requires b > 0
    ensures r == Pow(a0, b) % P <==> !(a0 == P && b == 1)
    ensures a0 == P && b == 1 ==> r == P
    ensures a0 != P ==> r < P
  {
    var a := a0;
    if a > P {
      a := a % P;
      PowBase(a0, b);
    }
    r := PowModP(a, b);
    if a0 == P && b == 1 {
      PowZero(b);
    }
  }

  // ---- Key exchange ----

  /** The number of an eight-byte key. */
  function KeyOf(key: seq<Byte>): (x: Word)
    requires |key| == 8
  {
    FromLowBelow(key);
    Powers();
    FromLow(key)
  }

  /** 'ldhexchange': the public key of a secret exponent; zero is refused. */
  method DhExchange(x: seq<Byte>) returns (ok: bool, r: seq<Byte>)
    ensures ok <==> |x| == 8 && KeyOf(x) != 0
    ensures ok ==> r == Low(Pow(5, KeyOf(x)) % (TWO64 - 59), 8)
  {
    if |x| != 8 { return false, []; }
    var x64 := KeyOf(x);
    if x64 == 0 { return false, []; }
    var p := PowMod(G, x64);
    return true, Low(p, 8);
  }

  /** 'ldhsecret': the shared secret of a public key and an own exponent; zero is refused. */
  method DhSecret(x: seq<Byte>, y: seq<Byte>) returns (ok: bool, r: seq<Byte>)
    ensures ok <==> |x| == 8 && |y| == 8 && KeyOf(x) != 0 && KeyOf(y) != 0
    ensures ok ==> r == Low(if KeyOf(x) == P && KeyOf(y) == 1 then P else Pow(KeyOf(x), KeyOf(y)) % P, 8)
  {
    if |x| != 8 || |y| != 8 { return false, []; }
    var xx, yy := KeyOf(x), KeyOf(y);
    if xx == 0 || yy == 0 { return false, []; }
    var p := PowMod(xx, yy);
    return true, Low(p, 8);
  }

  /** The secret of one side, from the other's public key, is that of the product of the exponents. */
  lemma SecretOf(x: nat, y: nat)
    ensures Pow(Pow(G, x) % P, y) % P == Pow(G, x * y) % P
  {
    PowBase(Pow(G, x), y);
    PowMul(G, x, y);
  }

  // An inverse of the generator modulo P.
  const G_INVERSE: nat := (2 * P + 1) / 5

  /** Public keys are never zero, since the generator has an inverse. */
  lemma {:induction false} PublicNotZero(x: nat)
    ensures Pow(G, x) % P != 0
    decreases x
  {
    if x > 0 {
      PublicNotZero(x - 1);
      var q := Pow(G, x - 1);
      assert Pow(G, x) == G * q;
      assert G * G_INVERSE == 2 * P + 1;
      assert (G * q) * G_INVERSE == (2 * q) * P + q;
      if (G * q) % P == 0 {
        var z := G * q / P;
        assert G * q == z * P;
        assert q == (z * G_INVERSE - 2 * q) * P + 0;
        ModUnique(q, z * G_INVERSE - 2 * q, 0);
      }
    }
  }

  /** What a key says is what the number was. */
  lemma KeyRound(p: nat)
    requires p < P
    ensures KeyOf(Low(p, 8)) == p
  {
    Powers();
    LowRound(p, 8);
  }

  /** Both sides get the same secret, whatever their exponents but zero, and no step refuses. */
  method Agree(x: seq<Byte>, y: seq<Byte>) returns (a: seq<Byte>, b: seq<Byte>)
    requires |x| == 8 && |y| == 8 && KeyOf(x) != 0 && KeyOf(y) != 0
    ensures a == b == Low(Pow(G, KeyOf(x) * KeyOf(y)) % P, 8)
  {
    hide Low, FromLow, KeyOf, Pow;
    var ok1, px := DhExchange(x);
    var ok2, py := DhExchange(y);
    ghost var u, v := Pow(G, KeyOf(x)) % P, Pow(G, KeyOf(y)) % P;
    PublicNotZero(KeyOf(x));
    PublicNotZero(KeyOf(y));
    KeyRound(u);
    KeyRound(v);
    var ok3, ok4;
    ok3, a := DhSecret(py, x);
    ok4, b := DhSecret(px, y);
    SecretOf(KeyOf(x), KeyOf(y));
    SecretOf(KeyOf(y), KeyOf(x));
    assert KeyOf(x) * KeyOf(y) == KeyOf(y) * KeyOf(x);
  }
}
