/** Words as bit strings, least significant bit first: the order in which JTAG shifts them. */
module Bits {
  import opened Arith

  /** `n >> i` */
  function Shr(n: nat, i: nat): nat {
    if i == 0 then n else Shr(n / 2, i - 1)
  }

  /** `(n >> i) & 1` */
  predicate Bit(n: nat, i: nat) {
    Shr(n, i) % 2 == 1
  }

  function ToBits(n: nat, width: nat): (b: seq<bool>)
    ensures |b| == width
  {
    seq(width, i requires 0 <= i < width => Bit(n, i))
  }

  function Value(b: seq<bool>): nat {
    if b == [] then 0 else (if b[0] then 1 else 0) + 2 * Value(b[1..])
  }

  lemma ToBitsHead(n: nat, width: nat)
    requires width > 0
    ensures ToBits(n, width) == [n % 2 == 1] + ToBits(n / 2, width - 1)
  {
  }

  lemma {:induction false} ToBitsOfValue(b: seq<bool>)
    ensures ToBits(Value(b), |b|) == b
    ensures Value(b) < Pow2(|b|)
  {
    if b != [] {
      ToBitsOfValue(b[1..]);
      ToBitsHead(Value(b), |b|);
      assert b == [b[0]] + b[1..];
    }
  }

  lemma {:induction false} ValueOfAppend(a: seq<bool>, b: seq<bool>)
    ensures Value(a + b) == Value(a) + Pow2(|a|) * Value(b)
  {
    if a == [] {
      assert a + b == b;
    } else {
      ValueOfAppend(a[1..], b);
      assert (a + b)[1..] == a[1..] + b;
      assert 2 * (Pow2(|a| - 1) * Value(b)) == Pow2(|a|) * Value(b);
    }
  }

  /** Fields packed next to each other are shifted one after the other. */
  lemma {:induction false} ToBitsOfPair(x: nat, width: nat, y: nat, more: nat)
    requires x < Pow2(width)
    ensures ToBits(x + Pow2(width) * y, width + more) == ToBits(x, width) + ToBits(y, more)
  {
    if width == 0 {
      assert Pow2(0) * y == y;
      assert x == 0;
      assert ToBits(x + Pow2(width) * y, width + more) == ToBits(y, more);
      assert ToBits(x, width) == [];
    } else {
      var n, half := x + Pow2(width) * y, Pow2(width - 1) * y;
      assert n == x + 2 * half;
      assert n % 2 == x % 2 && n / 2 == x / 2 + half;
      ToBitsOfPair(x / 2, width - 1, y, more);
      ToBitsHead(n, width + more);
      ToBitsHead(x, width);
    }
  }

  /** The low bits of a word are the word modulo a power of two. */
  lemma {:induction false} ValueOfLowBits(n: nat, width: nat)
    ensures Value(ToBits(n, width)) == n % Pow2(width)
  {
    if width == 0 {
      DivMod(n, 1, n, 0);
    } else {
      ValueOfLowBits(n / 2, width - 1);
      ToBitsHead(n, width);
      assert ToBits(n, width)[1..] == ToBits(n / 2, width - 1);
      HalfModulo(n, Pow2(width - 1));
    }
  }

  lemma ValueOfToBits(n: nat, width: nat)
    requires n < Pow2(width)
    ensures Value(ToBits(n, width)) == n
  {
    ValueOfLowBits(n, width);
    DivMod(n, Pow2(width), 0, n);
  }

  lemma HalfModulo(n: nat, m: nat)
    requires m > 0
    ensures n % 2 + 2 * (n / 2 % m) == n % (2 * m)
  {
    var q, r := n / 2 / m, n / 2 % m;
    assert n / 2 == q * m + r;
    assert n == q * (2 * m) + (n % 2 + 2 * r);
    DivMod(n, 2 * m, q, n % 2 + 2 * r);
  }
}
