/** The numbers of the machine: words of 64 bits and floats of 53 significant bits. */
module Numbers {

  predicate InWord(n: int) { -0x8000_0000_0000_0000 <= n < 0x1_0000_0000_0000_0000 }

  predicate IsWhole(x: real) { x.Floor as real == x }

  function Abs(n: int): nat { if n < 0 then -n else n }

  /** How far apart the floats are at an integer. */
  function Gap(n: nat): (g: nat)
    ensures g > 0
  {
    if n <= 0x20_0000_0000_0000 then 1 else 2 * Gap(n / 2)
  }

  predicate HasDouble(n: int) { n % Gap(Abs(n)) == 0 }

  /** What an `i64` or a `u64` holds. */
  type Word = n: int | InWord(n)

  /** What an `f64` holds, as far as integers go; fractions are not rounded. */
  type Double = x: real | IsWhole(x) && InWord(x.Floor) ==> HasDouble(x.Floor)

  /** `as f64` of an integer: the nearest float, and the even one of two. */
  function AsF64(n: int): int {
    var g := Gap(Abs(n));
    var q, r := n / g, n % g;
    if 2 * r < g || (2 * r == g && q % 2 == 0) then q * g else (q + 1) * g
  }

  lemma NearestFloat(n: int)
    ensures AsF64(n) == n <==> HasDouble(n)
    ensures n - Gap(Abs(n)) < AsF64(n) < n + Gap(Abs(n))
    ensures var g, error := Gap(Abs(n)), Abs(AsF64(n) - n);
            2 * error <= g && exists k :: AsF64(n) == k * g && (2 * error == g ==> k % 2 == 0)
  {
    var g := Gap(Abs(n));
    var q := n / g;
    assert n == q * g + n % g && (q + 1) * g == q * g + g;
    var k := if AsF64(n) == q * g then q else q + 1;
    assert AsF64(n) == k * g;
  }

  lemma SmallGap(n: nat)
    requires n <= 0x200_0000_0000_0000
    ensures Gap(n) <= 16
  {
    assert Gap(n / 2 / 2 / 2 / 2) == 1;
    assert Gap(n / 2 / 2 / 2) <= 2;
    assert Gap(n / 2 / 2) <= 4;
    assert Gap(n / 2) <= 8;
  }
}
