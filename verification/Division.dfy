/** The little arithmetic that positional notation needs. */
module Division {

  lemma DivideTwice(n: nat, a: nat, b: nat)
    requires a > 0 && b > 0
    ensures a * b > 0 && n / a / b == n / (a * b)
  {
    var m, q := n / a, n / a / b;
    Assoc(a, b, q);
    Distributes(a, b * q, m % b);
    AtLeast(a, b);
    AtLeast(a, b - m % b);
    Distributes(a, b - m % b, m % b);
    Quotient(n, a * b, q, a * (m % b) + n % a);
  }

  lemma Distributes(a: int, x: int, y: int)
    ensures a * (x + y) == a * x + a * y
  {
  }

  lemma AtLeast(m: int, d: int)
    requires m >= 0
    ensures d >= 1 ==> m * d >= m
    ensures d <= -1 ==> m * d <= -m
  {
  }

  lemma Quotient(n: nat, m: nat, q: nat, r: nat)
    requires 0 <= r < m && n == m * q + r
    ensures n / m == q
  {
    Distributes(m, q, -(n / m));
    AtLeast(m, q - n / m);
  }

  lemma Assoc(a: int, b: int, c: int)
    ensures a * (b * c) == (a * b) * c
  {
  }
}
