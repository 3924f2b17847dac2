/** Remainders of sums. */
module Remainders {
  lemma Scales(a: nat, b: nat, n: nat)
    requires a < b
    ensures a * n + n <= b * n
  {
    var more := b - a - 1;
    assert b == a + 1 + more;
    assert (a + 1 + more) * n == a * n + n + more * n;
  }

  lemma UniqueRemainder(a: nat, n: nat, q: nat, r: nat)
    requires r < n && a == q * n + r
    ensures a % n == r
  {
    var quotient, rest := a / n, a % n;
    assert a == quotient * n + rest;
    if q < quotient {
      Scales(q, quotient, n);
    } else if q > quotient {
      Scales(quotient, q, n);
    }
  }

  lemma ModSums(a: nat, b: nat, n: nat)
    requires b < n
    ensures (a + b) % n == if a % n + b < n then a % n + b else a % n + b - n
  {
    var q, r := a / n, a % n;
    if r + b < n {
      UniqueRemainder(a + b, n, q, r + b);
    } else {
      UniqueRemainder(a + b, n, q + 1, r + b - n);
    }
  }

  lemma ModAbsorbs(a: nat, b: nat, n: nat)
    requires n > 0
    ensures (a % n + b) % n == (a + b) % n
  {
    var q, quotient, rest := a / n, (a % n + b) / n, (a % n + b) % n;
    UniqueRemainder(a + b, n, q + quotient, rest);
  }

  lemma MultiplesDrop(a: nat, wrap: nat, n: nat)
    requires 0 < n && wrap <= a && wrap % n == 0
    ensures (a - wrap) % n == a % n
  {
    var laps, q, r := wrap / n, (a - wrap) / n, (a - wrap) % n;
    UniqueRemainder(a, n, laps + q, r);
  }

  /** Short of a wrapping counter's limit by no more than its remainder. */
  lemma BelowTheWrap(wrap: nat, less: nat, n: nat)
    requires 0 < n && less <= wrap % n
    ensures less <= wrap && (wrap - less) % n == wrap % n - less
  {
    UniqueRemainder(wrap - less, n, wrap / n, wrap % n - less);
  }

  /** Where a counter stands after some steps that take it at most once past its limit. */
  lemma AfterWrap(counter: nat, steps: nat, wrap: nat)
    requires counter + steps < 2 * wrap
    ensures (counter + steps) % wrap == if counter + steps < wrap then counter + steps else counter + steps - wrap
  {
    var sum := counter + steps;
    UniqueRemainder(sum, wrap, if sum < wrap then 0 else 1, if sum < wrap then sum else sum - wrap);
  }

  /** When a counter wraps unevenly within `n` steps, two of them leave it with the same remainder. */
  lemma UnevenWrapRepeats(counter: nat, wrap: nat, n: nat) returns (step: nat, other: nat)
    requires counter < wrap < counter + n && n <= wrap && wrap % n != 0
    ensures step < other < n && (counter + step) % wrap % n == (counter + other) % wrap % n
  {
    var first, rest := wrap - counter, wrap % n;
    if rest <= first {
      step, other := first - rest, first;
      BelowTheWrap(wrap, rest, n);
    } else {
      step, other := 0, rest;
      BelowTheWrap(wrap, first, n);
    }
    AfterWrap(counter, step, wrap);
    AfterWrap(counter, other, wrap);
    UniqueRemainder(other - first, n, 0, other - first);
  }
}
