/** How long a failed share waits: store/sqlite.go, `backoffSeconds`, in 64-bit arithmetic. */
module Backoff {

  const WORD := 0x1_0000_0000_0000_0000

  /** The value of a 64-bit signed integer after wrap-around. */
  function Wrap64(x: int): int {
    (x + WORD / 2) % WORD - WORD / 2
  }

  function Pow2(n: nat): nat {
    if n == 0 then 1 else 2 * Pow2(n - 1)
  }

  function Cap(seconds: int): int {
    if seconds > 3600 then 3600 else seconds
  }

  function Doublings(failureCount: nat): nat {
    if failureCount == 0 then 0 else failureCount - 1
  }

  /** The delay recorded with the `failureCount`-th failure, as the loop below computes it. */
  function Delay(failureCount: nat): int {
    Cap(Wrap64(60 * Pow2(Doublings(failureCount))))
  }

  /** The delay the loop is meant to compute. */
  function IdealDelay(failureCount: nat): int {
    Cap(60 * Pow2(Doublings(failureCount)))
  }

  lemma WrapDoubles(x: int)
    ensures Wrap64(2 * Wrap64(x)) == Wrap64(2 * x)
  {
    var k := (x + WORD / 2) / WORD;
    assert Wrap64(x) == x - k * WORD;
    assert 2 * Wrap64(x) + WORD / 2 == (2 * x + WORD / 2) + (-2 * k) * WORD;
    WrapShift(2 * x + WORD / 2, -2 * k);
  }

  lemma WrapShift(y: int, m: int)
    ensures (y + m * WORD) % WORD == y % WORD
  {
    var q, r := y / WORD, y % WORD;
    assert y + m * WORD == (q + m) * WORD + r;
    ModUnique(y + m * WORD, q + m, r);
  }

  lemma ModUnique(z: int, q: int, r: int)
    requires z == q * WORD + r && 0 <= r < WORD
    ensures z % WORD == r
  {
    var d := z / WORD - q;
    assert d * WORD == r - z % WORD;
    assert -WORD < d * WORD < WORD;
    assert d == 0;
  }

  method BackoffSeconds(failureCount: nat) returns (seconds: int)
    ensures seconds == Delay(failureCount)
  {
    seconds := 60;
    var i := 1;
    while i < failureCount
      invariant 1 <= i && (i <= failureCount || i == 1)
      invariant seconds == Wrap64(60 * Pow2(i - 1))
    {
      WrapDoubles(60 * Pow2(i - 1));
      assert 60 * Pow2(i) == 2 * (60 * Pow2(i - 1));
      seconds := Wrap64(seconds * 2);
      i := i + 1;
    }
    return Cap(seconds);
  }

  lemma {:induction false} Pow2Sum(m: nat, n: nat)
    ensures Pow2(m + n) == Pow2(m) * Pow2(n)
  {
    if n > 0 {
      Pow2Sum(m, n - 1);
    }
  }

  lemma PowersByFours(n: nat)
    ensures Pow2(n + 4) == 16 * Pow2(n)
  {
    assert Pow2(n + 4) == 2 * Pow2(n + 3) && Pow2(n + 3) == 2 * Pow2(n + 2) && Pow2(n + 2) == 2 * Pow2(n + 1);
  }

  lemma {:induction false} PowersBySixteens(k: nat, n: nat)
    requires n == 16 * k
    ensures Pow2(n) == if k == 0 then 1 else 0x1_0000 * Pow2(n - 16)
  {
    if k > 0 {
      PowersByFours(n - 16);
      PowersByFours(n - 12);
      PowersByFours(n - 8);
      PowersByFours(n - 4);
    }
  }

  lemma PowerOf48(n: nat)
    requires n == 48
    ensures Pow2(n) == 0x1_0000_0000_0000
  {
    PowersBySixteens(3, n);
    PowersBySixteens(2, n - 16);
    PowersBySixteens(1, n - 32);
    assert Pow2(n - 48) == 1;
  }

  lemma LargePowers()
    ensures Pow2(57) == 0x200_0000_0000_0000
    ensures Pow2(58) == 0x400_0000_0000_0000
    ensures Pow2(62) == 0x4000_0000_0000_0000
  {
    var n := 48;
    PowerOf48(n);
    PowersByFours(n);
    PowersByFours(n + 4);
    PowersByFours(n + 10);
    assert Pow2(n + 10) == 2 * Pow2(n + 9) && Pow2(n + 9) == 2 * Pow2(n + 8);
  }

  /** From the 63rd failure on the doublings have shifted every bit out. */
  lemma AllShiftedOut(n: nat)
    requires n >= 63
    ensures Delay(n) == 0
  {
    Pow2Sum(62, n - 63);
    var k: int := Pow2(n - 63);
    LargePowers();
    assert 60 * Pow2(n - 1) == (15 * k) * WORD;
    WrapShift(WORD / 2, 15 * k);
  }

  lemma {:induction false} Pow2Mono(m: nat, n: nat)
    requires m <= n
    ensures 1 <= Pow2(m) <= Pow2(n)
  {
    if m < n {
      Pow2Mono(m, n - 1);
    } else if m > 0 {
      Pow2Mono(m - 1, n - 1);
    }
  }

  /** The computed delay is min(3600, 60 * 2^(n-1)) up to the 58th failure; after that it is not positive. */
  lemma DelayExact(n: nat)
    ensures Delay(n) == IdealDelay(n) <==> n <= 58
    ensures n <= 58 ==> 60 <= Delay(n) <= 3600
    ensures n > 58 ==> Delay(n) <= 0
  {
    if n <= 58 {
      SmallDelay(n);
    } else if n >= 63 {
      Pow2Mono(0, n - 1);
      AllShiftedOut(n);
    } else {
      Pow2Mono(0, n - 1);
      WrappedDelay(n);
    }
  }

  lemma SmallDelay(n: nat)
    requires n <= 58
    ensures Delay(n) == IdealDelay(n) && 60 <= Delay(n) <= 3600
  {
    LargePowers();
    Pow2Mono(0, Doublings(n));
    Pow2Mono(Doublings(n), 57);
    var x := 60 * Pow2(Doublings(n));
    assert 60 <= x < WORD / 2;
    ModUnique(x + WORD / 2, 0, x + WORD / 2);
  }

  lemma WrappedDelay(n: nat)
    requires 59 <= n <= 62
    ensures Delay(n) < 0
  {
    LargePowers();
    Pow2Sum(58, n - 59);
    assert Pow2(n - 59) == if n == 59 then 1 else if n == 60 then 2 else if n == 61 then 4 else 8;
    assert 60 * Pow2(58) == WORD - WORD / 16;
  }

  /** In seconds: a minute at first, then twice as long each time, an hour from the seventh to the 58th failure. */
  lemma DelayTable(n: nat)
    requires n <= 58
    ensures Delay(n) == if n <= 1 then 60 else if n == 2 then 120 else if n == 3 then 240 else if n == 4 then 480
                        else if n == 5 then 960 else if n == 6 then 1920 else 3600
  {
    SmallDelay(n);
    PowersByFours(0);
    assert Pow2(1) == 2 && Pow2(2) == 4 && Pow2(3) == 8 && Pow2(5) == 32 && Pow2(6) == 64;
    if n >= 7 {
      Pow2Mono(6, n - 1);
    }
  }
}
