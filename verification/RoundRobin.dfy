/** The resolver's choice of an address: in turn, by a counter of 64 bits. */
module RoundRobin {

  const WORD := 0x1_0000_0000_0000_0000

  type Word = n: nat | n < WORD witness 0

  datatype Policy = Random | InTurn

  datatype Reply = Address(address: string) | NoAddress

  class Resolver {
    const policy: Policy
    var addresses: seq<string>
    var lbIndex: Word

    constructor (policy: Policy, addresses: seq<string>)
      ensures this.policy == policy && this.addresses == addresses && lbIndex == 0
    {
      this.policy, this.addresses, lbIndex := policy, addresses, 0;
    }

    /** The random number stands for the generator's draw; it is taken below the length. */
    method GetAddress(random: nat) returns (reply: Reply)
      modifies this`lbIndex
      ensures reply.NoAddress? <==> addresses == []
      ensures |addresses| == 1 ==> reply == Address(addresses[0])
      ensures |addresses| > 1 && policy == InTurn ==> reply == Address(addresses[old(lbIndex) % |addresses|])
      ensures |addresses| > 1 && policy == Random ==> reply == Address(addresses[random % |addresses|])
      ensures lbIndex == if |addresses| > 1 && policy == InTurn then (old(lbIndex) + 1) % WORD else old(lbIndex)
    {
      var num := |addresses|;
      if num == 0 {
        return NoAddress;
      }
      if num == 1 {
        return Address(addresses[0]);
      }
      if policy == Random {
        reply := Address(addresses[random % num]);
      } else {
        reply := Address(addresses[lbIndex % num]);
        lbIndex := (lbIndex + 1) % WORD;
      }
    }
  }

  /** The counter after some calls. */
  function IndexAfter(start: Word, calls: nat): Word { (start + calls) % WORD }

  lemma Distribute(a: int, b: int, w: int)
    ensures (a + b) * w == a * w + b * w
  {
  }

  lemma AtLeastOne(a: nat, w: nat)
    requires a > 0
    ensures a * w >= w
  {
    Distribute(a - 1, 1, w);
  }

  /** Quotient and remainder are the only ones. */
  lemma DivIs(x: nat, w: nat, q: nat, r: nat)
    requires r < w && x == q * w + r
    ensures x / w == q && x % w == r
  {
    var p, t := x / w, x % w;
    assert x == p * w + t;
    if p < q {
      Distribute(q - p, p, w);
      AtLeastOne(q - p, w);
    } else if q < p {
      Distribute(p - q, q, w);
      AtLeastOne(p - q, w);
    }
  }

  lemma DivStep(x: nat, n: nat)
    requires n > 0
    ensures (x + 1) % n == if x % n + 1 == n then 0 else x % n + 1
    ensures (x + 1) / n == x / n + if (x + 1) % n == 0 then 1 else 0
  {
    var q, r := x / n, x % n;
    assert x == q * n + r;
    if r + 1 == n {
      Distribute(q, 1, n);
      DivIs(x + 1, n, q + 1, 0);
    } else {
      DivIs(x + 1, n, q, r + 1);
    }
  }

  /** The counter follows the calls one by one. */
  lemma {:induction false} IndexStep(start: Word, calls: nat)
    ensures IndexAfter(start, calls + 1) == (IndexAfter(start, calls) + 1) % WORD
  {
    DivStep(start + calls, WORD);
    DivStep(IndexAfter(start, calls), WORD);
  }

  /** The position in the list the k-th call serves. */
  function Position(start: Word, k: nat, n: nat): nat
    requires n > 0
  {
    IndexAfter(start, k) % n
  }

  /** How many of the first m calls serve position p. */
  function Served(start: Word, m: nat, n: nat, p: nat): nat
    requires n > 0
  {
    if m == 0 then 0 else Served(start, m - 1, n, p) + if Position(start, m - 1, n) == p then 1 else 0
  }

  /** The numbers below x that are p modulo n. */
  function Below(x: nat, n: nat, p: nat): nat
    requires p < n
  {
    (x + (n - 1 - p)) / n
  }

  lemma ShiftedMod(x: nat, n: nat, p: nat)
    requires p < n
    ensures (x + (n - 1 - p) + 1) % n == 0 <==> x % n == p
  {
    var q, r := x / n, x % n;
    assert x == q * n + r;
    if r < p {
      DivIs(x + (n - p), n, q, r + (n - p));
    } else {
      Distribute(q, 1, n);
      DivIs(x + (n - p), n, q + 1, r - p);
    }
  }

  lemma BelowStep(x: nat, n: nat, p: nat)
    requires p < n
    ensures Below(x + 1, n, p) == Below(x, n, p) + if x % n == p then 1 else 0
  {
    ShiftedMod(x, n, p);
    DivStep(x + (n - 1 - p), n);
  }

  /** The counter serves like an unbounded one when it does not wrap in the window, and also when
      it does, if the list's length divides the word. */
  predicate Regular(start: Word, m: nat, n: nat)
    requires n > 0
  {
    start + m <= WORD || WORD % n == 0
  }

  lemma ModOfMod(x: nat, n: nat)
    requires n > 0 && WORD % n == 0
    ensures (x % WORD) % n == x % n
  {
    var q, r, k := x / WORD, x % WORD, WORD / n;
    var a, b := r / n, r % n;
    assert x == q * WORD + r && WORD == k * n && r == a * n + b;
    assert q * (k * n) == (q * k) * n;
    Distribute(q * k, a, n);
    DivIs(x, n, q * k + a, b);
  }

  lemma PositionIs(start: Word, k: nat, n: nat)
    requires n > 0 && Regular(start, k + 1, n)
    ensures Position(start, k, n) == (start + k) % n
  {
    if WORD % n == 0 {
      ModOfMod(start + k, n);
    } else {
      DivIs(start + k, WORD, 0, start + k);
    }
  }

  lemma {:induction false} ServedIsBelow(start: Word, m: nat, n: nat, p: nat)
    requires p < n && Regular(start, m, n)
    ensures Served(start, m, n, p) == Below(start + m, n, p) - Below(start, n, p)
  {
    if m > 0 {
      ServedIsBelow(start, m - 1, n, p);
      PositionIs(start, m - 1, n);
      BelowStep(start + m - 1, n, p);
    }
  }

  lemma SpanParts(z: nat, m: nat, n: nat, q: nat, r: nat, k: nat, s: nat)
    requires r < n && s < n && z == q * n + r && m == k * n + s
    ensures (z + m) / n == q + k + if r + s < n then 0 else 1
  {
    Distribute(q, k, n);
    if r + s < n {
      DivIs(z + m, n, q + k, r + s);
    } else {
      Distribute(q + k, 1, n);
      DivIs(z + m, n, q + k + 1, r + s - n);
    }
  }

  lemma Divided(x: nat, n: nat) returns (q: nat, r: nat)
    requires n > 0
    ensures q == x / n && r == x % n && r < n && x == q * n + r
  {
    q, r := x / n, x % n;
  }

  lemma DivSpan(z: nat, m: nat, n: nat)
    requires n > 0
    ensures m / n <= (z + m) / n - z / n <= m / n + 1
    ensures m % n == 0 ==> (z + m) / n - z / n == m / n
  {
    var q, r := Divided(z, n);
    var k, s := Divided(m, n);
    SpanParts(z, m, n, q, r, k, s);
  }

  /** Any window of calls serves every position within one of every other, and k rounds of the
      list serve each position k times. */
  lemma {:induction false} Fair(start: Word, m: nat, n: nat, p: nat)
    requires p < n && Regular(start, m, n)
    ensures m / n <= Served(start, m, n, p) <= m / n + 1
    ensures m % n == 0 ==> Served(start, m, n, p) == m / n
  {
    ServedIsBelow(start, m, n, p);
    DivSpan(start + (n - 1 - p), m, n);
  }

  /** Where the counter wraps and the length does not divide the word, a position is served
      again too soon. */
  lemma WrapRepeats(n: nat)
    requires 1 < n < WORD && WORD % n != 0
    ensures var p := WORD % n - 1;
            Position(WORD - 1, 0, n) == p && Position(WORD - 1, p + 1, n) == p && p + 1 < n
  {
    var p := WORD % n - 1;
    DivStep(WORD - 1, n);
    DivIs(WORD - 1 + (p + 1), WORD, 1, p);
    DivIs(p, n, 0, p);
  }

  lemma {:induction false} ServedAtLeast(start: Word, m: nat, n: nat, p: nat, i: nat, j: nat)
    requires n > 0 && i < j < m && Position(start, i, n) == p && Position(start, j, n) == p
    ensures Served(start, m, n, p) >= 2
  {
    if j < m - 1 {
      ServedAtLeast(start, m - 1, n, p, i, j);
    } else {
      ServedOnce(start, m - 1, n, p, i);
    }
  }

  lemma {:induction false} ServedOnce(start: Word, m: nat, n: nat, p: nat, i: nat)
    requires n > 0 && i < m && Position(start, i, n) == p
    ensures Served(start, m, n, p) >= 1
  {
    if i < m - 1 {
      ServedOnce(start, m - 1, n, p, i);
    }
  }

  ghost predicate EveryRoundIsFair(n: nat)
    requires n > 0
  {
    forall start: Word, p: nat :: p < n ==> Served(start, n, n, p) == 1
  }

  /** Each round of the list serves each position once from every counter value, the wrap
      included, if and only if the length divides the word. */
  lemma {:induction false} FairExactly(n: nat)
    requires 1 < n < WORD
    ensures EveryRoundIsFair(n) <==> WORD % n == 0
  {
    if WORD % n == 0 {
      forall start: Word, p: nat | p < n ensures Served(start, n, n, p) == 1 {
        Fair(start, n, n, p);
        DivIs(n, n, 1, 0);
      }
    } else {
      var p := WORD % n - 1;
      WrapRepeats(n);
      ServedAtLeast(WORD - 1, n, n, p, 0, p + 1);
    }
  }
}
