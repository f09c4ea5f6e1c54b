/** Numbered turns shared out over n positions by remainder: what round-robin selection relies on. */
module Rotation {
  import opened Common

  /** How many of the turns numbered below t fall to position p. */
  function Turns(t: nat, n: nat, p: nat): nat
    requires n > 0
  {
    if t == 0 then 0 else Turns(t - 1, n, p) + if (t - 1) % n == p then 1 else 0
  }

  lemma {:induction false} TurnsAre(t: nat, n: nat, p: nat)
    requires p < n
    ensures Turns(t, n, p) == t / n + if t % n > p then 1 else 0
  {
    if t > 0 {
      TurnsAre(t - 1, n, p);
      NextTurn(t - 1, n);
    }
  }

  lemma NextTurn(t: nat, n: nat)
    requires n > 0
    ensures (t + 1) / n == (if t % n == n - 1 then t / n + 1 else t / n)
    ensures (t + 1) % n == (if t % n == n - 1 then 0 else t % n + 1)
  {
    var q, r := t / n, t % n;
    assert t == q * n + r;
    if r == n - 1 {
      assert t + 1 == (q + 1) * n + 0;
      QuotientIs(t + 1, n, q + 1, 0);
    } else {
      assert t + 1 == q * n + (r + 1);
      QuotientIs(t + 1, n, q, r + 1);
    }
  }

  /** Over any stretch of turns, no position gets more than one turn more than another. */
  lemma FairShare(from: nat, to: nat, n: nat, p: nat, q: nat)
    requires from <= to && p < n && q < n
    ensures var a, b := Turns(to, n, p) - Turns(from, n, p), Turns(to, n, q) - Turns(from, n, q);
            -1 <= a - b <= 1
  {
    TurnsAre(from, n, p);
    TurnsAre(from, n, q);
    TurnsAre(to, n, p);
    TurnsAre(to, n, q);
  }

  /** Any n consecutive turns give each position exactly one. */
  lemma OneRound(from: nat, n: nat, p: nat)
    requires p < n
    ensures Turns(from + n, n, p) == Turns(from, n, p) + 1
  {
    TurnsAre(from, n, p);
    TurnsAre(from + n, n, p);
    RoundLater(from, n);
  }

  lemma RoundLater(t: nat, n: nat)
    requires n > 0
    ensures (t + n) / n == t / n + 1 && (t + n) % n == t % n
  {
    var q, r := t / n, t % n;
    assert t == q * n + r;
    assert (q + 1) * n == q * n + n;
    QuotientIs(t + n, n, q + 1, r);
  }
}
