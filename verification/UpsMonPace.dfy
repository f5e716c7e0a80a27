// The polling pace upsmon chooses when the OBLBDURATION delay starts (is_ups_critical of
// clients/upsmon.c): the subtraction loop, and what its result is for.
module UpsMonPace {

  /** Counting up from zero in steps of `d` meets `n`. */
  predicate Meets(d: nat, n: nat)
    requires d > 0
  {
    if n < d then n == 0 else Meets(d, n - d)
  }

  /** A pace that meets the smaller number meets the larger one exactly if it meets the difference. */
  lemma {:induction false} MeetsDifference(d: nat, a: nat, b: nat)
    requires d > 0 && b <= a && Meets(d, b)
    ensures Meets(d, a) <==> Meets(d, a - b)
    decreases b
  {
    if b > 0 {
      MeetsDifference(d, a - d, b - d);
    }
  }

  /** The numbers 0, a, 2a, 3a, ... */
  function Times(a: nat, k: nat): nat {
    if k == 0 then 0 else a + Times(a, k - 1)
  }

  lemma {:induction false} MeetsMultiples(d: nat, a: nat, k: nat)
    requires d > 0 && Meets(d, a)
    ensures Meets(d, Times(a, k))
  {
    if k > 0 {
      MeetsMultiples(d, a, k - 1);
      MeetsDifference(d, Times(a, k), a);
    }
  }

  /** A common pace is a pace that meets both numbers. */
  predicate Common(d: nat, a: nat, b: nat) {
    d > 0 && Meets(d, a) && Meets(d, b)
  }

  lemma CommonAfterTurn(a: nat, b: nat, less: nat)
    requires a == b + less
    ensures forall d: nat :: Common(d, a, b) <==> Common(d, less, b)
    ensures forall d: nat :: Common(d, b, a) <==> Common(d, b, less)
  {
    forall d: nat
      ensures Common(d, a, b) <==> Common(d, less, b)
    {
      if d > 0 && Meets(d, b) {
        MeetsDifference(d, a, b);
      }
    }
    assert forall d: nat :: Common(d, a, b) <==> Common(d, b, a);
    assert forall d: nat :: Common(d, less, b) <==> Common(d, b, less);
  }

  /** The pace while the delay runs is the greatest common divisor of POLLFREQALERT, taken as one
      when it is zero, and OBLBDURATION: it is a common pace, and every other divides it. */
  method DelayPace(pollfreqalert: nat, oblbduration: nat) returns (sleepval: nat)
    requires oblbduration > 0
    ensures var alert := if pollfreqalert > 0 then pollfreqalert else 1;
            && Common(sleepval, alert, oblbduration)
            && forall d: nat :: Common(d, alert, oblbduration) ==> Meets(d, sleepval) && d <= sleepval
  {
    var n1 := if pollfreqalert > 0 then pollfreqalert else 1;
    var n2 := oblbduration;
    ghost var alert := n1;
    while n1 != n2
      invariant n1 > 0 && n2 > 0
      invariant forall d: nat :: Common(d, n1, n2) <==> Common(d, alert, oblbduration)
      decreases n1 + n2
    {
      if n1 > n2 {
        CommonAfterTurn(n1, n2, n1 - n2);
        n1 := n1 - n2;
      } else {
        CommonAfterTurn(n2, n1, n2 - n1);
        n2 := n2 - n1;
      }
    }
    assert Common(n1, n1, n2);
    return n1;
  }

  /** Polling at a common pace misses neither the end of the delay nor any moment at which the alert
      pace alone would have polled. */
  lemma CommonPaceMissesNothing(pace: nat, alert: nat, delay: nat, k: nat)
    requires Common(pace, alert, delay)
    ensures Meets(pace, delay) && Meets(pace, Times(alert, k))
  {
    MeetsMultiples(pace, alert, k);
  }
}
