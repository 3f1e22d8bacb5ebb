/** Sums of rewards, accumulated left to right as the `+=` of the source does. */
module Returns {

  function Sum(rewards: seq<real>): real
  {
    if |rewards| == 0 then 0.0
    else Sum(rewards[..|rewards| - 1]) + rewards[|rewards| - 1]
  }

  /** Summing is additive over concatenation. */
  lemma {:induction false} SumAppend(a: seq<real>, b: seq<real>)
    ensures Sum(a + b) == Sum(a) + Sum(b)
  {
    if |b| == 0 {
      assert a + b == a;
    } else {
      assert (a + b)[..|a + b| - 1] == a + b[..|b| - 1];
      SumAppend(a, b[..|b| - 1]);
    }
  }
}
