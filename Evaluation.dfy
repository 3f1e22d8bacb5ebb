/**
 * The averaging done by `eval` in train_expert.py: every step reward of
 * `eval_episodes` evaluation episodes is added into one accumulator, which
 * is then divided by the number of episodes.
 *
 * The environment and the deterministic agent are abstracted into the
 * rewards they produce: `episodes[k]` lists the step rewards of episode k,
 * whose last step is the one on which the environment reported `done`.
 */
module Evaluation {
  import opened Wrappers
  import opened Returns

  /** Sum of the returns of the episodes, episode by episode. */
  function TotalReturn(episodes: seq<seq<real>>): real
  {
    if |episodes| == 0 then 0.0
    else TotalReturn(episodes[..|episodes| - 1]) + Sum(episodes[|episodes| - 1])
  }

  /** All step rewards of all episodes, in the order they were received. */
  function Flatten(episodes: seq<seq<real>>): seq<real>
  {
    if |episodes| == 0 then []
    else Flatten(episodes[..|episodes| - 1]) + episodes[|episodes| - 1]
  }

  /** Grouping by episode does not change the total: it is the sum of every step reward. */
  lemma {:induction false} TotalReturnIsSumOfSteps(episodes: seq<seq<real>>)
    ensures TotalReturn(episodes) == Sum(Flatten(episodes))
  {
    if |episodes| > 0 {
      var prefix := episodes[..|episodes| - 1];
      TotalReturnIsSumOfSteps(prefix);
      SumAppend(Flatten(prefix), episodes[|episodes| - 1]);
    }
  }

  /**
   * `eval`: the nested loops accumulate every reward, then the total is
   * divided by the episode count. With no episode, Python's float division
   * raises ZeroDivisionError, modelled as `None`.
   */
  method Evaluate(episodes: seq<seq<real>>) returns (avg: Option<real>)
    ensures avg.None? <==> |episodes| == 0
    ensures avg.Some? ==> avg.value == Sum(Flatten(episodes)) / (|episodes| as real)
  {
    var total := 0.0;
    for k := 0 to |episodes|
      invariant total == TotalReturn(episodes[..k])
    {
      var episode := episodes[k];
      for j := 0 to |episode|
        invariant total == TotalReturn(episodes[..k]) + Sum(episode[..j])
      {
        SumStep(episode, j);
        total := total + episode[j];
      }
      assert episode[..|episode|] == episode;
      TotalReturnStep(episodes, k);
    }
    assert episodes[..|episodes|] == episodes;
    TotalReturnIsSumOfSteps(episodes);
    if |episodes| == 0 {
      avg := None;
    } else {
      avg := Some(total / (|episodes| as real));
    }
  }

  lemma SumStep(s: seq<real>, j: nat)
    requires j < |s|
    ensures Sum(s[..j + 1]) == Sum(s[..j]) + s[j]
  {
    assert s[..j + 1][..j] == s[..j];
  }

  lemma TotalReturnStep(episodes: seq<seq<real>>, k: nat)
    requires k < |episodes|
    ensures TotalReturn(episodes[..k + 1]) == TotalReturn(episodes[..k]) + Sum(episodes[k])
  {
    assert episodes[..k + 1][..k] == episodes[..k];
  }

  lemma DivCancel(t: real, n: real)
    requires n != 0.0
    ensures t / n * n == t
  {
  }

  /** A total between n times lo and n times hi has its n-th part between lo and hi. */
  lemma MeanBetween(t: real, n: real, lo: real, hi: real)
    requires n > 0.0 && n * lo <= t <= n * hi
    ensures lo <= t / n <= hi
  {
    DivCancel(t, n);
  }

  /** n copies of x added up. */
  function Times(n: nat, x: real): real
  {
    if n == 0 then 0.0 else Times(n - 1, x) + x
  }

  lemma {:induction false} TimesIsProduct(n: nat, x: real)
    ensures Times(n, x) == (n as real) * x
  {
    if n > 0 {
      TimesIsProduct(n - 1, x);
      assert (n as real) * x == ((n - 1) as real) * x + x;
    }
  }

  /** Episode returns within [lo, hi] give a total within n copies of lo and n copies of hi. */
  lemma {:induction false} TotalReturnBounds(episodes: seq<seq<real>>, lo: real, hi: real)
    requires forall k :: 0 <= k < |episodes| ==> lo <= Sum(episodes[k]) <= hi
    ensures Times(|episodes|, lo) <= TotalReturn(episodes) <= Times(|episodes|, hi)
  {
    if |episodes| > 0 {
      var prefix := episodes[..|episodes| - 1];
      assert forall k :: 0 <= k < |prefix| ==> prefix[k] == episodes[k];
      TotalReturnBounds(prefix, lo, hi);
    }
  }

  /**
   * The average lies between the smallest and the largest episode return:
   * it is the mean per-episode return.
   */
  lemma {:induction false} AverageWithinEpisodeReturns(episodes: seq<seq<real>>, lo: real, hi: real)
    requires |episodes| > 0
    requires forall k :: 0 <= k < |episodes| ==> lo <= Sum(episodes[k]) <= hi
    ensures lo <= TotalReturn(episodes) / (|episodes| as real) <= hi
  {
    var n := |episodes|;
    TotalReturnBounds(episodes, lo, hi);
    TimesIsProduct(n, lo);
    TimesIsProduct(n, hi);
    MeanBetween(TotalReturn(episodes), n as real, lo, hi);
  }
}
