/** The summary lines of the scheduler benchmark: average and spread of six measurements over all
    runs, accumulated in one pass. */
module BenchSuite {
  import opened Common
  import opened Statistics

  datatype Phase = Phase(time: real, rate: real, period: real)

  datatype Result = Result(init: Phase, run: Phase)

  datatype Field = InitTime | InitRate | InitPeriod | RunTime | RunRate | RunPeriod

  function Get(r: Result, f: Field): real {
    match f
    case InitTime => r.init.time
    case InitRate => r.init.rate
    case InitPeriod => r.init.period
    case RunTime => r.run.time
    case RunRate => r.run.rate
    case RunPeriod => r.run.period
  }

  /** The samples of one field, run by run. */
  ghost function Column(results: seq<Result>, f: Field): (xs: seq<real>)
    ensures |xs| == |results| && forall i :: 0 <= i < |xs| ==> xs[i] == Get(results[i], f)
  {
    seq(|results|, i requires 0 <= i < |results| => Get(results[i], f))
  }

  const ZERO := Result(Phase(0.0, 0.0, 0.0), Phase(0.0, 0.0, 0.0))

  /** The six ACCUMULATE lines for one run. */
  method AccumulateRun(run: Result, average: Result, moment2: Result, count: nat) returns (a: Result, m: Result)
    requires count > 0
    ensures forall f: Field :: (Get(a, f), Get(m, f)) == Accumulate(Get(run, f), Get(average, f), Get(moment2, f), count)
  {
    hide Accumulate;
    var (it, itm) := Accumulate(run.init.time, average.init.time, moment2.init.time, count);
    var (ir, irm) := Accumulate(run.init.rate, average.init.rate, moment2.init.rate, count);
    var (ip, ipm) := Accumulate(run.init.period, average.init.period, moment2.init.period, count);
    var (rt, rtm) := Accumulate(run.run.time, average.run.time, moment2.run.time, count);
    var (rr, rrm) := Accumulate(run.run.rate, average.run.rate, moment2.run.rate, count);
    var (rp, rpm) := Accumulate(run.run.period, average.run.period, moment2.run.period, count);
    a := Result(Phase(it, ir, ip), Phase(rt, rr, rp));
    m := Result(Phase(itm, irm, ipm), Phase(rtm, rrm, rpm));
  }

  /** BenchSuite::Log: nothing for fewer than two runs, else the average and the second moment of
      every field; the program prints the square root of moment2 / n as the standard deviation. */
  method Log(results: seq<Result>) returns (r: Option<(Result, Result)>)
    ensures r.None? <==> |results| < 2
    ensures r.Some? ==> forall f: Field ::
              (Get(r.value.0, f) == Mean(Column(results, f))
               && Get(r.value.1, f) == Deviation(Column(results, f), Mean(Column(results, f)))
               && Get(r.value.1, f) >= 0.0)
  {
    hide Accumulate, Mean, Deviation, Get;
    if |results| < 2 {
      return None;
    }
    var average, moment2 := results[0], ZERO;
    assert forall f: Field :: Tracks(Column(results[..0], f), Get(average, f), Get(moment2, f)) by {
      forall f: Field ensures Tracks(Column(results[..0], f), Get(average, f), Get(moment2, f)) {
        ZeroMoment(f);
      }
    }
    hide Tracks;
    for n := 0 to |results|
      invariant forall f: Field :: Tracks(Column(results[..n], f), Get(average, f), Get(moment2, f))
    {
      ghost var oldAverage, oldMoment2 := average, moment2;
      average, moment2 := AccumulateRun(results[n], average, moment2, n + 1);
      forall f: Field ensures Tracks(Column(results[..n + 1], f), Get(average, f), Get(moment2, f)) {
        var xs := Column(results[..n], f);
        AccumulateTracks(xs, Get(results[n], f), Get(oldAverage, f), Get(oldMoment2, f));
        assert Column(results[..n + 1], f) == xs + [Get(results[n], f)];
      }
    }
    assert results[..|results|] == results;
    forall f: Field
      ensures Get(average, f) == Mean(Column(results, f))
      ensures Get(moment2, f) == Deviation(Column(results, f), Mean(Column(results, f))) && Get(moment2, f) >= 0.0
    {
      TracksMeans(Column(results, f), Get(average, f), Get(moment2, f));
    }
    return Some((average, moment2));
  }

  lemma ZeroMoment(f: Field)
    ensures Get(ZERO, f) == 0.0
  {
  }

  lemma TracksMeans(xs: seq<real>, average: real, moment2: real)
    requires xs != [] && Tracks(xs, average, moment2)
    ensures average == Mean(xs) && moment2 == Deviation(xs, Mean(xs)) && moment2 >= 0.0
  {
    DeviationExpands(xs, Mean(xs));
  }
}
