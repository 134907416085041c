/** The windowed minimum filter (src/minmax.rs): three estimates in place of the whole
    history of samples. */
module WindowedMin {
  datatype Sample = Sample(time: int, value: int)

  /** The filter as a value: best, second best and third best estimate. */
  datatype Estimates = Estimates(e0: Sample, e1: Sample, e2: Sample)

  function Reset(s: Sample): Estimates {
    Estimates(s, s, s)
  }

  /** The part of `running_min` before the estimates are aged. */
  function Take(f: Estimates, s: Sample): Estimates {
    if s.value <= f.e1.value then Estimates(f.e0, s, s)
    else if s.value <= f.e2.value then f.(e2 := s)
    else f
  }

  /** `subwin_update`. `quarter` and `half` are the float divisions of the window by 4 and
      2; nothing below depends on how they are rounded. */
  function Age(f: Estimates, win: int, quarter: int, half: int, s: Sample): Estimates {
    var delta := s.time - f.e0.time;
    if delta > win then
      var g := Estimates(f.e1, f.e2, s);
      if s.time - g.e0.time > win then Estimates(g.e1, g.e2, s) else g
    else if f.e1.time == f.e0.time && delta > quarter then Estimates(f.e0, s, s)
    else if f.e2.time == f.e1.time && delta > half then f.(e2 := s)
    else f
  }

  function RunningMin(f: Estimates, win: int, quarter: int, half: int, s: Sample): Estimates {
    if s.value <= f.e0.value || s.time - f.e2.time > win then Reset(s)
    else Age(Take(f, s), win, quarter, half, s)
  }

  // ---------- against the full history ----------

  ghost predicate InOrder(history: seq<Sample>) {
    forall i, j :: 0 <= i <= j < |history| ==> history[i].time <= history[j].time
  }

  /** Estimate `e` is sample `i` of the history and a lower bound of all samples since. */
  ghost predicate Estimate(e: Sample, history: seq<Sample>, i: nat) {
    && i < |history| && history[i] == e
    && forall j :: i <= j < |history| ==> e.value <= history[j].value
  }

  /** The estimates are samples `at[0] <= at[1] <= at[2]`, with values in order. */
  ghost predicate Tracks(f: Estimates, history: seq<Sample>, a: nat, b: nat, c: nat) {
    && InOrder(history) && a <= b <= c
    && Estimate(f.e0, history, a) && Estimate(f.e1, history, b) && Estimate(f.e2, history, c)
    && f.e0.value <= f.e1.value <= f.e2.value
  }

  lemma EstimateStays(e: Sample, history: seq<Sample>, i: nat, s: Sample)
    requires Estimate(e, history, i) && e.value <= s.value
    ensures Estimate(e, history + [s], i)
  {
  }

  lemma EstimateNew(history: seq<Sample>, s: Sample)
    ensures Estimate(s, history + [s], |history|)
  {
  }

  /** One call of `running_min`: the estimates stay ordered lower bounds, and the result
      is a sample from within the window. */
  lemma RunningMinTracks(f: Estimates, history: seq<Sample>, a: nat, b: nat, c: nat,
                         win: nat, quarter: int, half: int, s: Sample)
    returns (a': nat, b': nat, c': nat)
    requires Tracks(f, history, a, b, c) && InOrder(history + [s])
    ensures var g := RunningMin(f, win, quarter, half, s);
            && Tracks(g, history + [s], a', b', c')
            && s.time - win <= g.e0.time <= s.time
  {
    var n := |history|;
    EstimateNew(history, s);
    assert (history + [s])[c] == f.e2 && f.e2.time <= s.time;
    if s.value <= f.e0.value || s.time - f.e2.time > win {
      a', b', c' := n, n, n;
    } else {
      EstimateStays(f.e0, history, a, s);
      var t := Take(f, s);
      var b1 := if s.value <= f.e1.value then n else b;
      var c1 := if s.value <= f.e2.value then n else c;
      if s.value > f.e1.value {
        EstimateStays(f.e1, history, b, s);
        if s.value > f.e2.value {
          EstimateStays(f.e2, history, c, s);
        }
      }
      assert Tracks(t, history + [s], a, b1, c1);
      a', b', c' := AgeTracks(t, history + [s], a, b1, c1, win, quarter, half, s);
    }
  }

  lemma AgeTracks(t: Estimates, history: seq<Sample>, a: nat, b: nat, c: nat,
                  win: nat, quarter: int, half: int, s: Sample)
    returns (a': nat, b': nat, c': nat)
    requires Tracks(t, history, a, b, c) && Estimate(s, history, |history| - 1)
    requires t.e2.value <= s.value && s.time - t.e2.time <= win
    ensures var g := Age(t, win, quarter, half, s);
            && Tracks(g, history, a', b', c')
            && s.time - win <= g.e0.time <= s.time
  {
    var n := |history| - 1;
    var delta := s.time - t.e0.time;
    if delta > win {
      if s.time - t.e1.time > win {
        a', b', c' := c, n, n;
      } else {
        a', b', c' := b, c, n;
      }
    } else if t.e1.time == t.e0.time && delta > quarter {
      a', b', c' := a, n, n;
    } else if t.e2.time == t.e1.time && delta > half {
      a', b', c' := a, b, n;
    } else {
      a', b', c' := a, b, c;
    }
  }

  /** Which estimates a call replaces: all of them at a new minimum or after a gap of a whole
      window. Otherwise the best estimate stays as long as it is in the window; the second and the third one
      become the sample when it is no larger than they are, or when a quarter, respectively
      half, of the window went by and they still date from the one before them. Behind the
      window they move up, lowered to the sample where that is smaller, and it comes last. */
  lemma AgeOutcome(f: Estimates, win: nat, quarter: nat, half: nat, s: Sample)
    requires f.e0.time <= f.e1.time <= f.e2.time <= s.time && f.e0.value <= f.e1.value <= f.e2.value
    ensures s.value <= f.e0.value || s.time - f.e2.time > win ==>
              var g := RunningMin(f, win, quarter, half, s); g.e0 == g.e1 == g.e2 == s
    ensures var g, age := RunningMin(f, win, quarter, half, s), s.time - f.e0.time;
            f.e0.value < s.value && s.time - f.e2.time <= win && age <= win ==>
              var second := s.value <= f.e1.value || (f.e1.time == f.e0.time && age > quarter);
              var third := s.value <= f.e2.value || (f.e2.time == f.e1.time && age > half);
              && g.e0 == f.e0
              && g.e1 == (if second then s else f.e1)
              && g.e2 == if second || third then s else f.e2
    ensures var g := RunningMin(f, win, quarter, half, s);
            var e1, e2 := if s.value <= f.e1.value then s else f.e1, if s.value <= f.e2.value then s else f.e2;
            f.e0.value < s.value && s.time - f.e2.time <= win && s.time - f.e0.time > win ==>
              && g.e2 == s
              && (if s.time - e1.time > win then g.e0 == e2 && g.e1 == s else g.e0 == e1 && g.e1 == e2)
  {
  }

  /** A run: the first sample resets the filter, every later one updates it. Windows and
      thresholds may change from call to call. */
  datatype Call = Call(win: nat, quarter: int, half: int, sample: Sample)

  function Filter(first: Sample, calls: seq<Call>): Estimates {
    if calls == [] then Reset(first)
    else
      var k := |calls| - 1;
      RunningMin(Filter(first, calls[..k]), calls[k].win, calls[k].quarter, calls[k].half, calls[k].sample)
  }

  function History(first: Sample, calls: seq<Call>): seq<Sample> {
    [first] + seq(|calls|, i requires 0 <= i < |calls| => calls[i].sample)
  }

  lemma {:induction false} FilterTracks(first: Sample, calls: seq<Call>) returns (a: nat, b: nat, c: nat)
    requires InOrder(History(first, calls))
    ensures Tracks(Filter(first, calls), History(first, calls), a, b, c)
    ensures calls != [] ==>
              var call := calls[|calls| - 1];
              var m := Filter(first, calls).e0;
              call.sample.time - call.win <= m.time <= call.sample.time
  {
    if calls == [] {
      a, b, c := 0, 0, 0;
    } else {
      var k := |calls| - 1;
      var before := calls[..k];
      assert History(first, calls) == History(first, before) + [calls[k].sample];
      assert forall i :: 0 <= i < |History(first, before)| ==> History(first, before)[i] == History(first, calls)[i];
      var x, y, z := FilterTracks(first, before);
      a, b, c := RunningMinTracks(Filter(first, before), History(first, before), x, y, z,
                                  calls[k].win, calls[k].quarter, calls[k].half, calls[k].sample);
    }
  }

  ghost predicate InWindow(s: Sample, call: Call) {
    call.sample.time - call.win <= s.time
  }

  /** The result of the last call is a sample from within its window, at most every sample
      since; so it is never below the window's minimum. */
  lemma ResultAgainstWindow(first: Sample, calls: seq<Call>)
    requires calls != [] && InOrder(History(first, calls))
    ensures var h, call, m := History(first, calls), calls[|calls| - 1], Filter(first, calls).e0;
            && m in h && InWindow(m, call)
            && (forall s :: s in h && s.time > m.time ==> m.value <= s.value)
  {
    var h, m := History(first, calls), Filter(first, calls).e0;
    var a, b, c := FilterTracks(first, calls);
    forall s | s in h && s.time > m.time
      ensures m.value <= s.value
    {
      var j :| 0 <= j < |h| && h[j] == s;
      assert a <= j;
    }
  }

  /** The estimate that the next call makes the best one: the new sample if it is at most
      the best estimate or comes after a gap of a whole window; else the best estimate for
      as long as it is in the window; else the next one that is, each of them lowered to
      the new sample where that is smaller. */
  function Next(f: Estimates, win: int, s: Sample): Sample {
    if s.value <= f.e0.value || s.time - f.e2.time > win then s
    else if s.time - f.e0.time <= win then f.e0
    else if s.value <= f.e1.value then s
    else if s.time - f.e1.time <= win then f.e1
    else if s.value <= f.e2.value then s
    else f.e2
  }

  lemma NextIsResult(f: Estimates, win: nat, quarter: int, half: int, s: Sample)
    requires f.e0.value <= f.e1.value <= f.e2.value && f.e0.time <= f.e1.time <= f.e2.time <= s.time
    ensures RunningMin(f, win, quarter, half, s).e0 == Next(f, win, s)
  {
  }

  /** Exactly when the filter returns the minimum of its window, in terms of the state before
      the call: no sample of the window up to the estimate that becomes the best one is
      smaller than it. Later samples never matter. */
  lemma {:induction false} MinimumIff(first: Sample, calls: seq<Call>, call: Call)
    requires InOrder(History(first, calls + [call]))
    ensures var h, n := History(first, calls + [call]), Next(Filter(first, calls), call.win, call.sample);
            && Filter(first, calls + [call]).e0 == n
            && ((forall s :: s in h && InWindow(s, call) ==> n.value <= s.value)
                <==> forall s :: s in h && InWindow(s, call) && s.time <= n.time ==> n.value <= s.value)
  {
    var all := calls + [call];
    var h, h0, f := History(first, all), History(first, calls), Filter(first, calls);
    assert all[..|calls|] == calls;
    assert h == h0 + [call.sample];
    assert forall i :: 0 <= i < |h0| ==> h0[i] == h[i];
    var a, b, c := FilterTracks(first, calls);
    assert h[c] == f.e2 && h[|h0|] == call.sample;
    NextIsResult(f, call.win, call.quarter, call.half, call.sample);
    ResultAgainstWindow(first, all);
  }

  /** The three estimates are ordered in time and in value at every point of a run. */
  lemma EstimatesOrdered(first: Sample, calls: seq<Call>)
    requires InOrder(History(first, calls))
    ensures var f := Filter(first, calls);
            && f.e0.time <= f.e1.time <= f.e2.time
            && f.e0.value <= f.e1.value <= f.e2.value
  {
    var a, b, c := FilterTracks(first, calls);
  }

  /** The filter is not the exact minimum: a sample that was never an estimate can still be
      in the window when the best estimate leaves it. */
  lemma MinimumMissed()
    ensures var w := (s: Sample) => Call(100, 25, 50, s);
            var calls := [w(Sample(1, 2)), w(Sample(30, 5)), w(Sample(101, 20))];
            && InOrder(History(Sample(0, 1), calls))
            && InWindow(Sample(1, 2), calls[2]) && Sample(1, 2) in History(Sample(0, 1), calls)
            && Filter(Sample(0, 1), calls).e0 == Sample(30, 5)
  {
    var w := (s: Sample) => Call(100, 25, 50, s);
    var c1, c2, c3 := w(Sample(1, 2)), w(Sample(30, 5)), w(Sample(101, 20));
    var first := Sample(0, 1);
    assert Filter(first, []) == Reset(first);
    assert [c1][..0] == [] && [c1, c2][..1] == [c1] && [c1, c2, c3][..2] == [c1, c2];
    assert Filter(first, [c1]) == Reset(first);
    assert Filter(first, [c1, c2]) == Estimates(first, Sample(30, 5), Sample(30, 5));
    assert History(first, [c1, c2, c3])[1] == Sample(1, 2);
  }

  // ---------- the filter that is updated in place ----------

  class Minmax {
    const estimate: array<Sample>

    ghost predicate Valid()
      reads this
    {
      estimate.Length == 3
    }

    ghost function State(): Estimates
      requires Valid()
      reads this, estimate
    {
      Estimates(estimate[0], estimate[1], estimate[2])
    }

    constructor (now: int)
      ensures Valid() && fresh(estimate) && State() == Reset(Sample(now, 0))
    {
      estimate := new Sample[3](_ => Sample(now, 0));
    }

    method ResetAll(time: int, meas: int) returns (r: int)
      requires Valid()
      modifies estimate
      ensures State() == Reset(Sample(time, meas)) && r == meas
    {
      var val := Sample(time, meas);
      for i := 0 to estimate.Length
        invariant forall j :: 0 <= j < i ==> estimate[j] == val
      {
        estimate[i] := val;
      }
      r := estimate[0].value;
    }

    method Update(win: nat, quarter: int, half: int, time: int, meas: int) returns (r: int)
      requires Valid()
      modifies estimate
      ensures State() == RunningMin(old(State()), win, quarter, half, Sample(time, meas)) && r == State().e0.value
    {
      var val := Sample(time, meas);
      var delta := time - estimate[2].time;
      if val.value <= estimate[0].value || delta > win {
        r := ResetAll(time, meas);
        return;
      }
      if val.value <= estimate[1].value {
        estimate[2] := val;
        estimate[1] := val;
      } else if val.value <= estimate[2].value {
        estimate[2] := val;
      }
      r := SubwinUpdate(win, quarter, half, time, meas);
    }

    method SubwinUpdate(win: nat, quarter: int, half: int, time: int, meas: int) returns (r: int)
      requires Valid()
      modifies estimate
      ensures State() == Age(old(State()), win, quarter, half, Sample(time, meas)) && r == State().e0.value
    {
      var val := Sample(time, meas);
      var delta := time - estimate[0].time;
      if delta > win {
        estimate[0] := estimate[1];
        estimate[1] := estimate[2];
        estimate[2] := val;
        if time - estimate[0].time > win {
          estimate[0] := estimate[1];
          estimate[1] := estimate[2];
          estimate[2] := val;
        }
      } else if estimate[1].time == estimate[0].time && delta > quarter {
        estimate[2] := val;
        estimate[1] := val;
      } else if estimate[2].time == estimate[1].time && delta > half {
        estimate[2] := val;
      }
      r := estimate[0].value;
    }
  }
}
