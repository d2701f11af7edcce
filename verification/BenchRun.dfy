/** One run of the scheduler benchmark: a self-replenishing population of simulator events. */
module BenchRun {

  /** The simulator's pending event times (every event is the same callback), its clock and stop
      flag, the number of delays drawn so far, and the benchmark's event count. */
  datatype State = State(now: nat, pending: multiset<nat>, stopped: bool, draws: nat, count: nat)

  /** The random stream: the k-th delay, in nanoseconds. */
  type Stream = nat -> nat

  function Schedule(s: State, rand: Stream): State {
    s.(pending := s.pending + multiset{s.now + rand(s.draws)}, draws := s.draws + 1)
  }

  function Populate(s: State, rand: Stream, n: nat): State {
    if n == 0 then s else Schedule(Populate(s, rand, n - 1), rand)
  }

  /** The state in which Simulator::Run starts. */
  function Ready(rand: Stream, population: nat, draws: nat): State {
    Populate(State(0, multiset{}, false, draws, 0), rand, population)
  }

  function Callback(s: State, rand: Stream, total: nat): State {
    if s.count >= total then s.(stopped := true)
    else Schedule(s, rand).(count := s.count + 1)
  }

  predicate IsEarliest(s: State, t: nat) {
    t in s.pending && forall u :: u in s.pending ==> t <= u
  }

  /** The simulator removes an earliest event, moves the clock, and calls back. */
  function Fire(s: State, t: nat, rand: Stream, total: nat): State {
    Callback(s.(now := t, pending := s.pending - multiset{t}), rand, total)
  }

  predicate Finished(s: State) {
    s.stopped || s.pending == multiset{}
  }

  /** `states[i]` is the state after i callbacks; `times[i]` is when callback i ran. Any earliest
      event may be chosen, so this covers every order among equal timestamps. */
  ghost predicate IsExecution(rand: Stream, total: nat, states: seq<State>, times: seq<nat>) {
    && |states| == |times| + 1
    && forall i {:trigger times[i]} :: 0 <= i < |times| ==>
         (!Finished(states[i]) && IsEarliest(states[i], times[i])
          && states[i + 1] == Fire(states[i], times[i], rand, total))
  }

  lemma {:induction false} PopulateCounts(s: State, rand: Stream, n: nat)
    requires s.pending == multiset{} && s.now == 0
    ensures var t := Populate(s, rand, n);
            && |t.pending| == n && t.now == 0 && t.count == s.count && t.stopped == s.stopped
            && t.draws == s.draws + n
  {
    if n > 0 { PopulateCounts(s, rand, n - 1); }
  }

  ghost predicate Holds(s: State, population: nat, total: nat, fired: nat) {
    && (fired <= total ==> !s.stopped && s.count == fired && |s.pending| == population)
    && (fired > total ==> s.stopped && s.count == total && fired == total + 1)
    && forall u :: u in s.pending ==> s.now <= u
  }

  lemma FireKeeps(s: State, t: nat, rand: Stream, population: nat, total: nat, fired: nat)
    requires Holds(s, population, total, fired) && !Finished(s) && IsEarliest(s, t)
    ensures Holds(Fire(s, t, rand, total), population, total, fired + 1)
    ensures s.now <= t == Fire(s, t, rand, total).now
  {
    assert |s.pending - multiset{t}| == |s.pending| - 1;
  }

  lemma {:induction false} HoldsAlways(rand: Stream, population: nat, total: nat, draws: nat,
                                       states: seq<State>, times: seq<nat>, k: nat)
    requires IsExecution(rand, total, states, times) && states[0] == Ready(rand, population, draws) && k < |states|
    requires population > 0
    ensures Holds(states[k], population, total, k)
    ensures k > 0 ==> states[k].now == times[k - 1]
  {
    if k == 0 {
      PopulateCounts(State(0, multiset{}, false, draws, 0), rand, population);
    } else {
      HoldsAlways(rand, population, total, draws, states, times, k - 1);
      assert states[k - 1 + 1] == Fire(states[k - 1], times[k - 1], rand, total);
      FireKeeps(states[k - 1], times[k - 1], rand, population, total, k - 1);
    }
  }

  /** Before each callback exactly `population` events are pending; time never runs backwards; no
      execution has more than total + 1 callbacks. */
  lemma PopulationIsKept(rand: Stream, population: nat, total: nat, draws: nat, states: seq<State>, times: seq<nat>)
    requires IsExecution(rand, total, states, times) && states[0] == Ready(rand, population, draws)
    requires population > 0
    ensures |times| <= total + 1
    ensures forall i :: 0 <= i < |times| ==> |states[i].pending| == population
    ensures forall i, j :: 0 <= i < j < |times| ==> times[i] <= times[j]
  {
    HoldsAlways(rand, population, total, draws, states, times, |times|);
    forall i | 0 <= i < |times| ensures |states[i].pending| == population {
      HoldsAlways(rand, population, total, draws, states, times, i);
    }
    forall i, j | 0 <= i < j < |times| ensures times[i] <= times[j] {
      TimeAdvances(rand, population, total, draws, states, times, i, j);
    }
  }

  lemma {:induction false} TimeAdvances(rand: Stream, population: nat, total: nat, draws: nat,
                                        states: seq<State>, times: seq<nat>, i: nat, j: nat)
    requires IsExecution(rand, total, states, times) && states[0] == Ready(rand, population, draws)
    requires population > 0 && i < j < |times|
    ensures times[i] <= times[j]
    decreases j
  {
    HoldsAlways(rand, population, total, draws, states, times, j);
    if i < j - 1 { TimeAdvances(rand, population, total, draws, states, times, i, j - 1); }
  }

  lemma FirstIsLive(rand: Stream, total: nat, states: seq<State>, times: seq<nat>)
    requires IsExecution(rand, total, states, times)
    ensures |times| > 0 ==> !Finished(states[0])
  {
    if |times| > 0 { var first := times[0]; }
  }

  /** No execution has more than total + 1 callbacks; with an empty population there is none. */
  lemma CallbackBound(rand: Stream, population: nat, total: nat, draws: nat, states: seq<State>, times: seq<nat>)
    requires IsExecution(rand, total, states, times) && states[0] == Ready(rand, population, draws)
    ensures |times| <= if population > 0 then total + 1 else 0
  {
    PopulateCounts(State(0, multiset{}, false, draws, 0), rand, population);
    FirstIsLive(rand, total, states, times);
    if population > 0 {
      HoldsAlways(rand, population, total, draws, states, times, |times|);
    }
  }

  /** Every finished run executed exactly total + 1 callbacks and counted `total` events; with an
      empty population nothing runs at all. */
  lemma FinishedRunCounts(rand: Stream, population: nat, total: nat, draws: nat, states: seq<State>, times: seq<nat>)
    requires IsExecution(rand, total, states, times) && states[0] == Ready(rand, population, draws)
    requires Finished(states[|times|])
    ensures |times| == if population > 0 then total + 1 else 0
    ensures states[|times|].count == if population > 0 then total else 0
  {
    CallbackBound(rand, population, total, draws, states, times);
    if population > 0 {
      HoldsAlways(rand, population, total, draws, states, times, |times|);
    } else {
      PopulateCounts(State(0, multiset{}, false, draws, 0), rand, population);
    }
  }

  // How often a time occurs: among the callbacks run, and as a due time of what was scheduled

  ghost function Ran(times: seq<nat>, k: nat, x: nat): nat
    requires k <= |times|
  {
    if k == 0 then 0 else Ran(times, k - 1, x) + if times[k - 1] == x then 1 else 0
  }

  /** The events scheduled before the run are due at the first `n` delays. */
  ghost function DueFirst(rand: Stream, draws: nat, n: nat, x: nat): nat {
    if n == 0 then 0 else DueFirst(rand, draws, n - 1, x) + if rand(draws + n - 1) == x then 1 else 0
  }

  /** The event scheduled by a callback is due one delay after it. */
  ghost function DueLater(rand: Stream, draws: nat, times: seq<nat>, n: nat, x: nat): nat
    requires n <= |times|
  {
    if n == 0 then 0 else DueLater(rand, draws, times, n - 1, x) + if times[n - 1] + rand(draws + n - 1) == x then 1 else 0
  }

  /** How many of the first `k` callbacks schedule a replacement. */
  ghost function Replaced(total: nat, k: nat): (n: nat)
    ensures n <= k
  {
    if k <= total then k else total
  }

  lemma {:induction false} PopulateIsDue(s: State, rand: Stream, n: nat, x: nat)
    requires s.pending == multiset{} && s.now == 0
    ensures var t := Populate(s, rand, n);
            t.pending[x] == DueFirst(rand, s.draws, n, x) && t.draws == s.draws + n && t.now == 0
  {
    hide Schedule, DueFirst;
    DueFirstNext(rand, s.draws, n, x);
    if n > 0 {
      PopulateIsDue(s, rand, n - 1, x);
      ScheduleAdds(Populate(s, rand, n - 1), rand, x);
    }
  }

  lemma ScheduleAdds(s: State, rand: Stream, x: nat)
    ensures var t := Schedule(s, rand);
            && t.pending[x] == s.pending[x] + (if s.now + rand(s.draws) == x then 1 else 0)
            && t.draws == s.draws + 1 && t.now == s.now
  {
  }

  lemma DueFirstNext(rand: Stream, draws: nat, n: nat, x: nat)
    ensures DueFirst(rand, draws, n, x)
         == if n == 0 then 0 else DueFirst(rand, draws, n - 1, x) + if rand(draws + n - 1) == x then 1 else 0
  {
  }

  lemma StartIsDue(rand: Stream, population: nat, draws: nat, x: nat)
    ensures var s := Ready(rand, population, draws);
            s.pending[x] == DueFirst(rand, draws, population, x) && s.draws == draws + population
  {
    PopulateIsDue(State(0, multiset{}, false, draws, 0), rand, population, x);
  }

  lemma FireMoves(s: State, t: nat, rand: Stream, total: nat, x: nat)
    requires t in s.pending
    ensures var next := Fire(s, t, rand, total);
            && next.pending[x] + (if t == x then 1 else 0)
               == s.pending[x] + (if s.count < total && t + rand(s.draws) == x then 1 else 0)
            && next.draws == s.draws + (if s.count < total then 1 else 0)
  {
  }

  /** No event is lost, invented or moved: after k callbacks, what has run and what is pending is the
      initial population, due at the first delays, and one replacement for each of the first `total`
      callbacks, due one delay after it; the delays are used in the order of the stream. */
  lemma {:induction false} EventsConserved(rand: Stream, population: nat, total: nat, draws: nat,
                                           states: seq<State>, times: seq<nat>, k: nat, x: nat)
    requires IsExecution(rand, total, states, times) && states[0] == Ready(rand, population, draws) && k <= |times|
    requires population > 0
    ensures Ran(times, k, x) + states[k].pending[x]
         == DueFirst(rand, draws, population, x) + DueLater(rand, draws + population, times, Replaced(total, k), x)
    ensures states[k].draws == draws + population + Replaced(total, k)
  {
    hide Fire, Finished, Ready, DueFirst, Holds, IsEarliest;
    if k == 0 {
      StartIsDue(rand, population, draws, x);
    } else {
      EventsConserved(rand, population, total, draws, states, times, k - 1, x);
      HoldsAlways(rand, population, total, draws, states, times, k - 1);
      assert states[k - 1 + 1] == Fire(states[k - 1], times[k - 1], rand, total);
      StillRunning(rand, population, total, states, times, k - 1);
      FireMoves(states[k - 1], times[k - 1], rand, total, x);
    }
  }

  /** The same for a finished run. */
  ghost predicate Accounted(rand: Stream, population: nat, total: nat, draws: nat, times: seq<nat>, pending: multiset<nat>)
  {
    && total <= |times|
    && forall x: nat ::
         Ran(times, |times|, x) + pending[x]
         == DueFirst(rand, draws, population, x) + DueLater(rand, draws + population, times, total, x)
  }

  lemma FinishedIsAccounted(rand: Stream, population: nat, total: nat, draws: nat, states: seq<State>, times: seq<nat>)
    requires |states| == |times| + 1 == total + 2 && population > 0
    requires IsExecution(rand, total, states, times) && states[0] == Ready(rand, population, draws)
    ensures Accounted(rand, population, total, draws, times, states[|times|].pending)
  {
    hide IsExecution, Ready, DueFirst, DueLater, Ran;
    forall x: nat
      ensures Ran(times, |times|, x) + states[|times|].pending[x]
           == DueFirst(rand, draws, population, x) + DueLater(rand, draws + population, times, total, x)
    {
      EventsConserved(rand, population, total, draws, states, times, |times|, x);
    }
  }

  lemma StillRunning(rand: Stream, population: nat, total: nat, states: seq<State>, times: seq<nat>, k: nat)
    requires IsExecution(rand, total, states, times) && k < |times| && Holds(states[k], population, total, k)
    ensures k <= total && states[k].count == k && times[k] in states[k].pending
  {
    var t := times[k];
  }

  lemma ExtendExecution(rand: Stream, total: nat, states: seq<State>, times: seq<nat>, t: nat)
    requires IsExecution(rand, total, states, times)
    requires !Finished(states[|times|]) && IsEarliest(states[|times|], t)
    ensures IsExecution(rand, total, states + [Fire(states[|times|], t, rand, total)], times + [t])
  {
    hide Finished, IsEarliest, Fire;
    var states', times' := states + [Fire(states[|times|], t, rand, total)], times + [t];
    forall i | 0 <= i < |times'|
      ensures !Finished(states'[i]) && IsEarliest(states'[i], times'[i])
      ensures states'[i + 1] == Fire(states'[i], times'[i], rand, total)
    {
      if i < |times| { assert times'[i] == times[i] && states'[i] == states[i] && states'[i + 1] == states[i + 1]; }
    }
  }

  lemma {:induction false} EarliestExists(pending: multiset<nat>) returns (t: nat)
    requires pending != multiset{}
    ensures t in pending && forall u :: u in pending ==> t <= u
    decreases |pending|
  {
    var x :| x in pending;
    var rest := pending - multiset{x};
    if rest == multiset{} {
      t := x;
      assert pending == multiset{x};
    } else {
      var y := EarliestExists(rest);
      t := if x < y then x else y;
      assert forall u :: u in pending ==> u == x || u in rest;
    }
  }

  class Bench {
    const rand: Stream
    const population: nat
    const total: nat
    var now: nat
    var pending: multiset<nat>
    var stopped: bool
    var draws: nat
    var count: nat

    constructor (rand: Stream, population: nat, total: nat)
      ensures this.rand == rand && this.population == population && this.total == total
    {
      this.rand, this.population, this.total := rand, population, total;
      now, pending, stopped, draws, count := 0, multiset{}, false, 0, 0;
    }

    ghost function View(): State reads this {
      State(now, pending, stopped, draws, count)
    }

    method ScheduleCb()
      modifies this
      ensures View() == Schedule(old(View()), rand)
    {
      pending := pending + multiset{now + rand(draws)};
      draws := draws + 1;
    }

    method Cb()
      modifies this
      ensures View() == Callback(old(View()), rand, total)
    {
      if count >= total {
        stopped := true;
        return;
      }
      ScheduleCb();
      count := count + 1;
    }

    /** Simulator::Run takes any earliest event off the queue. */
    method ProcessOneEvent() returns (t: nat)
      requires !Finished(View())
      modifies this
      ensures IsEarliest(old(View()), t) && View() == Fire(old(View()), t, rand, total)
    {
      hide Callback;
      ghost var earliest := EarliestExists(pending);
      t :| t in pending && forall u :: u in pending ==> t <= u;
      now, pending := t, pending - multiset{t};
      Cb();
    }

    /** The history is the sequence of states after each callback; Simulator::Destroy, which drops
        what is still pending, is left out. */
    method Run() returns (events: nat, ghost states: seq<State>, ghost times: seq<nat>)
      modifies this
      ensures IsExecution(rand, total, states, times)
      ensures states[0] == Ready(rand, population, old(draws)) && Finished(states[|times|])
      ensures View() == states[|times|]
      ensures events == if population > 0 then total else 0
      ensures |times| == if population > 0 then total + 1 else 0
      ensures population > 0 ==> Accounted(rand, population, total, old(draws), times, pending)
    {
      count, now, pending, stopped := 0, 0, multiset{}, false;
      for i := 0 to population
        invariant View() == Populate(State(0, multiset{}, false, old(draws), 0), rand, i)
      {
        ScheduleCb();
      }
      states, times := [View()], [];
      assert IsExecution(rand, total, states, times) && states[0] == Ready(rand, population, old(draws));
      hide IsExecution, Ready, Fire, IsEarliest, Accounted;
      while !stopped && pending != multiset{}
        invariant |states| == |times| + 1
        invariant IsExecution(rand, total, states, times) && states[0] == Ready(rand, population, old(draws))
        invariant View() == states[|times|]
        decreases (if population > 0 then total + 1 else 0) - |times|
      {
        CallbackBound(rand, population, total, old(draws), states, times);
        var t := ProcessOneEvent();
        ExtendExecution(rand, total, states, times, t);
        states, times := states + [View()], times + [t];
        CallbackBound(rand, population, total, old(draws), states, times);
      }
      FinishedRunCounts(rand, population, total, old(draws), states, times);
      if population > 0 { FinishedIsAccounted(rand, population, total, old(draws), states, times); }
      return count, states, times;
    }
  }
}
