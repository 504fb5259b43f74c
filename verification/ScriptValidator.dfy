/** The script validator: a coordinator and its workers over unbuffered channels, as interleaved steps. */
module ScriptValidator {
  /** A worker waits at its select, validates an item, offers a result, or has left its loop. */
  datatype Worker = Idle | Busy(item: nat) | Offering(done: nat, ok: bool) | Exited

  datatype Result = Running | Returned(success: bool)

  /** received holds the items whose result the coordinator has taken. */
  datatype State = State(current: nat, received: set<nat>, quit: bool, result: Result, workers: seq<Worker>)

  datatype Step =
    | Dispatch(w: nat)  // the coordinator hands the current item to a waiting worker
    | Work(w: nat)      // a worker finishes validating
    | Receive(w: nat)   // the coordinator takes a result
    | Finish            // the coordinator has all results
    | Quit(w: nat)      // a waiting worker sees the closed quit channel
    | Drop(w: nat)      // a worker gives up offering its result because of the closed quit channel

  /** valid[i] says whether item i validates; the number of items is |valid|. */
  predicate Enabled(s: State, x: Step, valid: seq<bool>) {
    match x
    case Dispatch(w) =>
      s.result.Running? && |s.received| < |valid| && s.current < |valid| && w < |s.workers| && s.workers[w].Idle?
    case Work(w) => w < |s.workers| && s.workers[w].Busy? && s.workers[w].item < |valid|
    case Receive(w) => s.result.Running? && |s.received| < |valid| && w < |s.workers| && s.workers[w].Offering?
    case Finish => s.result.Running? && |s.received| >= |valid|
    case Quit(w) => s.quit && w < |s.workers| && s.workers[w].Idle?
    case Drop(w) => s.quit && w < |s.workers| && s.workers[w].Offering?
  }

  /** After a failed item a worker leaves its loop, otherwise it waits for the next. */
  function After(ok: bool): Worker {
    if ok then Idle else Exited
  }

  function Apply(s: State, x: Step, valid: seq<bool>): State
    requires Enabled(s, x, valid)
  {
    match x
    case Dispatch(w) => s.(workers := s.workers[w := Busy(s.current)], current := s.current + 1)
    case Work(w) => s.(workers := s.workers[w := Offering(s.workers[w].item, valid[s.workers[w].item])])
    case Receive(w) =>
      var o := s.workers[w];
      var t := s.(workers := s.workers[w := After(o.ok)], received := s.received + {o.done});
      if o.ok then t else t.(quit := true, result := Returned(false))
    case Finish => s.(quit := true, result := Returned(true))
    case Quit(w) => s.(workers := s.workers[w := Exited])
    case Drop(w) => s.(workers := s.workers[w := After(s.workers[w].ok)])
  }

  function Start(workers: nat): State {
    State(0, {}, false, Running, seq(workers, _ => Idle))
  }

  predicate Holds(w: Worker, i: nat) {
    (w.Busy? && w.item == i) || (w.Offering? && w.done == i)
  }

  /** Item i is with one of the workers. */
  predicate InHand(s: State, i: nat) {
    exists w :: 0 <= w < |s.workers| && Holds(s.workers[w], i)
  }

  /** Item i was dispatched and its result was not taken. */
  predicate Outstanding(s: State, i: nat) {
    i < s.current && i !in s.received
  }

  /** Items with a worker are dispatched and not received, each with one worker, and results on offer are true. */
  ghost predicate Held(s: State, valid: seq<bool>) {
    && s.current <= |valid| && |s.workers| >= 1
    && (forall i :: i in s.received ==> i < s.current)
    && (forall w, i: nat {:trigger Holds(s.workers[w], i)} ::
          0 <= w < |s.workers| && Holds(s.workers[w], i) ==> Outstanding(s, i))
    && (forall v, w, i: nat :: 0 <= v < |s.workers| && 0 <= w < |s.workers| && v != w && Holds(s.workers[v], i) ==>
          !Holds(s.workers[w], i))
    && (forall w :: 0 <= w < |s.workers| && s.workers[w].Offering? ==>
          s.workers[w].done < |valid| && s.workers[w].ok == valid[s.workers[w].done])
  }

  /** Until the coordinator returns, no worker has left and every dispatched item is with a worker or received. */
  ghost predicate Tracked(s: State, valid: seq<bool>) {
    s.result.Running? ==>
      && (forall w :: 0 <= w < |s.workers| ==> !s.workers[w].Exited?)
      && (forall i: nat :: i < s.current ==> i in s.received || InHand(s, i))
      && (forall i :: i in s.received && i < |valid| ==> valid[i])
  }

  /** Success is returned only for all valid items, failure only when one is invalid. */
  ghost predicate Verdict(s: State, valid: seq<bool>) {
    && s.quit == s.result.Returned?
    && (s.result == Returned(true) ==> forall i :: 0 <= i < |valid| ==> valid[i])
    && (s.result == Returned(false) ==> exists i :: 0 <= i < |valid| && !valid[i])
  }

  ghost predicate Inv(s: State, valid: seq<bool>) {
    Held(s, valid) && Tracked(s, valid) && Verdict(s, valid)
  }

  lemma StartInv(workers: nat, valid: seq<bool>)
    requires workers >= 1
    ensures Inv(Start(workers), valid)
  {
  }

  /** Numbers below n are at most n, and n of them are all of them. */
  lemma {:induction false} CountBelow(a: set<nat>, n: nat)
    requires forall i :: i in a ==> i < n
    ensures |a| <= n
    ensures |a| == n ==> forall i: nat :: i < n ==> i in a
  {
    if n == 0 {
      assert a == {};
    } else {
      var b := a - {n - 1};
      CountBelow(b, n - 1);
      if n - 1 in a {
        assert |a| == |b| + 1;
      } else {
        assert a == b;
      }
    }
  }

  /** Changing one worker keeps every item that another worker has. */
  lemma StillInHand(s: State, w: nat, worker: Worker, i: nat)
    requires w < |s.workers| && InHand(s, i) && (Holds(s.workers[w], i) ==> Holds(worker, i))
    ensures InHand(s.(workers := s.workers[w := worker]), i)
  {
    var v :| 0 <= v < |s.workers| && Holds(s.workers[v], i);
    var t := s.(workers := s.workers[w := worker]);
    assert Holds(t.workers[v], i);
  }

  lemma DispatchInv(s: State, w: nat, valid: seq<bool>)
    requires Inv(s, valid) && Enabled(s, Dispatch(w), valid)
    ensures Inv(Apply(s, Dispatch(w), valid), valid)
  {
    var t := Apply(s, Dispatch(w), valid);
    assert Held(t, valid);
    forall i: nat | i < t.current
      ensures i in t.received || InHand(t, i)
    {
      if i == s.current {
        assert Holds(t.workers[w], i);
      } else if i !in s.received {
        StillInHand(s, w, Busy(s.current), i);
        var v :| 0 <= v < |t.workers| && Holds(t.workers[v], i);
      }
    }
  }

  lemma WorkInv(s: State, w: nat, valid: seq<bool>)
    requires Inv(s, valid) && Enabled(s, Work(w), valid)
    ensures Inv(Apply(s, Work(w), valid), valid)
  {
    var t := Apply(s, Work(w), valid);
    assert forall i: nat :: Holds(t.workers[w], i) <==> Holds(s.workers[w], i);
    assert Held(t, valid);
    forall i: nat | s.result.Running? && i < t.current
      ensures i in t.received || InHand(t, i)
    {
      if i !in s.received {
        StillInHand(s, w, t.workers[w], i);
      }
    }
  }

  lemma ReceiveInv(s: State, w: nat, valid: seq<bool>)
    requires Inv(s, valid) && Enabled(s, Receive(w), valid)
    ensures Inv(Apply(s, Receive(w), valid), valid)
  {
    var t := Apply(s, Receive(w), valid);
    var o := s.workers[w];
    assert Holds(o, o.done);
    assert Held(t, valid);
    forall i: nat | i < t.current
      ensures i in t.received || InHand(t, i)
    {
      if i !in t.received {
        assert !Holds(o, i);
        StillInHand(s, w, After(o.ok), i);
        var v :| 0 <= v < |t.workers| && Holds(t.workers[v], i);
      }
    }
  }

  lemma FinishInv(s: State, valid: seq<bool>)
    requires Inv(s, valid) && Enabled(s, Finish, valid)
    ensures Inv(Apply(s, Finish, valid), valid)
  {
    var t := Apply(s, Finish, valid);
    CountBelow(s.received, |valid|);
    assert Held(t, valid);
  }

  lemma LeaveInv(s: State, x: Step, valid: seq<bool>)
    requires Inv(s, valid) && Enabled(s, x, valid) && (x.Quit? || x.Drop?)
    ensures Inv(Apply(s, x, valid), valid)
  {
    assert Held(Apply(s, x, valid), valid);
  }

  lemma StepInv(s: State, x: Step, valid: seq<bool>)
    requires Inv(s, valid) && Enabled(s, x, valid)
    ensures Inv(Apply(s, x, valid), valid)
  {
    hide Inv, Apply, Enabled;
    match x
    case Dispatch(w) => DispatchInv(s, w, valid);
    case Work(w) => WorkInv(s, w, valid);
    case Receive(w) => ReceiveInv(s, w, valid);
    case Finish => FinishInv(s, valid);
    case Quit(w) => LeaveInv(s, x, valid);
    case Drop(w) => LeaveInv(s, x, valid);
  }

  // ----- every run ends, and ends well

  function Weight(w: Worker): nat {
    match w
    case Idle => 1
    case Busy(_) => 3
    case Offering(_, _) => 2
    case Exited => 0
  }

  function Weights(workers: seq<Worker>): nat {
    if workers == [] then 0 else Weights(workers[..|workers| - 1]) + Weight(workers[|workers| - 1])
  }

  /** What is left to do. */
  function Remaining(s: State, valid: seq<bool>): nat {
    4 * (if s.current < |valid| then |valid| - s.current else 0)
    + Weights(s.workers) + (if s.result.Running? then 1 else 0)
  }

  lemma {:induction false} WeightsUpdate(workers: seq<Worker>, w: nat, worker: Worker)
    requires w < |workers|
    ensures Weights(workers[w := worker]) + Weight(workers[w]) == Weights(workers) + Weight(worker)
  {
    var n := |workers| - 1;
    if w == n {
      assert workers[w := worker][..n] == workers[..n];
    } else {
      WeightsUpdate(workers[..n], w, worker);
      assert workers[w := worker][..n] == workers[..n][w := worker];
    }
  }

  /** Every step leaves less to do. */
  lemma StepShrinks(s: State, x: Step, valid: seq<bool>)
    requires Enabled(s, x, valid)
    ensures Remaining(Apply(s, x, valid), valid) < Remaining(s, valid)
  {
    hide Weights;
    var t := Apply(s, x, valid);
    if !x.Finish? {
      WeightsUpdate(s.workers, x.w, t.workers[x.w]);
    }
  }

  /** While the coordinator runs, some step is possible; after it returned, every worker that is left has one. */
  lemma NoDeadlock(s: State, valid: seq<bool>)
    requires Inv(s, valid)
    ensures s.result.Running? ==> exists x :: Enabled(s, x, valid)
    ensures s.result.Returned? ==>
              forall w :: 0 <= w < |s.workers| && !s.workers[w].Exited? ==>
                exists x :: Enabled(s, x, valid) && !x.Finish? && x.w == w
  {
    forall w: nat | w < |s.workers| && !s.workers[w].Exited?
      ensures s.result.Returned? ==> exists x :: Enabled(s, x, valid) && !x.Finish? && x.w == w
      ensures !s.workers[w].Idle? && |s.received| < |valid| ==> exists x :: Enabled(s, x, valid)
    {
      WorkerCanMove(s, w, valid);
    }
    if s.result.Running? {
      CoordinatorCanMove(s, valid);
    }
  }

  lemma WorkerCanMove(s: State, w: nat, valid: seq<bool>)
    requires Inv(s, valid) && w < |s.workers| && !s.workers[w].Exited?
    ensures s.result.Returned? ==> exists x :: Enabled(s, x, valid) && !x.Finish? && x.w == w
    ensures !s.workers[w].Idle? && |s.received| < |valid| ==> exists x :: Enabled(s, x, valid)
  {
    match s.workers[w]
    case Idle =>
      assert s.quit ==> Enabled(s, Quit(w), valid);
    case Busy(i) =>
      assert Holds(s.workers[w], i);
      assert Enabled(s, Work(w), valid);
    case Offering(_, _) =>
      assert s.quit ==> Enabled(s, Drop(w), valid);
      assert s.result.Running? && |s.received| < |valid| ==> Enabled(s, Receive(w), valid);
  }

  lemma CoordinatorCanMove(s: State, valid: seq<bool>)
    requires Inv(s, valid) && s.result.Running?
    requires forall w :: 0 <= w < |s.workers| && !s.workers[w].Idle? && |s.received| < |valid| ==> exists x :: Enabled(s, x, valid)
    ensures exists x :: Enabled(s, x, valid)
  {
    if |s.received| >= |valid| {
      assert Enabled(s, Finish, valid);
    } else if s.workers[0].Idle? {
      if s.current < |valid| {
        assert Enabled(s, Dispatch(0), valid);
      } else {
        CountBelow(s.received, |valid|);
        SomeMissing(s.received, |valid|);
        var i: nat :| i < |valid| && i !in s.received;
        var w :| 0 <= w < |s.workers| && Holds(s.workers[w], i);
        assert !s.workers[w].Idle?;
      }
    }
  }

  lemma {:induction false} SomeMissing(a: set<nat>, n: nat)
    requires |a| < n
    ensures exists i: nat :: i < n && i !in a
  {
    if n - 1 in a {
      var b := a - {n - 1};
      assert |b| == |a| - 1;
      SomeMissing(b, n - 1);
      var i: nat :| i < n - 1 && i !in b;
      assert i !in a;
    }
  }

  /** The state after a run of steps, each of which is possible where it is taken. */
  ghost predicate IsRun(s: State, run: seq<Step>, valid: seq<bool>)
    decreases |run|
  {
    run == [] || (Enabled(s, run[0], valid) && IsRun(Apply(s, run[0], valid), run[1..], valid))
  }

  ghost function End(s: State, run: seq<Step>, valid: seq<bool>): State
    requires IsRun(s, run, valid)
    decreases |run|
  {
    if run == [] then s else End(Apply(s, run[0], valid), run[1..], valid)
  }

  lemma {:induction false} RunInv(s: State, run: seq<Step>, valid: seq<bool>)
    requires Inv(s, valid) && IsRun(s, run, valid)
    ensures Inv(End(s, run, valid), valid) && |run| + Remaining(End(s, run, valid), valid) <= Remaining(s, valid)
    decreases |run|
  {
    hide Inv, Apply, Enabled, Remaining;
    if run != [] {
      StepInv(s, run[0], valid);
      StepShrinks(s, run[0], valid);
      RunInv(Apply(s, run[0], valid), run[1..], valid);
    }
  }

  /** Every interleaving is finite.  When no step is left the coordinator has returned, every worker has left, and
      the answer is success exactly when every item is valid. */
  lemma EveryRunEnds(workers: nat, run: seq<Step>, valid: seq<bool>)
    requires workers >= 1 && IsRun(Start(workers), run, valid)
    ensures |run| <= Remaining(Start(workers), valid)
    ensures var s := End(Start(workers), run, valid);
            (forall x :: !Enabled(s, x, valid)) ==>
              && s.result == Returned(forall i :: 0 <= i < |valid| ==> valid[i])
              && forall w :: 0 <= w < |s.workers| ==> s.workers[w].Exited?
  {
    StartInv(workers, valid);
    RunInv(Start(workers), run, valid);
    var s := End(Start(workers), run, valid);
    NoDeadlock(s, valid);
    assert s.result == Returned(true) || s.result == Returned(false) || s.result == Running;
  }
}
