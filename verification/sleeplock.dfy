/** Sleep locks (kernel/util/sleeplock.c), one memory access per step, for any number of tasks and
    locks.  A task that finds the lock taken sleeps on it with no spin lock; each release wakes every
    task asleep on the lock at that moment. */
module SleepLocks {
  import opened Base

  datatype SleepLock = SleepLock(locked: bool, task: Option<nat>, owner: Option<nat>)  // owner: history

  datatype Stage =
    | Idle
    | GetTest(l: nat) | GetTest2(l: nat)  // sleep_holding at the start of sleep_get
    | Try(l: nat)                         // about to test-and-set
    | Doze(l: nat)                        // lost the test-and-set, about to sleep
    | Asleep(l: nat)
    | Claim(l: nat)                       // locked is ours, task not yet written
    | PutTest(l: nat) | PutTest2(l: nat)  // sleep_holding at the start of sleep_put
    | Drop(l: nat) | Open(l: nat)         // about to clear task; about to clear locked
    | Wake(l: nat)

  datatype Sys = Sys(stages: seq<Stage>, locks: seq<SleepLock>, inside: seq<set<nat>>)  // inside: history

  datatype Req = Get(l: nat) | Put(l: nat) | Work

  // ---------------------------------------------------------------- steps

  predicate Fits(s: Sys) {
    |s.inside| == |s.stages|
  }

  function At(s: Sys, t: nat, g: Stage): Sys
    requires t < |s.stages|
  {
    s.(stages := s.stages[t := g])
  }

  /** The stage after wakeup(lock). */
  function Woken(g: Stage, l: nat): Stage {
    if g == Asleep(l) then Try(l) else g
  }

  function Do(s: Sys, t: nat, r: Req): Outcome<Sys>
    requires Fits(s) && t < |s.stages|
  {
    var g := s.stages[t];
    if g.Idle? then
      match r
      case Get(l) => Ok(if l < |s.locks| then At(s, t, GetTest(l)) else s)
      case Put(l) => Ok(if l < |s.locks| then At(s, t, PutTest(l)) else s)
      case Work => Ok(s)
    else if g.l >= |s.locks| then Panic
    else
      var k := s.locks[g.l];
      match g
      case Idle => Ok(s)
      case GetTest(l) => Ok(At(s, t, if k.locked then GetTest2(l) else Try(l)))
      case GetTest2(l) => if k.task == Some(t) then Panic else Ok(At(s, t, Try(l)))
      case Try(l) =>
        if k.locked then Ok(At(s, t, Doze(l)))
        else Ok(At(s, t, Claim(l)).(locks := s.locks[l := k.(locked := true, owner := Some(t))],
                                    inside := s.inside[t := s.inside[t] + {l}]))
      case Doze(l) => Ok(At(s, t, Asleep(l)))
      case Asleep(l) => Ok(s)
      case Claim(l) => Ok(At(s, t, Idle).(locks := s.locks[l := k.(task := Some(t))]))
      case PutTest(l) => if k.locked then Ok(At(s, t, PutTest2(l))) else Panic
      case PutTest2(l) => if k.task == Some(t) then Ok(At(s, t, Drop(l))) else Panic
      case Drop(l) => Ok(At(s, t, Open(l)).(locks := s.locks[l := k.(task := None)]))
      case Open(l) => Ok(At(s, t, Wake(l)).(locks := s.locks[l := k.(locked := false, owner := None)],
                                           inside := s.inside[t := s.inside[t] - {l}]))
      case Wake(l) =>
        Ok(s.(stages := seq(|s.stages|, u requires 0 <= u < |s.stages| => if u == t then Idle else Woken(s.stages[u], l))))
  }

  // ---------------------------------------------------------------- invariant

  ghost predicate LockOk(s: Sys, l: nat)
    requires Fits(s) && l < |s.locks|
  {
    var k := s.locks[l];
    && (k.locked <==> k.owner.Some?)
    && (k.owner.Some? ==> k.owner.value < |s.stages|)
    && (forall t :: 0 <= t < |s.stages| ==> (l in s.inside[t] <==> k.owner == Some(t)))
    && (k.task.Some? ==> k.task == k.owner && s.stages[k.task.value] != Claim(l) && s.stages[k.task.value] != Open(l))
    && (k.owner.Some? && k.task.None? ==> s.stages[k.owner.value] == Claim(l) || s.stages[k.owner.value] == Open(l))
  }

  ghost predicate TaskOk(s: Sys, t: nat)
    requires Fits(s) && t < |s.stages|
  {
    var g := s.stages[t];
    && (g.Idle? || g.l < |s.locks|)
    && (forall l :: l in s.inside[t] ==> l < |s.locks|)
    && (g.Claim? || g.Drop? || g.Open? ==> g.l in s.inside[t])
    && (g.Try? || g.Doze? || g.Asleep? || g.Wake? ==> g.l !in s.inside[t])
  }

  ghost predicate Inv(s: Sys) {
    && Fits(s)
    && (forall l :: 0 <= l < |s.locks| ==> LockOk(s, l))
    && (forall t :: 0 <= t < |s.stages| ==> TaskOk(s, t))
  }

  lemma DoKeepsLock(s: Sys, t: nat, r: Req, l: nat)
    requires Inv(s) && t < |s.stages| && Do(s, t, r).Ok? && l < |s.locks|
    ensures var s' := Do(s, t, r).value;
      Fits(s') && |s'.locks| == |s.locks| && |s'.stages| == |s.stages| && LockOk(s', l)
  {
    assert LockOk(s, l) && TaskOk(s, t);
    if !s.stages[t].Idle? { assert LockOk(s, s.stages[t].l); }
  }

  lemma DoKeepsTask(s: Sys, t: nat, r: Req, u: nat)
    requires Inv(s) && t < |s.stages| && Do(s, t, r).Ok? && u < |s.stages|
    ensures var s' := Do(s, t, r).value;
      Fits(s') && |s'.locks| == |s.locks| && |s'.stages| == |s.stages| && TaskOk(s', u)
  {
    assert TaskOk(s, u) && TaskOk(s, t);
    if !s.stages[t].Idle? { assert LockOk(s, s.stages[t].l); }
  }

  lemma DoKeeps(s: Sys, t: nat, r: Req)
    requires Inv(s) && t < |s.stages| && Do(s, t, r).Ok?
    ensures Inv(Do(s, t, r).value)
  {
    DoKeepsTask(s, t, r, t);
    var s' := Do(s, t, r).value;
    forall l | 0 <= l < |s.locks| ensures LockOk(s', l) { DoKeepsLock(s, t, r, l); }
    forall u | 0 <= u < |s.stages| ensures TaskOk(s', u) { DoKeepsTask(s, t, r, u); }
  }

  // ---------------------------------------------------------------- runs

  ghost predicate Init(s: Sys) {
    && Fits(s)
    && (forall l :: 0 <= l < |s.locks| ==> s.locks[l] == SleepLock(false, None, None))
    && (forall t :: 0 <= t < |s.stages| ==> s.stages[t] == Idle && s.inside[t] == {})
  }

  function Run(s: Sys, steps: seq<(nat, Req)>): Outcome<Sys> {
    if steps == [] then Ok(s)
    else
      var r, a := Run(s, steps[..|steps| - 1]), steps[|steps| - 1];
      if r.Ok? && Fits(r.value) && a.0 < |r.value.stages| then Do(r.value, a.0, a.1) else r
  }

  lemma {:induction false} EveryRun(s: Sys, steps: seq<(nat, Req)>)
    requires Init(s) && Run(s, steps).Ok?
    ensures Inv(Run(s, steps).value)
  {
    if steps != [] {
      EveryRun(s, steps[..|steps| - 1]);
      var r, a := Run(s, steps[..|steps| - 1]), steps[|steps| - 1];
      if a.0 < |r.value.stages| { DoKeeps(r.value, a.0, a.1); }
    }
  }

  /** No two tasks are inside the same lock, in any interleaving. */
  lemma MutualExclusion(s0: Sys, steps: seq<(nat, Req)>, s: Sys, t: nat, u: nat)
    requires Init(s0) && Run(s0, steps) == Ok(s) && t < |s.inside| && u < |s.inside| && t != u
    ensures s.inside[t] !! s.inside[u]
  {
    EveryRun(s0, steps);
    forall l | l in s.inside[t] ensures l !in s.inside[u] {
      assert TaskOk(s, t);
      assert LockOk(s, l);
    }
  }

  /** sleep_holding is exact outside the two stores, and it alone decides the panics: a task panics
      exactly when it gets a lock it is inside of, or puts one it is not. */
  lemma HoldingIsOwning(s0: Sys, steps: seq<(nat, Req)>, s: Sys, t: nat, l: nat)
    requires Init(s0) && Run(s0, steps) == Ok(s) && t < |s.stages| == |s.inside| && l < |s.locks|
    requires s.stages[t] != Claim(l) && s.stages[t] != Open(l)
    ensures (s.locks[l].locked && s.locks[l].task == Some(t)) <==> l in s.inside[t]
    ensures s.stages[t] == GetTest2(l) ==> forall r :: Do(s, t, r).Panic? <==> l in s.inside[t]
    ensures s.stages[t] == PutTest2(l) ==> forall r :: Do(s, t, r).Panic? <==> l !in s.inside[t]
    ensures s.stages[t] == PutTest(l) ==> forall r :: Do(s, t, r).Panic? ==> l !in s.inside[t]
  {
    EveryRun(s0, steps);
    assert LockOk(s, l) && TaskOk(s, t);
  }

  // ---------------------------------------------------------------- wakeups

  predicate IsAt(s: Sys, t: nat, g: Stage) {
    t < |s.stages| && s.stages[t] == g
  }

  predicate IsFree(s: Sys, l: nat) {
    l < |s.locks| && !s.locks[l].locked
  }

  ghost predicate WakeDue(s: Sys, l: nat) {
    exists u: nat :: IsAt(s, u, Wake(l))
  }

  /** Whoever found lock l taken, asleep or about to be, still has a release or a wakeup ahead. */
  ghost predicate Attended(s: Sys, l: nat) {
    forall t: nat :: IsAt(s, t, Doze(l)) || IsAt(s, t, Asleep(l)) ==> !IsFree(s, l) || WakeDue(s, l)
  }

  /** Task t is the last to wake the sleepers of the free lock l while another task is between its
      test-and-set and its sleep. */
  ghost predicate Misses(s: Sys, t: nat, l: nat) {
    && IsAt(s, t, Wake(l)) && IsFree(s, l)
    && (forall u: nat :: IsAt(s, u, Wake(l)) ==> u == t)
    && exists u: nat :: IsAt(s, u, Doze(l))
  }

  /** A task asleep is woken by a wakeup of its lock, and by nothing else. */
  lemma WokenExactly(s: Sys, t: nat, r: Req, u: nat, l: nat)
    requires Inv(s) && t < |s.stages| && Do(s, t, r).Ok? && IsAt(s, u, Asleep(l))
    ensures !IsAt(Do(s, t, r).value, u, Asleep(l)) <==> IsAt(s, t, Wake(l))
    ensures IsAt(s, t, Wake(l)) ==> IsAt(Do(s, t, r).value, u, Try(l))
  {
    assert TaskOk(s, t) && TaskOk(s, u);
  }

  lemma StillDue(s: Sys, t: nat, r: Req, l: nat)
    requires Inv(s) && t < |s.stages| && l < |s.locks| && Do(s, t, r).Ok?
    requires !IsAt(s, t, Wake(l)) && (!IsFree(s, l) || WakeDue(s, l))
    ensures !IsFree(Do(s, t, r).value, l) || WakeDue(Do(s, t, r).value, l)
  {
    var s' := Do(s, t, r).value;
    assert TaskOk(s, t);
    if IsFree(s', l) {
      if IsFree(s, l) {
        var u: nat :| IsAt(s, u, Wake(l));
        assert IsAt(s', u, Wake(l));
      } else {
        assert IsAt(s', t, Wake(l));
      }
    }
  }

  lemma WakeAttends(s: Sys, t: nat, r: Req, l: nat)
    requires Inv(s) && l < |s.locks| && Attended(s, l) && IsAt(s, t, Wake(l))
    ensures Do(s, t, r).Ok?
    ensures Attended(Do(s, t, r).value, l) <==> !Misses(s, t, l)
  {
    var s' := Do(s, t, r).value;
    assert forall u: nat :: IsAt(s', u, Wake(l)) <==> u != t && IsAt(s, u, Wake(l));
    assert forall u: nat :: IsAt(s', u, Doze(l)) <==> IsAt(s, u, Doze(l));
    assert forall u: nat :: !IsAt(s', u, Asleep(l));
    assert IsFree(s', l) <==> IsFree(s, l);
  }

  /** No one is left behind by a step exactly unless it is a wakeup that misses a task. */
  lemma StepAttends(s: Sys, t: nat, r: Req, l: nat)
    requires Inv(s) && t < |s.stages| && l < |s.locks| && Attended(s, l) && Do(s, t, r).Ok?
    ensures Attended(Do(s, t, r).value, l) <==> !Misses(s, t, l)
  {
    var s' := Do(s, t, r).value;
    if IsAt(s, t, Wake(l)) {
      WakeAttends(s, t, r, l);
    } else if !IsFree(s, l) || WakeDue(s, l) {
      StillDue(s, t, r, l);
    } else {
      assert TaskOk(s, t);
      forall u: nat ensures !IsAt(s', u, Doze(l)) && !IsAt(s', u, Asleep(l)) {
        assert !IsAt(s, u, Doze(l)) && !IsAt(s, u, Asleep(l));
      }
    }
  }

  ghost predicate AlwaysAttended(s: Sys, steps: seq<(nat, Req)>, l: nat) {
    && (Run(s, steps).Ok? ==> Attended(Run(s, steps).value, l))
    && (steps != [] ==> AlwaysAttended(s, steps[..|steps| - 1], l))
  }

  ghost predicate SomeMiss(s: Sys, steps: seq<(nat, Req)>, l: nat) {
    steps != [] && var before := steps[..|steps| - 1];
      || SomeMiss(s, before, l)
      || (Run(s, before).Ok? && Misses(Run(s, before).value, steps[|steps| - 1].0, l))
  }

  /** Through a whole run no task waits for a free lock with no wakeup due, exactly if no release wakes
      the sleepers between another task's test-and-set and its sleep. */
  lemma {:induction false} AttendedUnlessMissed(s: Sys, steps: seq<(nat, Req)>, l: nat)
    requires Init(s) && Run(s, steps).Ok? && l < |s.locks|
    ensures |Run(s, steps).value.locks| == |s.locks|
    ensures AlwaysAttended(s, steps, l) <==> !SomeMiss(s, steps, l)
  {
    if steps != [] {
      var before, a := steps[..|steps| - 1], steps[|steps| - 1];
      AttendedUnlessMissed(s, before, l);
      EveryRun(s, before);
      var m := Run(s, before).value;
      if a.0 < |m.stages| {
        DoKeepsTask(m, a.0, a.1, a.0);
        if AlwaysAttended(s, before, l) { StepAttends(m, a.0, a.1, l); }
      }
    }
  }

  /** And the one it misses does sleep on a free lock, until another task gets and puts that lock. */
  lemma MissStrands(s: Sys, t: nat, u: nat, l: nat, r: Req, q: Req)
    requires Inv(s) && Misses(s, t, l) && IsAt(s, u, Doze(l))
    ensures Do(s, t, r).Ok? && var s1 := Do(s, t, r).value;
      && Fits(s1) && |s1.stages| == |s.stages| && Do(s1, u, q).Ok?
      && var s2 := Do(s1, u, q).value;
      IsAt(s2, u, Asleep(l)) && IsFree(s2, l) && !WakeDue(s2, l)
  {
    assert TaskOk(s, t) && TaskOk(s, u);
    var s1 := Do(s, t, r).value;
    var s2 := Do(s1, u, q).value;
    forall v: nat ensures !IsAt(s2, v, Wake(l)) {
      assert IsAt(s2, v, Wake(l)) ==> IsAt(s, v, Wake(l));
    }
  }

  // ---------------------------------------------------------------- a task on its own

  lemma Goes(s0: Sys, steps: seq<(nat, Req)>, e: Sys, a: (nat, Req), f: Sys)
    requires Run(s0, steps) == Ok(e) && Fits(e) && a.0 < |e.stages| && Do(e, a.0, a.1) == Ok(f)
    ensures Run(s0, steps + [a]) == Ok(f)
  {
    assert (steps + [a])[..|steps|] == steps;
  }

  lemma AtAt(s: Sys, t: nat, g: Stage)
    requires t < |s.stages|
    ensures forall h :: At(At(s, t, h), t, g) == At(s, t, g)
    ensures At(s, t, s.stages[t]) == s
  {
    forall h ensures At(At(s, t, h), t, g) == At(s, t, g) {
      assert s.stages[t := h][t := g] == s.stages[t := g];
    }
    assert s.stages[t := s.stages[t]] == s.stages;
  }

  /** n more steps of task t. */
  function Works(steps: seq<(nat, Req)>, t: nat, n: nat): seq<(nat, Req)> {
    if n == 0 then steps else Works(steps, t, n - 1) + [(t, Work)]
  }

  lemma GoesOn(s0: Sys, steps: seq<(nat, Req)>, t: nat, n: nat, e: Sys, f: Sys)
    requires Run(s0, Works(steps, t, n)) == Ok(e) && Fits(e) && t < |e.stages| && Do(e, t, Work) == Ok(f)
    ensures Run(s0, Works(steps, t, n + 1)) == Ok(f)
  {
    Goes(s0, Works(steps, t, n), e, (t, Work), f);
  }

  /** sleep_get of a free lock. */
  lemma GetAlone(s0: Sys, steps: seq<(nat, Req)>, s: Sys, t: nat, l: nat)
    requires Run(s0, steps) == Ok(s) && Fits(s) && IsAt(s, t, Idle) && IsFree(s, l)
    ensures Run(s0, Works(steps + [(t, Get(l))], t, 3)) ==
      Ok(s.(locks := s.locks[l := SleepLock(true, Some(t), Some(t))], inside := s.inside[t := s.inside[t] + {l}]))
  {
    hide Run;
    var a := steps + [(t, Get(l))];
    var mine := s.(locks := s.locks[l := s.locks[l].(locked := true, owner := Some(t))], inside := s.inside[t := s.inside[t] + {l}]);
    Goes(s0, steps, s, (t, Get(l)), At(s, t, GetTest(l)));
    AtAt(s, t, Try(l));
    GoesOn(s0, a, t, 0, At(s, t, GetTest(l)), At(s, t, Try(l)));
    AtAt(s, t, Claim(l));
    GoesOn(s0, a, t, 1, At(s, t, Try(l)), At(mine, t, Claim(l)));
    AtAt(s, t, Idle);
    assert mine.locks[l := SleepLock(true, Some(t), Some(t))] == s.locks[l := SleepLock(true, Some(t), Some(t))];
    GoesOn(s0, a, t, 2, At(mine, t, Claim(l)), mine.(locks := s.locks[l := SleepLock(true, Some(t), Some(t))]));
  }

  /** sleep_get of a lock another task has, up to its sleep. */
  lemma WaitAlone(s0: Sys, steps: seq<(nat, Req)>, s: Sys, t: nat, l: nat)
    requires Run(s0, steps) == Ok(s) && Fits(s) && IsAt(s, t, Idle)
    requires l < |s.locks| && s.locks[l].locked && s.locks[l].task != Some(t)
    ensures Run(s0, Works(steps + [(t, Get(l))], t, 3)) == Ok(At(s, t, Doze(l)))
  {
    hide Run;
    var a := steps + [(t, Get(l))];
    Goes(s0, steps, s, (t, Get(l)), At(s, t, GetTest(l)));
    AtAt(s, t, GetTest2(l));
    GoesOn(s0, a, t, 0, At(s, t, GetTest(l)), At(s, t, GetTest2(l)));
    AtAt(s, t, Try(l));
    GoesOn(s0, a, t, 1, At(s, t, GetTest2(l)), At(s, t, Try(l)));
    AtAt(s, t, Doze(l));
    GoesOn(s0, a, t, 2, At(s, t, Try(l)), At(s, t, Doze(l)));
  }

  lemma PutStarts(s0: Sys, steps: seq<(nat, Req)>, s: Sys, t: nat, l: nat)
    requires Run(s0, steps) == Ok(s) && Fits(s) && IsAt(s, t, Idle)
    requires l < |s.locks| && s.locks[l].locked && s.locks[l].task == Some(t)
    ensures Run(s0, Works(steps + [(t, Put(l))], t, 2)) == Ok(At(s, t, Drop(l)))
  {
    hide Run;
    var a := steps + [(t, Put(l))];
    Goes(s0, steps, s, (t, Put(l)), At(s, t, PutTest(l)));
    AtAt(s, t, PutTest2(l));
    GoesOn(s0, a, t, 0, At(s, t, PutTest(l)), At(s, t, PutTest2(l)));
    AtAt(s, t, Drop(l));
    GoesOn(s0, a, t, 1, At(s, t, PutTest2(l)), At(s, t, Drop(l)));
  }

  lemma PutOpens(s0: Sys, steps: seq<(nat, Req)>, s: Sys, t: nat, l: nat)
    requires Fits(s) && IsAt(s, t, Idle) && l < |s.locks|
    requires Run(s0, Works(steps + [(t, Put(l))], t, 2)) == Ok(At(s, t, Drop(l)))
    ensures Run(s0, Works(steps + [(t, Put(l))], t, 4)) ==
      Ok(At(s, t, Wake(l)).(locks := s.locks[l := SleepLock(false, None, None)], inside := s.inside[t := s.inside[t] - {l}]))
  {
    hide Run;
    var a, k := steps + [(t, Put(l))], s.locks[l];
    var dropped := s.(locks := s.locks[l := k.(task := None)]);
    AtAt(s, t, Open(l));
    GoesOn(s0, a, t, 2, At(s, t, Drop(l)), At(dropped, t, Open(l)));
    AtAt(s, t, Wake(l));
    assert dropped.locks[l := SleepLock(false, None, None)] == s.locks[l := SleepLock(false, None, None)];
    GoesOn(s0, a, t, 3, At(dropped, t, Open(l)),
           At(s, t, Wake(l)).(locks := s.locks[l := SleepLock(false, None, None)], inside := s.inside[t := s.inside[t] - {l}]));
  }

  lemma WakeDoes(s: Sys, t: nat, l: nat)
    requires Fits(s) && IsAt(s, t, Wake(l)) && l < |s.locks|
    ensures Do(s, t, Work).Ok? && var e := Do(s, t, Work).value;
      && e.locks == s.locks && e.inside == s.inside && |e.stages| == |s.stages| && e.stages[t] == Idle
      && forall u: nat :: u < |s.stages| && u != t ==> e.stages[u] == if s.stages[u] == Asleep(l) then Try(l) else s.stages[u]
  {
  }

  /** sleep_put by the holder: the lock is free, and exactly the tasks asleep on it try again. */
  lemma PutAlone(s0: Sys, steps: seq<(nat, Req)>, s: Sys, t: nat, l: nat)
    requires Run(s0, steps) == Ok(s) && Fits(s) && IsAt(s, t, Idle)
    requires l < |s.locks| && s.locks[l].locked && s.locks[l].task == Some(t)
    ensures var r := Run(s0, Works(steps + [(t, Put(l))], t, 5));
      && r.Ok? && Fits(r.value) && |r.value.stages| == |s.stages|
      && r.value.locks == s.locks[l := SleepLock(false, None, None)]
      && r.value.inside == s.inside[t := s.inside[t] - {l}]
      && forall u: nat :: u < |s.stages| ==> r.value.stages[u] == if s.stages[u] == Asleep(l) then Try(l) else s.stages[u]
  {
    PutStarts(s0, steps, s, t, l);
    PutOpens(s0, steps, s, t, l);
    hide Run;
    hide Works;
    var a := steps + [(t, Put(l))];
    var e := At(s, t, Wake(l)).(locks := s.locks[l := SleepLock(false, None, None)], inside := s.inside[t := s.inside[t] - {l}]);
    WakeDoes(e, t, l);
    hide Do;
    GoesOn(s0, a, t, 4, e, Do(e, t, Work).value);
  }

  lemma SleepsFree(s: Sys, steps: seq<(nat, Req)>, d: Sys, u: nat, l: nat)
    requires Run(s, steps) == Ok(d) && Fits(d) && IsAt(d, u, Doze(l)) && IsFree(d, l) && forall v: nat :: !IsAt(d, v, Wake(l))
    ensures exists more, e :: Run(s, more) == Ok(e) && IsAt(e, u, Asleep(l)) && IsFree(e, l) && !WakeDue(e, l)
  {
    var e := At(d, u, Asleep(l));
    Goes(s, steps, d, (u, Work), e);
    assert forall v: nat :: !IsAt(e, v, Wake(l)) by { assert forall v: nat :: IsAt(e, v, Wake(l)) ==> IsAt(d, v, Wake(l)); }
    assert Run(s, steps + [(u, Work)]) == Ok(e) && IsAt(e, u, Asleep(l)) && IsFree(e, l) && !WakeDue(e, l);
  }

  lemma PutLeaves(s0: Sys, steps: seq<(nat, Req)>, s: Sys, t: nat, u: nat, l: nat)
    requires Run(s0, steps) == Ok(s) && Fits(s) && IsAt(s, t, Idle) && IsAt(s, u, Doze(l))
    requires l < |s.locks| && s.locks[l].locked && s.locks[l].task == Some(t)
    requires forall v: nat :: !IsAt(s, v, Wake(l))
    ensures exists more, e :: Run(s0, more) == Ok(e) && IsAt(e, u, Asleep(l)) && IsFree(e, l) && !WakeDue(e, l)
  {
    PutAlone(s0, steps, s, t, l);
    var put := Works(steps + [(t, Put(l))], t, 5);
    hide Run;
    hide Works;
    var d := Run(s0, put).value;
    forall v: nat ensures !IsAt(d, v, Wake(l)) { assert !IsAt(s, v, Wake(l)); }
    SleepsFree(s0, put, d, u, l);
  }

  /** A wakeup can be lost: t puts the lock while u is on its way to sleep, and u then sleeps on a free
      lock with no one about to wake it. */
  lemma WakeupLost(s: Sys, t: nat, u: nat, l: nat)
    requires Init(s) && t < |s.stages| && u < |s.stages| && t != u && l < |s.locks|
    ensures exists steps, e :: Run(s, steps) == Ok(e) && IsAt(e, u, Asleep(l)) && IsFree(e, l) && !WakeDue(e, l)
  {
    var s1 := s.(locks := s.locks[l := SleepLock(true, Some(t), Some(t))], inside := s.inside[t := s.inside[t] + {l}]);
    assert Run(s, []) == Ok(s);
    hide Run;
    hide Works;
    GetAlone(s, [], s, t, l);
    var get := Works([] + [(t, Get(l))], t, 3);
    WaitAlone(s, get, s1, u, l);
    var wait := Works(get + [(u, Get(l))], u, 3);
    PutLeaves(s, wait, At(s1, u, Doze(l)), t, u, l);
  }
}
