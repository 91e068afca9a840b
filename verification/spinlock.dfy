/** Spin locks (kernel/util/spinlock.c) with the interrupt nesting of kernel/task/cpu.h, one memory
    access per step.

    Fields marked history record what happened; no value the code computes depends on them.  Ordinary
    code on each CPU asks for any get or put at any time, also wrong ones, and sets interrupts only
    outside all locks. */
module SpinLocks {
  import opened Base

  datatype SpinLock = SpinLock(locked: bool, cpu: Option<nat>, owner: Option<nat>)  // owner: history

  datatype Op = Getting | Putting

  /** Where a CPU is inside spin_get or spin_put of lock l. */
  datatype Stage =
    | Idle
    | Test(op: Op, l: nat)   // spin_holding, about to read locked
    | Test2(op: Op, l: nat)  // locked was true, about to read cpu
    | Spin(l: nat)           // test-and-set loop
    | Claim(l: nat)          // locked is ours, cpu not yet written
    | Drop(l: nat)           // about to clear cpu
    | Open(l: nat)           // cpu cleared, locked still true
    | Pop                    // lock released, pop_intr to come

  // history: held, nest (pushes minus pops), want (interrupts as last set outside locks), and peak, the
  // greatest nest since they were set
  datatype Cpu = Cpu(level: nat, raw: bool, intr: bool, stage: Stage,
                     held: set<nat>, nest: nat, want: bool, peak: nat)

  datatype Sys = Sys(cpus: seq<Cpu>, locks: seq<SpinLock>)

  datatype Req = Get(l: nat) | Put(l: nat) | Interrupts(on: bool) | Wait

  const LEVELS := 256  // spinlevel is a u8

  // ---------------------------------------------------------------- steps

  /** push_intr. */
  function Push(k: Cpu): Cpu {
    k.(raw := if k.level == 0 then k.intr else k.raw, intr := false, level := (k.level + 1) % LEVELS,
       nest := k.nest + 1, peak := if k.peak > k.nest then k.peak else k.nest + 1)
  }

  /** pop_intr. */
  function Popped(k: Cpu): Cpu {
    var level := (k.level + LEVELS - 1) % LEVELS;
    k.(level := level, intr := k.intr || (level == 0 && k.raw), nest := if k.nest > 0 then k.nest - 1 else 0)
  }

  function SetCpu(s: Sys, c: nat, k: Cpu): Sys
    requires c < |s.cpus|
  {
    s.(cpus := s.cpus[c := k])
  }

  function SetLock(s: Sys, l: nat, k: SpinLock): Sys
    requires l < |s.locks|
  {
    s.(locks := s.locks[l := k])
  }

  /** A new call, from a CPU outside spin_get and spin_put. */
  function Start(s: Sys, c: nat, r: Req): Sys
    requires c < |s.cpus|
  {
    var k := s.cpus[c];
    match r
    case Get(l) => if l < |s.locks| then SetCpu(s, c, Push(k).(stage := Test(Getting, l))) else s
    case Put(l) => if l < |s.locks| then SetCpu(s, c, k.(stage := Test(Putting, l))) else s
    case Interrupts(on) => if k.nest == 0 then SetCpu(s, c, k.(intr := on, want := on, peak := 0)) else s
    case Wait => s
  }

  /** The next memory access of CPU c. */
  function Do(s: Sys, c: nat, r: Req): Outcome<Sys>
    requires c < |s.cpus|
  {
    var k := s.cpus[c];
    match k.stage
    case Idle => Ok(Start(s, c, r))
    case Test(op, l) =>
      if l >= |s.locks| then Panic
      else if s.locks[l].locked then Ok(SetCpu(s, c, k.(stage := Test2(op, l))))
      else if op == Getting then Ok(SetCpu(s, c, k.(stage := Spin(l)))) else Panic
    case Test2(op, l) =>
      if l >= |s.locks| then Panic
      else if s.locks[l].cpu == Some(c) then (if op == Getting then Panic else Ok(SetCpu(s, c, k.(stage := Drop(l)))))
      else if op == Getting then Ok(SetCpu(s, c, k.(stage := Spin(l)))) else Panic
    case Spin(l) =>
      if l >= |s.locks| then Panic
      else if s.locks[l].locked then Ok(s)
      else Ok(SetLock(SetCpu(s, c, k.(stage := Claim(l), held := k.held + {l})), l,
                      s.locks[l].(locked := true, owner := Some(c))))
    case Claim(l) =>
      if l >= |s.locks| then Panic
      else Ok(SetLock(SetCpu(s, c, k.(stage := Idle)), l, s.locks[l].(cpu := Some(c))))
    case Drop(l) =>
      if l >= |s.locks| then Panic
      else Ok(SetLock(SetCpu(s, c, k.(stage := Open(l))), l, s.locks[l].(cpu := None)))
    case Open(l) =>
      if l >= |s.locks| then Panic
      else Ok(SetLock(SetCpu(s, c, k.(stage := Pop, held := k.held - {l})), l,
                      s.locks[l].(locked := false, owner := None)))
    case Pop => Ok(SetCpu(s, c, Popped(k).(stage := Idle)))
  }

  // ---------------------------------------------------------------- invariant

  /** Locks asked for but not yet owned, or released but not yet popped. */
  function Pending(g: Stage): nat {
    if g.Spin? || g.Pop? || ((g.Test? || g.Test2?) && g.op == Getting) then 1 else 0
  }

  ghost predicate LockOk(s: Sys, l: nat)
    requires l < |s.locks|
  {
    var k := s.locks[l];
    && (k.locked <==> k.owner.Some?)
    && (k.owner.Some? ==> k.owner.value < |s.cpus|)
    && (forall c :: 0 <= c < |s.cpus| ==> (l in s.cpus[c].held <==> k.owner == Some(c)))
    && (k.cpu.Some? ==> k.cpu == k.owner && s.cpus[k.cpu.value].stage != Claim(l) && s.cpus[k.cpu.value].stage != Open(l))
    && (k.owner.Some? && k.cpu.None? ==> s.cpus[k.owner.value].stage == Claim(l) || s.cpus[k.owner.value].stage == Open(l))
  }

  /** Getting a lock this CPU owns, or putting one it does not: a call that will panic. */
  predicate Stuck(k: Cpu) {
    (k.stage.Test? || k.stage.Test2?) && ((k.stage.op == Getting) <==> (k.stage.l in k.held))
  }

  ghost predicate CpuOk(s: Sys, c: nat)
    requires c < |s.cpus|
  {
    var k := s.cpus[c];
    && (forall l :: l in k.held ==> l < |s.locks|)
    && (k.stage.Idle? || k.stage.Pop? || k.stage.l < |s.locks|)
    && (k.stage.Claim? || k.stage.Drop? || k.stage.Open? ==> k.stage.l in k.held)
    && (k.stage.Spin? ==> k.stage.l !in k.held)
    && k.nest == |k.held| + Pending(k.stage)
    && k.level == k.nest % LEVELS
    && (k.nest > 0 ==> !k.intr && k.raw == (k.want && k.peak <= LEVELS))
    && (k.nest == 0 ==> k.intr == (k.want && k.peak <= LEVELS))
    && k.nest <= k.peak
    && (k.peak > |s.locks| ==> k.peak == |s.locks| + 1 && Stuck(k))
  }

  ghost predicate Inv(s: Sys) {
    && (forall l :: 0 <= l < |s.locks| ==> LockOk(s, l))
    && (forall c :: 0 <= c < |s.cpus| ==> CpuOk(s, c))
  }

  // ---------------------------------------------------------------- every step keeps it

  /** A step that only moves CPU c, and neither into nor out of a window on a lock. */
  lemma MoveKeeps(s: Sys, c: nat, k: Cpu)
    requires Inv(s) && c < |s.cpus| && k.held == s.cpus[c].held
    requires !s.cpus[c].stage.Claim? && !s.cpus[c].stage.Open? && !k.stage.Claim? && !k.stage.Open?
    requires CpuOk(SetCpu(s, c, k), c)
    ensures Inv(SetCpu(s, c, k))
  {
    var s' := SetCpu(s, c, k);
    forall l | 0 <= l < |s.locks| ensures LockOk(s', l) { assert LockOk(s, l); }
    forall d | 0 <= d < |s.cpus| ensures CpuOk(s', d) { assert CpuOk(s, d); }
  }

  /** A step of CPU c that also writes lock l. */
  lemma WriteKeeps(s: Sys, c: nat, k: Cpu, l: nat, v: SpinLock)
    requires Inv(s) && c < |s.cpus| && l < |s.locks|
    requires forall i :: i != l ==> (i in k.held <==> i in s.cpus[c].held)
    requires forall i :: i != l ==> s.cpus[c].stage != Claim(i) && s.cpus[c].stage != Open(i) && k.stage != Claim(i) && k.stage != Open(i)
    requires v.locked || s.locks[l].owner == Some(c)
    requires v.owner == s.locks[l].owner || s.locks[l].owner == None || s.locks[l].owner == Some(c)
    requires var s' := SetLock(SetCpu(s, c, k), l, v); LockOk(s', l) && CpuOk(s', c)
    ensures Inv(SetLock(SetCpu(s, c, k), l, v))
  {
    var s' := SetLock(SetCpu(s, c, k), l, v);
    forall i | 0 <= i < |s.locks| ensures LockOk(s', i) { assert LockOk(s, i); }
    forall d | 0 <= d < |s.cpus| ensures CpuOk(s', d) {
      assert CpuOk(s, d) && LockOk(s, l);
    }
  }

  lemma LevelUp(n: nat)
    ensures (n % LEVELS + 1) % LEVELS == (n + 1) % LEVELS
    ensures n % LEVELS == 0 && 0 < n ==> n >= LEVELS
  {
  }

  lemma PushOk(s: Sys, c: nat, l: nat)
    requires c < |s.cpus| && CpuOk(s, c) && s.cpus[c].stage == Idle && l < |s.locks|
    ensures CpuOk(SetCpu(s, c, Push(s.cpus[c]).(stage := Test(Getting, l))), c)
  {
    var k := s.cpus[c];
    SetBelow(k.held, |s.locks|);
    if |k.held| == |s.locks| { FullSet(k.held, |s.locks|, l); }
    LevelUp(k.nest);
  }

  lemma StartKeeps(s: Sys, c: nat, r: Req)
    requires Inv(s) && c < |s.cpus| && s.cpus[c].stage == Idle
    ensures Inv(Start(s, c, r))
  {
    assert CpuOk(s, c);
    var k := s.cpus[c];
    match r
    case Get(l) => if l < |s.locks| { PushOk(s, c, l); MoveKeeps(s, c, Push(k).(stage := Test(Getting, l))); }
    case Put(l) => if l < |s.locks| { MoveKeeps(s, c, k.(stage := Test(Putting, l))); }
    case Interrupts(on) => if k.nest == 0 { MoveKeeps(s, c, k.(intr := on, want := on, peak := 0)); }
    case Wait =>
  }

  lemma TestKeeps(s: Sys, c: nat, r: Req)
    requires Inv(s) && c < |s.cpus| && (s.cpus[c].stage.Test? || s.cpus[c].stage.Test2?) && Do(s, c, r).Ok?
    ensures Inv(Do(s, c, r).value)
  {
    var l := s.cpus[c].stage.l;
    assert CpuOk(s, c) && LockOk(s, l);
    MoveKeeps(s, c, Do(s, c, r).value.cpus[c]);
  }

  lemma SpinKeeps(s: Sys, c: nat, r: Req)
    requires Inv(s) && c < |s.cpus| && s.cpus[c].stage.Spin?
    ensures Do(s, c, r).Ok? && Inv(Do(s, c, r).value)
  {
    var k := s.cpus[c];
    var l := k.stage.l;
    assert CpuOk(s, c) && LockOk(s, l);
    if !s.locks[l].locked {
      WriteKeeps(s, c, k.(stage := Claim(l), held := k.held + {l}), l, s.locks[l].(locked := true, owner := Some(c)));
    }
  }

  lemma HolderKeeps(s: Sys, c: nat, r: Req)
    requires Inv(s) && c < |s.cpus| && (s.cpus[c].stage.Claim? || s.cpus[c].stage.Drop? || s.cpus[c].stage.Open?)
    ensures Do(s, c, r).Ok? && Inv(Do(s, c, r).value)
  {
    var l := s.cpus[c].stage.l;
    assert CpuOk(s, c) && LockOk(s, l);
    var s' := Do(s, c, r).value;
    WriteKeeps(s, c, s'.cpus[c], l, s'.locks[l]);
  }

  lemma DoKeeps(s: Sys, c: nat, r: Req)
    requires Inv(s) && c < |s.cpus| && Do(s, c, r).Ok?
    ensures Inv(Do(s, c, r).value)
  {
    match s.cpus[c].stage
    case Idle => StartKeeps(s, c, r);
    case Test(_, _) => TestKeeps(s, c, r);
    case Test2(_, _) => TestKeeps(s, c, r);
    case Spin(_) => SpinKeeps(s, c, r);
    case Claim(_) => HolderKeeps(s, c, r);
    case Drop(_) => HolderKeeps(s, c, r);
    case Open(_) => HolderKeeps(s, c, r);
    case Pop =>
      assert CpuOk(s, c);
      MoveKeeps(s, c, Popped(s.cpus[c]).(stage := Idle));
  }

  // ---------------------------------------------------------------- runs

  ghost predicate Init(s: Sys) {
    && (forall l :: 0 <= l < |s.locks| ==> s.locks[l] == SpinLock(false, None, None))
    && (forall c :: 0 <= c < |s.cpus| ==>
          s.cpus[c].stage == Idle && s.cpus[c].held == {} && s.cpus[c].nest == s.cpus[c].level == s.cpus[c].peak == 0
          && s.cpus[c].want == s.cpus[c].intr)
  }

  /** Any interleaving of the CPUs; the run ends at the first panic. */
  function Run(s: Sys, steps: seq<(nat, Req)>): Outcome<Sys> {
    if steps == [] then Ok(s)
    else
      var r, a := Run(s, steps[..|steps| - 1]), steps[|steps| - 1];
      if r.Ok? && a.0 < |r.value.cpus| then Do(r.value, a.0, a.1) else r
  }

  lemma {:induction false} EveryRun(s: Sys, steps: seq<(nat, Req)>)
    requires Init(s) && Run(s, steps).Ok?
    ensures Inv(Run(s, steps).value)
  {
    if steps != [] {
      EveryRun(s, steps[..|steps| - 1]);
      var r, a := Run(s, steps[..|steps| - 1]), steps[|steps| - 1];
      if a.0 < |r.value.cpus| { DoKeeps(r.value, a.0, a.1); }
    }
  }

  ghost predicate Reachable(s: Sys) {
    exists s0, steps :: Init(s0) && Run(s0, steps) == Ok(s)
  }

  lemma ReachableInv(s: Sys)
    requires Reachable(s)
    ensures Inv(s)
  {
    var s0, steps :| Init(s0) && Run(s0, steps) == Ok(s);
    EveryRun(s0, steps);
  }

  /** At most one CPU is between winning the test-and-set and the releasing store. */
  lemma MutualExclusion(s: Sys, c: nat, d: nat)
    requires Reachable(s) && c < |s.cpus| && d < |s.cpus| && c != d
    ensures s.cpus[c].held !! s.cpus[d].held
  {
    ReachableInv(s);
    forall l | l in s.cpus[c].held ensures l !in s.cpus[d].held {
      assert CpuOk(s, c);
      assert LockOk(s, l);
    }
  }

  predicate SpinHolding(s: Sys, l: nat, c: nat)
    requires l < |s.locks|
  {
    s.locks[l].locked && s.locks[l].cpu == Some(c)
  }

  /** spin_holding is exact: true for its CPU exactly while it owns the lock, outside the two stores
      that open and close the ownership. */
  lemma HoldingIsOwning(s: Sys, l: nat, c: nat)
    requires Reachable(s) && l < |s.locks| && c < |s.cpus|
    ensures SpinHolding(s, l, c) <==> (l in s.cpus[c].held && s.cpus[c].stage != Claim(l) && s.cpus[c].stage != Open(l))
  {
    ReachableInv(s);
    assert LockOk(s, l) && CpuOk(s, c);
  }

  /** The panics are exactly the misuses: getting a lock this CPU owns, putting one it does not; the
      two reads of spin_holding need not be atomic. */
  lemma PanicIsMisuse(s: Sys, c: nat, r: Req)
    requires Reachable(s) && c < |s.cpus| && Do(s, c, r).Panic?
    ensures var g := s.cpus[c].stage;
      (g.Test? || g.Test2?) && ((g.op == Getting) <==> (g.l in s.cpus[c].held))
  {
    ReachableInv(s);
    assert CpuOk(s, c);
    var g := s.cpus[c].stage;
    if !g.Idle? && !g.Pop? { assert LockOk(s, g.l); }
  }

  /** A call that misuses a lock is stuck from its first step, ... */
  lemma MisuseIsStuck(s: Sys, c: nat, r: Req)
    requires Reachable(s) && c < |s.cpus| && s.cpus[c].stage == Idle
    requires (r.Get? && r.l in s.cpus[c].held) || (r.Put? && r.l < |s.locks| && r.l !in s.cpus[c].held)
    ensures Do(s, c, r).Ok? && |Do(s, c, r).value.cpus| == |s.cpus|
    ensures Stuck(Do(s, c, r).value.cpus[c]) && Do(s, c, r).value.cpus[c].stage.Test?
  {
    ReachableInv(s);
    assert CpuOk(s, c);
  }

  /** Steps of CPU c. */
  function StepsOf(steps: seq<(nat, Req)>, c: nat): nat {
    if steps == [] then 0 else StepsOf(steps[..|steps| - 1], c) + if steps[|steps| - 1].0 == c then 1 else 0
  }

  lemma StuckStep(s: Sys, c: nat, d: nat, r: Req)
    requires Inv(s) && c < |s.cpus| && Stuck(s.cpus[c]) && d < |s.cpus| && Do(s, d, r).Ok?
    ensures |Do(s, d, r).value.cpus| == |s.cpus|
    ensures if d == c then s.cpus[c].stage.Test? && Do(s, d, r).value.cpus[c] == s.cpus[c].(stage := Test2(s.cpus[c].stage.op, s.cpus[c].stage.l))
            else Do(s, d, r).value.cpus[c] == s.cpus[c]
  {
    assert CpuOk(s, c);
    assert LockOk(s, s.cpus[c].stage.l);
  }

  /** ... and never gets out: whatever the other CPUs do, it reads at most `locked` once more and then
      its next step is the panic. */
  lemma {:induction false} MisusePanics(s: Sys, c: nat, steps: seq<(nat, Req)>)
    requires Reachable(s) && c < |s.cpus| && Stuck(s.cpus[c])
    requires StepsOf(steps, c) > (if s.cpus[c].stage.Test? then 1 else 0)
    ensures Run(s, steps).Panic?
  {
    if Run(s, steps).Ok? { StillStuck(s, c, steps); }
  }

  lemma {:induction false} StillStuck(s: Sys, c: nat, steps: seq<(nat, Req)>)
    requires Reachable(s) && c < |s.cpus| && Stuck(s.cpus[c]) && Run(s, steps).Ok?
    ensures Inv(Run(s, steps).value) && c < |Run(s, steps).value.cpus| && Stuck(Run(s, steps).value.cpus[c])
    ensures var g := Run(s, steps).value.cpus[c].stage;
      StepsOf(steps, c) == (if s.cpus[c].stage.Test? && g.Test2? then 1 else 0) && (s.cpus[c].stage.Test2? ==> g.Test2?)
  {
    if steps == [] {
      ReachableInv(s);
    } else {
      var r, a := Run(s, steps[..|steps| - 1]), steps[|steps| - 1];
      StillStuck(s, c, steps[..|steps| - 1]);
      if a.0 < |r.value.cpus| {
        DoKeeps(r.value, a.0, a.1);
        StuckStep(r.value, c, a.0, a.1);
      }
    }
  }

  /** spinlevel is the number of locks owned, asked for or about to be popped, in eight bits;
      interrupts are off while that number is positive, even past 255. */
  lemma LevelCounts(s: Sys, c: nat)
    requires Reachable(s) && c < |s.cpus|
    ensures var k := s.cpus[c];
      k.level == (|k.held| + Pending(k.stage)) % LEVELS && (|k.held| + Pending(k.stage) > 0 ==> !k.intr)
  {
    ReachableInv(s);
    assert CpuOk(s, c);
  }

  /** Outside all locks interrupts are as last set there if and only if they were set off, or the
      nesting since then stayed within 256. */
  lemma InterruptsRestored(s: Sys, c: nat)
    requires Reachable(s) && c < |s.cpus| && s.cpus[c].held == {} && s.cpus[c].stage == Idle
    ensures s.cpus[c].intr == s.cpus[c].want <==> !s.cpus[c].want || s.cpus[c].peak <= LEVELS
    ensures s.cpus[c].peak <= |s.locks|
  {
    ReachableInv(s);
    assert CpuOk(s, c);
  }

  // ---------------------------------------------------------------- a run that loses interrupts

  /** CPU 0 alone takes these steps. */
  function Alone(s: Sys, reqs: seq<Req>): Outcome<Sys>
    decreases |reqs|
  {
    if reqs == [] then Ok(s)
    else if s.cpus == [] then Panic
    else
      var r := Do(s, 0, reqs[0]);
      if r.Panic? then Panic else Alone(r.value, reqs[1..])
  }

  lemma {:induction false} Extend(s0: Sys, steps: seq<(nat, Req)>, s: Sys, reqs: seq<Req>) returns (steps': seq<(nat, Req)>)
    requires Run(s0, steps) == Ok(s) && Alone(s, reqs).Ok?
    ensures Run(s0, steps') == Alone(s, reqs)
    decreases |reqs|
  {
    if reqs == [] {
      steps' := steps;
    } else {
      var next := steps + [(0, reqs[0])];
      assert next[..|steps|] == steps;
      steps' := Extend(s0, next, Do(s, 0, reqs[0]).value, reqs[1..]);
    }
  }

  function Below(n: nat): (r: set<nat>)
    ensures forall l: nat :: l in r <==> l < n
  {
    if n == 0 then {} else Below(n - 1) + {n - 1}
  }

  /** CPU 0 has taken locks 0 to n - 1 and is outside the lock code. */
  ghost predicate Nested(s: Sys, n: nat) {
    && |s.cpus| > 0 && n <= |s.locks| && s.cpus[0].stage == Idle && s.cpus[0].held == Below(n) && s.cpus[0].want
    && forall l :: n <= l < |s.locks| ==> !s.locks[l].locked
  }

  lemma GetAlone(s: Sys, n: nat)
    requires Nested(s, n) && n < |s.locks|
    ensures var r := Alone(s, [Get(n), Wait, Wait, Wait]);
      r.Ok? && Nested(r.value, n + 1) && r.value.cpus[0].peak >= s.cpus[0].peak && |r.value.locks| == |s.locks|
  {
    var s1 := Do(s, 0, Get(n)).value;
    var s2 := Do(s1, 0, Wait).value;
    var s3 := Do(s2, 0, Wait).value;
    var s4 := Do(s3, 0, Wait).value;
    assert s4.cpus[0].held == Below(n + 1);
    AloneSteps(s, s1, [Get(n), Wait, Wait, Wait]);
    AloneSteps(s1, s2, [Wait, Wait, Wait]);
    AloneSteps(s2, s3, [Wait, Wait]);
    AloneSteps(s3, s4, [Wait]);
  }

  lemma AloneSteps(s: Sys, s1: Sys, reqs: seq<Req>)
    requires reqs != [] && s.cpus != [] && Do(s, 0, reqs[0]) == Ok(s1)
    ensures Alone(s, reqs) == Alone(s1, reqs[1..])
  {
  }

  /** spin_put up to the store that clears cpu, ... */
  lemma PutAlone(s: Sys, n: nat)
    requires Nested(s, n + 1) && s.locks[n].locked && s.locks[n].cpu == Some(0)
    ensures var r := Alone(s, [Put(n), Wait, Wait, Wait]);
      r.Ok? && r.value == SetLock(SetCpu(s, 0, s.cpus[0].(stage := Open(n))), n, s.locks[n].(cpu := None))
  {
    var s1 := Do(s, 0, Put(n)).value;
    var s2 := Do(s1, 0, Wait).value;
    var s3 := Do(s2, 0, Wait).value;
    var s4 := Do(s3, 0, Wait).value;
    AloneSteps(s, s1, [Put(n), Wait, Wait, Wait]);
    AloneSteps(s1, s2, [Wait, Wait, Wait]);
    AloneSteps(s2, s3, [Wait, Wait]);
    AloneSteps(s3, s4, [Wait]);
    assert s4 == SetLock(SetCpu(s, 0, s.cpus[0].(stage := Open(n))), n, s.locks[n].(cpu := None));
  }

  /** ... and the rest. */
  lemma OpenAlone(s: Sys, n: nat)
    requires |s.cpus| > 0 && s.cpus[0].stage == Open(n) && n < |s.locks| && s.cpus[0].want && s.cpus[0].held == Below(n + 1)
    requires forall l :: n < l < |s.locks| ==> !s.locks[l].locked
    ensures var r := Alone(s, [Wait, Wait]); r.Ok? && Nested(r.value, n) && r.value.cpus[0].peak == s.cpus[0].peak
  {
    var s1 := Do(s, 0, Wait).value;
    var s2 := Do(s1, 0, Wait).value;
    AloneSteps(s, s1, [Wait, Wait]);
    AloneSteps(s1, s2, [Wait]);
    assert s2.cpus[0].held == Below(n);
  }

  lemma GetNext(s0: Sys, steps: seq<(nat, Req)>, n: nat) returns (steps': seq<(nat, Req)>)
    requires Init(s0) && Run(s0, steps).Ok? && Nested(Run(s0, steps).value, n) && n < |Run(s0, steps).value.locks|
    ensures Run(s0, steps').Ok? && Nested(Run(s0, steps').value, n + 1)
    ensures Run(s0, steps').value.cpus[0].peak >= Run(s0, steps).value.cpus[0].peak
    ensures |Run(s0, steps').value.locks| == |Run(s0, steps).value.locks|
  {
    hide Alone;
    var s := Run(s0, steps).value;
    GetAlone(s, n);
    steps' := Extend(s0, steps, s, [Get(n), Wait, Wait, Wait]);
  }

  lemma PutLast(s0: Sys, steps: seq<(nat, Req)>, n: nat) returns (steps': seq<(nat, Req)>)
    requires Init(s0) && Run(s0, steps).Ok? && Nested(Run(s0, steps).value, n + 1)
    ensures Run(s0, steps').Ok? && Nested(Run(s0, steps').value, n)
    ensures Run(s0, steps').value.cpus[0].peak == Run(s0, steps).value.cpus[0].peak
  {
    hide Alone;
    hide Run;
    var s := Run(s0, steps).value;
    EveryRun(s0, steps);
    assert LockOk(s, n) && CpuOk(s, 0);
    PutAlone(s, n);
    var half := Extend(s0, steps, s, [Put(n), Wait, Wait, Wait]);
    var s1 := Run(s0, half).value;
    OpenAlone(s1, n);
    steps' := Extend(s0, half, s1, [Wait, Wait]);
  }

  lemma {:induction false} GetAll(s0: Sys, n: nat) returns (steps: seq<(nat, Req)>)
    requires Init(s0) && |s0.cpus| > 0 && s0.cpus[0].intr && n <= |s0.locks|
    ensures Run(s0, steps).Ok? && Nested(Run(s0, steps).value, n) && |Run(s0, steps).value.locks| == |s0.locks|
  {
    if n == 0 {
      steps := [];
    } else {
      var before := GetAll(s0, n - 1);
      steps := GetNext(s0, before, n - 1);
    }
  }

  lemma {:induction false} PutAll(s0: Sys, before: seq<(nat, Req)>, n: nat) returns (steps: seq<(nat, Req)>)
    requires Init(s0) && Run(s0, before).Ok? && Nested(Run(s0, before).value, n)
    ensures Run(s0, steps).Ok? && Nested(Run(s0, steps).value, 0)
    ensures Run(s0, steps).value.cpus[0].peak == Run(s0, before).value.cpus[0].peak
    decreases n
  {
    if n == 0 {
      steps := before;
    } else {
      var next := PutLast(s0, before, n - 1);
      steps := PutAll(s0, next, n - 1);
    }
  }

  lemma {:induction false} BelowSize(n: nat)
    ensures |Below(n)| == n
  {
    if n > 0 { BelowSize(n - 1); }
  }

  /** From any machine with more than 256 locks a run reaches a state outside all locks with interrupts
      wanted and off; with 256 locks or fewer no run does. */
  lemma InterruptsLost(s0: Sys) returns (steps: seq<(nat, Req)>)
    requires Init(s0) && |s0.cpus| > 0 && s0.cpus[0].intr && |s0.locks| > LEVELS
    ensures Run(s0, steps).Ok?
    ensures var k := Run(s0, steps).value.cpus;
      |k| > 0 && k[0].held == {} && k[0].stage == Idle && k[0].want && !k[0].intr
  {
    var gets := GetAll(s0, LEVELS + 1);
    EveryRun(s0, gets);
    assert CpuOk(Run(s0, gets).value, 0);
    BelowSize(LEVELS + 1);
    steps := PutAll(s0, gets, LEVELS + 1);
    assert Reachable(Run(s0, steps).value);
    InterruptsRestored(Run(s0, steps).value, 0);
  }
}
