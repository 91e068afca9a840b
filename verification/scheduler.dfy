/** Scheduling, sleep and wakeup (kernel/task/sche.c) on several CPUs, with the interrupt and
    nesting book-keeping of the spin locks (kernel/task/cpu.h).

    A CPU runs either its scheduler loop or one task.  Every write to a task's state or channel,
    every lock operation and every context switch is a separate step, so a task lock is taken by
    one context and released by another.  Interrupt handlers that run on top of a task or of the
    scheduler are the ordinary-code steps of that context. */
module Scheduler {
  import opened Base

  datatype Ctx = T(t: nat) | S(c: nat)
  datatype Lk = TaskLock(t: nat) | CondLock(l: nat)
  datatype State = Unused | Ready | Running | Sleeping

  /** How a parked task goes on when it is switched to. */
  datatype After = First | FromYield | FromSleep(ch: nat, l: Option<nat>)

  datatype Pc =
    | Plain(held: Option<nat>, owes: set<nat>)  // ordinary code; owes: conditions set, wakeup still due
    | Waking(held: Option<nat>, ch: nat, i: nat, stage: nat, owes: set<nat>)
    | Yield0 | Yield1
    | Sleep0(ch: nat, l: Option<nat>)           // own lock taken, `lock` still held
    | Sleep1(ch: nat, l: Option<nat>)           // `lock` released
    | Sleep2(ch: nat, l: Option<nat>)           // chan written
    | Sleep3(ch: nat, l: Option<nat>)           // state written, about to switch
    | Parked(after: After)
    | Back(after: After)                         // switched to, own lock held
    | Back2(l: Option<nat>)                     // chan cleared
    | Relock(lock: nat)
    | Picked(t: nat) | Chosen(t: nat) | Away(t: nat) | Returned(t: nat) | Cleared(t: nat)  // scheduler

  datatype Cpu = Cpu(on: Ctx, cur: Option<nat>, level: nat, intr: bool, raw: bool)
  datatype Task = Task(state: State, chan: Option<nat>, pc: Pc, place: Option<nat>)  // place: history

  datatype Machine = Machine(cpus: seq<Cpu>, spcs: seq<Pc>, tasks: seq<Task>, owner: map<Lk, nat>, cond: set<nat>)

  datatype Act =
    | Lock(lock: nat) | Unlock | SetCond(ch: nat) | ClearCond(ch: nat) | Wake(ch: nat)
    | Yield | SleepOn(ch: nat, l: Option<nat>) | Pick(t: nat) | Interrupts(on: bool) | Advance

  // ---------------------------------------------------------------- pieces of a step

  predicate Fits(m: Machine) {
    && |m.spcs| == |m.cpus|
    && forall c :: 0 <= c < |m.cpus| ==>
         match m.cpus[c].on case T(t) => t < |m.tasks| case S(d) => d == c
  }

  function PcOf(m: Machine, x: Ctx): Pc
    requires match x case T(t) => t < |m.tasks| case S(c) => c < |m.spcs|
  {
    match x case T(t) => m.tasks[t].pc case S(c) => m.spcs[c]
  }

  function SetPc(m: Machine, x: Ctx, pc: Pc): Machine
    requires match x case T(t) => t < |m.tasks| case S(c) => c < |m.spcs|
  {
    match x
    case T(t) => m.(tasks := m.tasks[t := m.tasks[t].(pc := pc)])
    case S(c) => m.(spcs := m.spcs[c := pc])
  }

  /** push_intr and taking the lock. */
  function Acquired(k: Cpu): Cpu {
    k.(raw := if k.level == 0 then k.intr else k.raw, intr := false, level := k.level + 1)
  }

  /** pop_intr after dropping the lock. */
  function Released(k: Cpu): Cpu
    requires k.level > 0
  {
    k.(level := k.level - 1, intr := if k.level == 1 && k.raw then true else k.intr)
  }

  /** spin_get and go on at pc: no step while another CPU owns the lock, panic when this one does. */
  function Take(m: Machine, c: nat, l: Lk, pc: Pc): Outcome<Machine>
    requires Fits(m) && c < |m.cpus|
  {
    if l in m.owner then (if m.owner[l] == c then Panic else Ok(m))
    else Ok(SetPc(m.(owner := m.owner[l := c], cpus := m.cpus[c := Acquired(m.cpus[c])]), m.cpus[c].on, pc))
  }

  /** spin_put and go on at pc: panic unless this CPU owns the lock. */
  function Give(m: Machine, c: nat, l: Lk, pc: Pc): Outcome<Machine>
    requires Fits(m) && c < |m.cpus|
  {
    if !(l in m.owner && m.owner[l] == c) || m.cpus[c].level == 0 then Panic
    else Ok(SetPc(m.(owner := m.owner - {l}, cpus := m.cpus[c := Released(m.cpus[c])]), m.cpus[c].on, pc))
  }

  /** The task on CPU c switches to the scheduler context saved there. */
  function SwitchOut(m: Machine, c: nat, t: nat, after: After): Outcome<Machine>
    requires Fits(m) && c < |m.cpus| && t < |m.tasks|
  {
    if !m.spcs[c].Away? then Panic
    else Ok(m.(cpus := m.cpus[c := m.cpus[c].(on := S(c))], spcs := m.spcs[c := Returned(m.spcs[c].t)],
            tasks := m.tasks[t := m.tasks[t].(pc := Parked(after), place := None)]))
  }

  /** The scheduler on CPU c switches to task t. */
  function SwitchIn(m: Machine, c: nat, t: nat): Outcome<Machine>
    requires Fits(m) && c < |m.cpus|
  {
    if t >= |m.tasks| || !m.tasks[t].pc.Parked? then Panic
    else Ok(m.(cpus := m.cpus[c := m.cpus[c].(on := T(t))], spcs := m.spcs[c := Away(t)],
            tasks := m.tasks[t := m.tasks[t].(pc := Back(m.tasks[t].pc.after), place := Some(c))]))
  }

  function SetTask(m: Machine, t: nat, k: Task): Machine
    requires t < |m.tasks|
  {
    m.(tasks := m.tasks[t := k])
  }

  // ---------------------------------------------------------------- steps

  /** The next statement of a wakeup loop. */
  function WakeStep(m: Machine, c: nat): Outcome<Machine>
    requires Fits(m) && c < |m.cpus| && PcOf(m, m.cpus[c].on).Waking?
  {
    var x := m.cpus[c].on;
    var pc := PcOf(m, x);
    if pc.stage == 0 then
      if pc.i >= |m.tasks| then Ok(SetPc(m, x, Plain(pc.held, pc.owes - {pc.ch})))
      else if x == T(pc.i) then Ok(SetPc(m, x, pc.(i := pc.i + 1)))
      else Take(m, c, TaskLock(pc.i), pc.(stage := 1))
    else if pc.i >= |m.tasks| then Panic
    else if pc.stage == 1 then
      var k := m.tasks[pc.i];
      var m1 := if k.state == Sleeping && k.chan == Some(pc.ch) then SetTask(m, pc.i, k.(state := Ready)) else m;
      Ok(SetPc(m1, x, pc.(stage := 2)))
    else Give(m, c, TaskLock(pc.i), pc.(i := pc.i + 1, stage := 0))
  }

  /** The next statement of yield or sleep in task t, running on CPU c. */
  function TaskStep(m: Machine, c: nat, t: nat): Outcome<Machine>
    requires Fits(m) && c < |m.cpus| && m.cpus[c].on == T(t) && t < |m.tasks|
  {
    var k := m.tasks[t];
    match k.pc
    case Yield0 => Ok(SetTask(m, t, k.(state := Ready, pc := Yield1)))
    case Yield1 => SwitchOut(m, c, t, FromYield)
    case Sleep0(ch, l) => if l.None? then Panic else Give(m, c, CondLock(l.value), Sleep1(ch, l))
    case Sleep1(ch, l) => Ok(SetTask(m, t, k.(chan := Some(ch), pc := Sleep2(ch, l))))
    case Sleep2(ch, l) => Ok(SetTask(m, t, k.(state := Sleeping, pc := Sleep3(ch, l))))
    case Sleep3(ch, l) => SwitchOut(m, c, t, FromSleep(ch, l))
    case Back(after) =>
      if after.FromSleep? then Ok(SetTask(m, t, k.(chan := None, pc := Back2(after.l))))
      else Give(m, c, TaskLock(t), Plain(None, {}))
    case Back2(l) => Give(m, c, TaskLock(t), if l.None? then Plain(None, {}) else Relock(l.value))
    case Relock(l) => Take(m, c, CondLock(l), Plain(Some(l), {}))
    case _ => Ok(m)
  }

  /** The next statement of the scheduler loop on CPU c. */
  function SchedStep(m: Machine, c: nat): Outcome<Machine>
    requires Fits(m) && c < |m.cpus|
  {
    match m.spcs[c]
    case Picked(t) =>
      if t >= |m.tasks| then Panic
      else if m.tasks[t].state == Ready then
        Ok(SetTask(m.(cpus := m.cpus[c := m.cpus[c].(cur := Some(t))], spcs := m.spcs[c := Chosen(t)]),
           t, m.tasks[t].(state := Running)))
      else Ok(m.(cpus := m.cpus[c := m.cpus[c].(cur := None)], spcs := m.spcs[c := Cleared(t)]))
    case Chosen(t) => SwitchIn(m, c, t)
    case Returned(t) => Ok(m.(cpus := m.cpus[c := m.cpus[c].(cur := None)], spcs := m.spcs[c := Cleared(t)]))
    case Cleared(t) => Give(m, c, TaskLock(t), Plain(None, {}))
    case _ => Ok(m)
  }

  /** What ordinary code may do next; guard says which lock protects a channel's condition. */
  function PlainStep(m: Machine, guard: nat -> Option<nat>, c: nat, a: Act): Outcome<Machine>
    requires Fits(m) && c < |m.cpus| && PcOf(m, m.cpus[c].on).Plain?
  {
    var x := m.cpus[c].on;
    var pc := PcOf(m, x);
    match a
    case Lock(l) => if pc.held.None? then Take(m, c, CondLock(l), Plain(Some(l), {})) else Ok(m)
    case Unlock =>
      if pc.held.Some? && pc.owes == {} then Give(m, c, CondLock(pc.held.value), Plain(None, {})) else Ok(m)
    case SetCond(ch) =>
      if pc.held.Some? && guard(ch) == pc.held then
        Ok(SetPc(m.(cond := m.cond + {ch}), x, Plain(pc.held, pc.owes + {ch})))
      else Ok(m)
    case ClearCond(ch) => if pc.held.Some? && guard(ch) == pc.held then Ok(m.(cond := m.cond - {ch})) else Ok(m)
    case Wake(ch) => Ok(SetPc(m, x, Waking(pc.held, ch, 0, 0, pc.owes)))
    case Yield => if x.T? && pc.held.None? then Take(m, c, TaskLock(x.t), Yield0) else Ok(m)
    case SleepOn(ch, l) =>
      if x.T? && pc.held == l == guard(ch) && pc.owes == {} && (l.Some? ==> ch !in m.cond) then
        Take(m, c, TaskLock(x.t), if l.Some? then Sleep0(ch, l) else Sleep1(ch, l))
      else Ok(m)
    case Pick(t) =>
      if x.S? && pc.held.None? && t < |m.tasks| then Take(m, c, TaskLock(t), Picked(t)) else Ok(m)
    case Interrupts(on) =>
      if m.cpus[c].level == 0 then Ok(m.(cpus := m.cpus[c := m.cpus[c].(intr := on)])) else Ok(m)
    case Advance => Ok(m)
  }

  function Do(m: Machine, guard: nat -> Option<nat>, c: nat, a: Act): Outcome<Machine>
    requires Fits(m) && c < |m.cpus|
  {
    var x := m.cpus[c].on;
    var pc := PcOf(m, x);
    if pc.Plain? then PlainStep(m, guard, c, a)
    else if pc.Waking? then WakeStep(m, c)
    else match x case T(t) => TaskStep(m, c, t) case S(_) => SchedStep(m, c)
  }

  // ---------------------------------------------------------------- invariant

  function OptLock(l: Option<nat>): set<Lk> {
    if l.Some? then {CondLock(l.value)} else {}
  }

  /** The locks a context at this point holds. */
  function Held(x: Ctx, pc: Pc): set<Lk> {
    match pc
    case Plain(h, _) => OptLock(h)
    case Waking(h, _, i, stage, _) => OptLock(h) + if stage > 0 then {TaskLock(i)} else {}
    case Sleep0(_, l) => OptLock(l) + if x.T? then {TaskLock(x.t)} else {}
    case Yield0 | Yield1 | Sleep1(_, _) | Sleep2(_, _) | Sleep3(_, _) | Back(_) | Back2(_) =>
      if x.T? then {TaskLock(x.t)} else {}
    case Picked(t) => {TaskLock(t)}
    case Chosen(t) => {TaskLock(t)}
    case Returned(t) => {TaskLock(t)}
    case Cleared(t) => {TaskLock(t)}
    case _ => {}
  }

  function HeldOn(m: Machine, c: nat): set<Lk>
    requires Fits(m) && c < |m.cpus|
  {
    Held(m.cpus[c].on, PcOf(m, m.cpus[c].on))
  }

  predicate ForScheduler(pc: Pc) {
    pc.Picked? || pc.Chosen? || pc.Away? || pc.Returned? || pc.Cleared?
  }

  predicate ForBoth(pc: Pc) {
    (pc.Plain? && (pc.held.None? ==> pc.owes == {})) || (pc.Waking? && pc.stage <= 2 && (pc.held.None? ==> pc.owes == {}))
  }

  /** Lock ownership is exactly what the running contexts hold, and the levels count it. */
  ghost predicate LocksOk(m: Machine)
    requires Fits(m)
  {
    && (forall l :: l in m.owner ==> m.owner[l] < |m.cpus|)
    && (forall c, l :: 0 <= c < |m.cpus| ==> (l in HeldOn(m, c) <==> l in m.owner && m.owner[l] == c))
    && (forall c :: 0 <= c < |m.cpus| ==> m.cpus[c].level == |HeldOn(m, c)| && (m.cpus[c].level > 0 ==> !m.cpus[c].intr))
  }

  ghost predicate CpuOk(m: Machine, c: nat)
    requires Fits(m) && c < |m.cpus|
  {
    var k, pc := m.cpus[c], m.spcs[c];
    && (ForScheduler(pc) || ForBoth(pc))
    && (k.on.T? <==> pc.Away?)
    && (pc.Away? ==> k.on == T(pc.t) && m.tasks[pc.t].place == Some(c))
    && k.cur == (if pc.Chosen? || pc.Away? || pc.Returned? then Some(pc.t) else None)
    && (pc.Chosen? ==> pc.t < |m.tasks| && m.tasks[pc.t].pc.Parked? && m.tasks[pc.t].state == Running)
    && (pc.Picked? ==> pc.t < |m.tasks|)
    && (pc.Waking? && pc.stage > 0 ==> pc.i < |m.tasks|)
    && (pc.Returned? ==> pc.t < |m.tasks| && m.tasks[pc.t].pc.Parked? && m.tasks[pc.t].state != Running)
    && (pc.Cleared? ==> pc.t < |m.tasks|)
  }

  /** State and channel agree with the program point. */
  ghost predicate TaskOk(m: Machine, t: nat)
    requires Fits(m) && t < |m.tasks|
  {
    var k := m.tasks[t];
    && !ForScheduler(k.pc) && (k.pc.Plain? || k.pc.Waking? ==> ForBoth(k.pc))
    && (k.pc.Waking? && k.pc.stage > 0 ==> k.pc.i < |m.tasks| && k.pc.i != t)
    && (k.pc.Parked? <==> k.place.None?)
    && (k.place.Some? ==> k.place.value < |m.cpus| && m.cpus[k.place.value].on == T(t))
    && (k.pc.Sleep0? ==> k.pc.l.Some?)
    && (match k.pc
        case Yield1 => k.state == Ready
        case Sleep2(ch, _) => k.state == Running && k.chan == Some(ch)
        case Sleep3(ch, _) => k.state == Sleeping && k.chan == Some(ch)
        case Parked(after) =>
          && (k.state == Sleeping ==> after.FromSleep? && k.chan == Some(after.ch))
          && (k.state == Running ==>
                TaskLock(t) in m.owner && m.owner[TaskLock(t)] < |m.cpus| && m.spcs[m.owner[TaskLock(t)]] == Chosen(t))
        case _ => k.state == Running)
  }

  /** Task t is on its way to sleep on ch, or asleep there. */
  predicate Waits(k: Task, ch: nat) {
    match k.pc
    case Sleep0(d, _) => d == ch
    case Sleep1(d, _) => d == ch
    case Sleep2(d, _) => d == ch
    case Sleep3(d, _) => d == ch
    case Parked(after) => k.state == Sleeping && after.FromSleep? && after.ch == ch
    case _ => false
  }

  /** A context at pc, holding the guard of ch, will still look at task t for ch. */
  predicate WillWake(pc: Pc, ch: nat, t: nat) {
    match pc
    case Plain(_, owes) => ch in owes
    case Waking(_, d, i, stage, owes) => ch in owes && (d != ch || i < t || (i == t && stage < 2))
    case _ => false
  }

  ghost predicate WakeOk(m: Machine, guard: nat -> Option<nat>, t: nat, ch: nat)
    requires Fits(m) && t < |m.tasks|
  {
    guard(ch).Some? && ch in m.cond && Waits(m.tasks[t], ch) ==>
      var l := CondLock(guard(ch).value);
      l in m.owner && m.owner[l] < |m.cpus| && WillWake(PcOf(m, m.cpus[m.owner[l]].on), ch, t)
  }

  /** Sleepers use the lock that guards their channel, and owed wakeups are under the right lock. */
  ghost predicate GuardsOk(m: Machine, guard: nat -> Option<nat>, x: Ctx)
    requires match x case T(t) => t < |m.tasks| case S(c) => c < |m.spcs|
  {
    match PcOf(m, x)
    case Plain(h, owes) => forall ch :: ch in owes ==> h.Some? && guard(ch) == h
    case Waking(h, _, _, _, owes) => forall ch :: ch in owes ==> h.Some? && guard(ch) == h
    case _ => true
  }

  ghost predicate Inv(m: Machine, guard: nat -> Option<nat>) {
    && Fits(m) && LocksOk(m)
    && (forall c :: 0 <= c < |m.cpus| ==> CpuOk(m, c) && GuardsOk(m, guard, S(c)))
    && (forall t :: 0 <= t < |m.tasks| ==> TaskOk(m, t) && GuardsOk(m, guard, T(t)))
    && (forall t, ch :: 0 <= t < |m.tasks| && ch >= 0 ==> WakeOk(m, guard, t, ch))
  }

  // ---------------------------------------------------------------- steps that stay in one context

  /** A context runs on one CPU only. */
  lemma OnlyHere(m: Machine, guard: nat -> Option<nat>, c: nat, d: nat)
    requires Inv(m, guard) && c < |m.cpus| && d < |m.cpus| && c != d
    ensures m.cpus[c].on != m.cpus[d].on
  {
    assert CpuOk(m, c) && CpuOk(m, d);
  }

  /** What m' may differ in from m when CPU c executes one statement of its context; v is a task
      whose state the statement writes under that task's lock. */
  ghost predicate Local(m: Machine, m': Machine, c: nat, v: Option<nat>)
    requires Fits(m) && c < |m.cpus|
  {
    && |m'.cpus| == |m.cpus| && |m'.spcs| == |m.spcs| && |m'.tasks| == |m.tasks|
    && m'.cpus[c].on == m.cpus[c].on
    && (forall d :: 0 <= d < |m.cpus| && d != c ==> m'.cpus[d] == m.cpus[d] && m'.spcs[d] == m.spcs[d])
    && (m.cpus[c].on.T? ==> m'.spcs[c] == m.spcs[c])
    && !m.spcs[c].Chosen?
    && (forall u :: 0 <= u < |m.tasks| && T(u) != m.cpus[c].on && Some(u) != v ==> m'.tasks[u] == m.tasks[u])
    && (v.Some? ==>
          && v.value < |m.tasks| && T(v.value) != m.cpus[c].on
          && m'.tasks[v.value] == m.tasks[v.value].(state := m'.tasks[v.value].state)
          && TaskLock(v.value) in m.owner && m.owner[TaskLock(v.value)] == c)
    && (m.cpus[c].on.T? ==> m'.tasks[m.cpus[c].on.t].place == m.tasks[m.cpus[c].on.t].place
                            && !m'.tasks[m.cpus[c].on.t].pc.Parked?)
  }

  /** The locks move with the program point, and the level counts them. */
  ghost predicate LocksMove(m: Machine, m': Machine, c: nat)
    requires Fits(m) && Fits(m') && c < |m.cpus| == |m'.cpus|
  {
    || (m'.owner == m.owner && HeldOn(m', c) == HeldOn(m, c) && m'.cpus[c].level == m.cpus[c].level
        && (m.cpus[c].level > 0 ==> m'.cpus[c].intr == m.cpus[c].intr))
    || (exists l :: l !in m.owner && m'.owner == m.owner[l := c] && HeldOn(m', c) == HeldOn(m, c) + {l}
                    && m'.cpus[c].level == m.cpus[c].level + 1 && !m'.cpus[c].intr)
    || (exists l :: l in m.owner && m.owner[l] == c && m'.owner == m.owner - {l} && HeldOn(m', c) == HeldOn(m, c) - {l}
                    && m'.cpus[c].level == m.cpus[c].level - 1 && (m'.cpus[c].level > 0 ==> m'.cpus[c].intr == m.cpus[c].intr))
  }

  lemma HeldElsewhere(m: Machine, m': Machine, guard: nat -> Option<nat>, c: nat, v: Option<nat>, d: nat)
    requires Inv(m, guard) && c < |m.cpus| && d < |m.cpus| && d != c && Local(m, m', c, v) && Fits(m')
    ensures HeldOn(m', d) == HeldOn(m, d)
  {
    OnlyHere(m, guard, c, d);
    assert CpuOk(m, d) && CpuOk(m, c);
  }

  /** Other CPUs' locks stay where they are. */
  ghost predicate OwnerLocal(m: Machine, m': Machine, c: nat) {
    forall l :: l in m.owner && m.owner[l] != c ==> l in m'.owner && m'.owner[l] == m.owner[l]
  }

  lemma LocksMoveLocally(m: Machine, m': Machine, c: nat)
    requires Fits(m) && Fits(m') && c < |m.cpus| == |m'.cpus| && LocksMove(m, m', c)
    ensures OwnerLocal(m, m', c)
  {
    hide HeldOn;
  }

  lemma LocksFollow(m: Machine, m': Machine, c: nat)
    requires Fits(m) && Fits(m') && c < |m.cpus| == |m'.cpus| && LocksOk(m) && LocksMove(m, m', c)
    requires forall d :: 0 <= d < |m.cpus| && d != c ==> m'.cpus[d] == m.cpus[d] && HeldOn(m', d) == HeldOn(m, d)
    ensures LocksOk(m')
  {
    hide HeldOn;
    hide Fits;
  }

  lemma LocalLocks(m: Machine, m': Machine, guard: nat -> Option<nat>, c: nat, v: Option<nat>)
    requires Inv(m, guard) && c < |m.cpus| && Local(m, m', c, v) && Fits(m') && LocksMove(m, m', c)
    ensures LocksOk(m')
  {
    hide HeldOn;
    hide LocksOk;
    hide LocksMove;
    forall d | 0 <= d < |m.cpus| && d != c ensures HeldOn(m', d) == HeldOn(m, d) {
      HeldElsewhere(m, m', guard, c, v, d);
    }
    LocksFollow(m, m', c);
  }

  lemma LocalCpus(m: Machine, m': Machine, guard: nat -> Option<nat>, c: nat, v: Option<nat>, d: nat)
    requires Inv(m, guard) && c < |m.cpus| && Local(m, m', c, v) && Fits(m') && d < |m.cpus| && d != c
    ensures CpuOk(m', d) && GuardsOk(m', guard, S(d))
  {
    assert CpuOk(m, d) && CpuOk(m, c) && GuardsOk(m, guard, S(d));
    OnlyHere(m, guard, c, d);
    var pc := m.spcs[d];
    if pc.Chosen? || pc.Returned? {
      assert TaskLock(pc.t) in HeldOn(m, d);
      assert TaskOk(m, pc.t);
    }
  }

  lemma TaskFrame(m: Machine, m': Machine, c: nat, u: nat)
    requires Fits(m) && Fits(m') && c < |m.cpus| && |m'.cpus| == |m.cpus| && |m'.tasks| == |m.tasks|
    requires u < |m.tasks| && TaskOk(m, u) && m'.tasks[u] == m.tasks[u] && OwnerLocal(m, m', c)
    requires forall d :: 0 <= d < |m.cpus| ==> m'.cpus[d].on == m.cpus[d].on
    requires forall d :: 0 <= d < |m.cpus| && d != c ==> m'.spcs[d] == m.spcs[d]
    requires !m.spcs[c].Chosen?
    ensures TaskOk(m', u)
  {
  }

  lemma LocalTasks(m: Machine, m': Machine, guard: nat -> Option<nat>, c: nat, v: Option<nat>, u: nat)
    requires Inv(m, guard) && c < |m.cpus| && Local(m, m', c, v) && Fits(m') && LocksMove(m, m', c)
    requires u < |m.tasks| && T(u) != m.cpus[c].on && Some(u) != v
    ensures TaskOk(m', u) && GuardsOk(m', guard, T(u))
  {
    assert TaskOk(m, u) && GuardsOk(m, guard, T(u));
    hide TaskOk;
    hide LocksOk;
    hide LocksMove;
    hide Fits;
    LocksMoveLocally(m, m', c);
    TaskFrame(m, m', c, u);
  }

  /** Whatever CPU c still owed to task u under a guard lock it still owes. */
  ghost predicate KeepsPromise(m: Machine, m': Machine, guard: nat -> Option<nat>, c: nat, u: nat, ch: nat)
    requires Fits(m) && Fits(m') && c < |m.cpus| == |m'.cpus| && u < |m.tasks| == |m'.tasks|
  {
    guard(ch).Some? && ch in m'.cond && Waits(m'.tasks[u], ch) ==>
      || (ch in m.cond && Waits(m.tasks[u], ch)
          && var l := CondLock(guard(ch).value);
             l in m.owner && m.owner[l] == c && WillWake(PcOf(m, m.cpus[c].on), ch, u) ==>
               l in m'.owner && m'.owner[l] == c && WillWake(PcOf(m', m'.cpus[c].on), ch, u))
      || (var l := CondLock(guard(ch).value);
          l in m'.owner && m'.owner[l] == c && WillWake(PcOf(m', m'.cpus[c].on), ch, u))
  }

  lemma LocalWakes(m: Machine, m': Machine, guard: nat -> Option<nat>, c: nat, v: Option<nat>, u: nat, ch: nat)
    requires Inv(m, guard) && c < |m.cpus| && Local(m, m', c, v) && Fits(m') && LocksMove(m, m', c)
    requires u < |m.tasks| && KeepsPromise(m, m', guard, c, u, ch)
    ensures WakeOk(m', guard, u, ch)
  {
    assert WakeOk(m, guard, u, ch);
    if guard(ch).Some? {
      var l := CondLock(guard(ch).value);
      if l in m.owner && m.owner[l] != c && m.owner[l] < |m.cpus| {
        var d := m.owner[l];
        OnlyHere(m, guard, c, d);
        assert CpuOk(m, d) && CpuOk(m, c);
      }
    }
    hide HeldOn;
    hide Held;
  }

  lemma LocalKeeps(m: Machine, m': Machine, guard: nat -> Option<nat>, c: nat, v: Option<nat>)
    requires Inv(m, guard) && c < |m.cpus| && Local(m, m', c, v) && Fits(m') && LocksMove(m, m', c)
    requires CpuOk(m', c) && GuardsOk(m', guard, S(c))
    requires m.cpus[c].on.T? ==> TaskOk(m', m.cpus[c].on.t) && GuardsOk(m', guard, m.cpus[c].on)
    requires v.Some? ==> TaskOk(m', v.value) && GuardsOk(m', guard, T(v.value))
    requires forall u, ch :: 0 <= u < |m.tasks| && ch >= 0 ==> KeepsPromise(m, m', guard, c, u, ch)
    ensures Inv(m', guard)
  {
    LocalLocks(m, m', guard, c, v);
    forall d | 0 <= d < |m.cpus| ensures CpuOk(m', d) && GuardsOk(m', guard, S(d)) {
      if d != c { LocalCpus(m, m', guard, c, v, d); }
    }
    forall u | 0 <= u < |m.tasks| ensures TaskOk(m', u) && GuardsOk(m', guard, T(u)) {
      if T(u) != m.cpus[c].on && Some(u) != v { LocalTasks(m, m', guard, c, v, u); }
    }
    forall u, ch | 0 <= u < |m.tasks| && ch >= 0 ensures WakeOk(m', guard, u, ch) {
      LocalWakes(m, m', guard, c, v, u, ch);
    }
    hide LocksMove;
    hide Local;
    hide TaskOk;
    hide CpuOk;
  }

  /** The new program point of CPU c's context is acceptable in m'. */
  ghost predicate PointOk(m': Machine, guard: nat -> Option<nat>, c: nat)
    requires Fits(m') && c < |m'.cpus|
  {
    && CpuOk(m', c) && GuardsOk(m', guard, S(c))
    && (m'.cpus[c].on.T? ==> TaskOk(m', m'.cpus[c].on.t) && GuardsOk(m', guard, m'.cpus[c].on))
  }

  ghost predicate Promises(m: Machine, m': Machine, guard: nat -> Option<nat>, c: nat)
    requires Fits(m) && Fits(m') && c < |m.cpus| == |m'.cpus| && |m.tasks| == |m'.tasks|
  {
    forall u, ch :: 0 <= u < |m.tasks| && ch >= 0 ==> KeepsPromise(m, m', guard, c, u, ch)
  }

  ghost function Taken(m: Machine, c: nat, l: Lk, pc: Pc): Machine
    requires Fits(m) && c < |m.cpus|
  {
    SetPc(m.(owner := m.owner[l := c], cpus := m.cpus[c := Acquired(m.cpus[c])]), m.cpus[c].on, pc)
  }

  ghost function Given(m: Machine, c: nat, l: Lk, pc: Pc): Machine
    requires Fits(m) && c < |m.cpus| && m.cpus[c].level > 0
  {
    SetPc(m.(owner := m.owner - {l}, cpus := m.cpus[c := Released(m.cpus[c])]), m.cpus[c].on, pc)
  }

  lemma TakeLocal(m: Machine, c: nat, l: Lk, pc: Pc)
    requires Fits(m) && c < |m.cpus| && l !in m.owner
    requires Held(m.cpus[c].on, pc) == HeldOn(m, c) + {l} && !m.spcs[c].Chosen? && !pc.Parked?
    requires Fits(Taken(m, c, l, pc))
    ensures Local(m, Taken(m, c, l, pc), c, None) && LocksMove(m, Taken(m, c, l, pc), c)
  {
    assert HeldOn(Taken(m, c, l, pc), c) == HeldOn(m, c) + {l} by { hide Held; }
    hide HeldOn;
  }

  lemma TakeKeeps(m: Machine, guard: nat -> Option<nat>, c: nat, l: Lk, pc: Pc)
    requires Inv(m, guard) && c < |m.cpus| && l !in m.owner && Held(m.cpus[c].on, pc) == HeldOn(m, c) + {l}
    requires !m.spcs[c].Chosen? && !pc.Parked?
    requires var m' := Taken(m, c, l, pc); Fits(m') && PointOk(m', guard, c) && Promises(m, m', guard, c)
    ensures Inv(Taken(m, c, l, pc), guard)
  {
    var m' := Taken(m, c, l, pc);
    TakeLocal(m, c, l, pc);
    hide *;
    LocalKeeps(m, m', guard, c, None);
  }

  lemma GiveLocal(m: Machine, c: nat, l: Lk, pc: Pc)
    requires Fits(m) && c < |m.cpus| && l in m.owner && m.owner[l] == c && m.cpus[c].level > 0
    requires Held(m.cpus[c].on, pc) == HeldOn(m, c) - {l} && !m.spcs[c].Chosen? && !pc.Parked?
    requires Fits(Given(m, c, l, pc))
    ensures Local(m, Given(m, c, l, pc), c, None) && LocksMove(m, Given(m, c, l, pc), c)
  {
    assert HeldOn(Given(m, c, l, pc), c) == HeldOn(m, c) - {l} by { hide Held; }
    hide HeldOn;
  }

  lemma HolderHasLevel(m: Machine, c: nat, l: Lk)
    requires Fits(m) && LocksOk(m) && c < |m.cpus| && l in HeldOn(m, c)
    ensures l in m.owner && m.owner[l] == c && m.cpus[c].level > 0
  {
    hide HeldOn;
    hide Fits;
    assert HeldOn(m, c) != {};
  }

  lemma GiveKeeps(m: Machine, guard: nat -> Option<nat>, c: nat, l: Lk, pc: Pc)
    requires Inv(m, guard) && c < |m.cpus| && l in HeldOn(m, c) && Held(m.cpus[c].on, pc) == HeldOn(m, c) - {l}
    requires !m.spcs[c].Chosen? && !pc.Parked? && m.cpus[c].level > 0
    requires var m' := Given(m, c, l, pc); Fits(m') && PointOk(m', guard, c) && Promises(m, m', guard, c)
    ensures Inv(Given(m, c, l, pc), guard)
  {
    HolderHasLevel(m, c, l);
    var m' := Given(m, c, l, pc);
    GiveLocal(m, c, l, pc);
    hide *;
    LocalKeeps(m, m', guard, c, None);
  }

  /** What the invariant says about CPU c and the context it runs. */
  lemma Here(m: Machine, guard: nat -> Option<nat>, c: nat)
    requires Inv(m, guard) && c < |m.cpus|
    ensures LocksOk(m) && CpuOk(m, c) && GuardsOk(m, guard, S(c))
    ensures m.cpus[c].on.T? ==> TaskOk(m, m.cpus[c].on.t) && GuardsOk(m, guard, m.cpus[c].on)
  {
  }

  // ---------------------------------------------------------------- ordinary code

  lemma LockKeeps(m: Machine, guard: nat -> Option<nat>, c: nat, lock: nat)
    requires Inv(m, guard) && c < |m.cpus| && PcOf(m, m.cpus[c].on).Plain? && PcOf(m, m.cpus[c].on).held.None?
    requires CondLock(lock) !in m.owner
    ensures Inv(Taken(m, c, CondLock(lock), Plain(Some(lock), {})), guard)
  {
    assert CpuOk(m, c);
    var x := m.cpus[c].on;
    if x.T? { assert TaskOk(m, x.t); }
    TakeKeeps(m, guard, c, CondLock(lock), Plain(Some(lock), {}));
  }

  lemma UnlockKeeps(m: Machine, guard: nat -> Option<nat>, c: nat)
    requires Inv(m, guard) && c < |m.cpus| && PcOf(m, m.cpus[c].on).Plain?
    requires PcOf(m, m.cpus[c].on).held.Some? && PcOf(m, m.cpus[c].on).owes == {}
    ensures var r := Give(m, c, CondLock(PcOf(m, m.cpus[c].on).held.value), Plain(None, {}));
      r.Ok? && Inv(r.value, guard)
  {
    assert CpuOk(m, c);
    var x := m.cpus[c].on;
    if x.T? { assert TaskOk(m, x.t); }
    var l := CondLock(PcOf(m, x).held.value);
    HolderHasLevel(m, c, l);
    GiveKeeps(m, guard, c, l, Plain(None, {}));
  }

  lemma SetCondKeeps(m: Machine, guard: nat -> Option<nat>, c: nat, ch: nat)
    requires Inv(m, guard) && c < |m.cpus| && PcOf(m, m.cpus[c].on).Plain?
    requires PcOf(m, m.cpus[c].on).held.Some? && guard(ch) == PcOf(m, m.cpus[c].on).held
    ensures var x := m.cpus[c].on;
      Inv(SetPc(m.(cond := m.cond + {ch}), x, Plain(PcOf(m, x).held, PcOf(m, x).owes + {ch})), guard)
  {
    var x := m.cpus[c].on;
    var pc := PcOf(m, x);
    assert CpuOk(m, c) && GuardsOk(m, guard, x);
    if x.T? { assert TaskOk(m, x.t); }
    assert GuardsOk(m, guard, S(c));
    var l := CondLock(pc.held.value);
    HolderHasLevel(m, c, l);
    var m' := SetPc(m.(cond := m.cond + {ch}), x, Plain(pc.held, pc.owes + {ch}));
    assert HeldOn(m', c) == HeldOn(m, c);
    LocalKeeps(m, m', guard, c, None);
  }

  lemma ClearCondKeeps(m: Machine, guard: nat -> Option<nat>, c: nat, ch: nat)
    requires Inv(m, guard) && c < |m.cpus| && PcOf(m, m.cpus[c].on).Plain?
    ensures Inv(m.(cond := m.cond - {ch}), guard)
  {
    var x := m.cpus[c].on;
    assert CpuOk(m, c) && GuardsOk(m, guard, x) && GuardsOk(m, guard, S(c));
    if x.T? { assert TaskOk(m, x.t); }
    var m' := m.(cond := m.cond - {ch});
    assert HeldOn(m', c) == HeldOn(m, c);
    LocalKeeps(m, m', guard, c, None);
  }

  lemma WakeStartKeeps(m: Machine, guard: nat -> Option<nat>, c: nat, ch: nat)
    requires Inv(m, guard) && c < |m.cpus| && PcOf(m, m.cpus[c].on).Plain?
    ensures var x := m.cpus[c].on;
      Inv(SetPc(m, x, Waking(PcOf(m, x).held, ch, 0, 0, PcOf(m, x).owes)), guard)
  {
    var x := m.cpus[c].on;
    var pc := PcOf(m, x);
    Here(m, guard, c);
    var m' := SetPc(m, x, Waking(pc.held, ch, 0, 0, pc.owes));
    WakeStartPoint(m, guard, c, ch);
    hide *;
    LocalKeeps(m, m', guard, c, None);
  }

  lemma WakeStartPoint(m: Machine, guard: nat -> Option<nat>, c: nat, ch: nat)
    requires Fits(m) && c < |m.cpus| && PcOf(m, m.cpus[c].on).Plain?
    requires PointOk(m, guard, c)
    ensures var x := m.cpus[c].on;
      var m' := SetPc(m, x, Waking(PcOf(m, x).held, ch, 0, 0, PcOf(m, x).owes));
      && Local(m, m', c, None) && Fits(m') && LocksMove(m, m', c) && CpuOk(m', c) && GuardsOk(m', guard, S(c))
      && (x.T? ==> TaskOk(m', x.t) && GuardsOk(m', guard, x))
      && (forall u, ch :: 0 <= u < |m.tasks| && ch >= 0 ==> KeepsPromise(m, m', guard, c, u, ch))
  {
    var x := m.cpus[c].on;
    var m' := SetPc(m, x, Waking(PcOf(m, x).held, ch, 0, 0, PcOf(m, x).owes));
    assert HeldOn(m', c) == HeldOn(m, c);
    assert Promises(m, m', guard, c) by {
      hide TaskOk;
      hide CpuOk;
      hide HeldOn;
    }
    hide KeepsPromise;
  }

  /** A running task's lock is free or its own to take: whoever has it, has it elsewhere. */
  lemma YieldKeeps(m: Machine, guard: nat -> Option<nat>, c: nat, t: nat)
    requires Inv(m, guard) && c < |m.cpus| && m.cpus[c].on == T(t) && m.tasks[t].pc == Plain(None, {})
    requires TaskLock(t) !in m.owner
    ensures Inv(Taken(m, c, TaskLock(t), Yield0), guard)
  {
    assert CpuOk(m, c) && TaskOk(m, t) && GuardsOk(m, guard, S(c));
    TakeKeeps(m, guard, c, TaskLock(t), Yield0);
  }

  lemma SleepOnKeeps(m: Machine, guard: nat -> Option<nat>, c: nat, t: nat, ch: nat, l: Option<nat>)
    requires Inv(m, guard) && c < |m.cpus| && m.cpus[c].on == T(t) && m.tasks[t].pc == Plain(l, {})
    requires guard(ch) == l && (l.Some? ==> ch !in m.cond) && TaskLock(t) !in m.owner
    ensures Inv(Taken(m, c, TaskLock(t), if l.Some? then Sleep0(ch, l) else Sleep1(ch, l)), guard)
  {
    assert CpuOk(m, c) && TaskOk(m, t) && GuardsOk(m, guard, S(c));
    TakeKeeps(m, guard, c, TaskLock(t), if l.Some? then Sleep0(ch, l) else Sleep1(ch, l));
  }

  lemma PickKeeps(m: Machine, guard: nat -> Option<nat>, c: nat, t: nat)
    requires Inv(m, guard) && c < |m.cpus| && m.cpus[c].on == S(c) && m.spcs[c] == Plain(None, {})
    requires TaskLock(t) !in m.owner && t < |m.tasks|
    ensures Inv(Taken(m, c, TaskLock(t), Picked(t)), guard)
  {
    assert CpuOk(m, c);
    TakeKeeps(m, guard, c, TaskLock(t), Picked(t));
  }

  lemma InterruptsKeeps(m: Machine, guard: nat -> Option<nat>, c: nat, on: bool)
    requires Inv(m, guard) && c < |m.cpus| && m.cpus[c].level == 0 && PcOf(m, m.cpus[c].on).Plain?
    ensures Inv(m.(cpus := m.cpus[c := m.cpus[c].(intr := on)]), guard)
  {
    var x := m.cpus[c].on;
    assert CpuOk(m, c) && GuardsOk(m, guard, x) && GuardsOk(m, guard, S(c));
    if x.T? { assert TaskOk(m, x.t); }
    var m' := m.(cpus := m.cpus[c := m.cpus[c].(intr := on)]);
    assert HeldOn(m', c) == HeldOn(m, c);
    LocalKeeps(m, m', guard, c, None);
  }

  /** Ordinary code never panics and keeps the invariant. */
  lemma PlainStepKeeps(m: Machine, guard: nat -> Option<nat>, c: nat, a: Act)
    requires Inv(m, guard) && c < |m.cpus| && PcOf(m, m.cpus[c].on).Plain?
    ensures PlainStep(m, guard, c, a).Ok? && Inv(PlainStep(m, guard, c, a).value, guard)
  {
    var x := m.cpus[c].on;
    var pc := PcOf(m, x);
    assert CpuOk(m, c);
    if x.T? { assert TaskOk(m, x.t); }
    assert forall l :: l in m.owner && m.owner[l] == c ==> l in HeldOn(m, c);
    assert HeldOn(m, c) == OptLock(pc.held);
    hide LocksOk;
    hide CpuOk;
    hide TaskOk;
    hide WakeOk;
    match a
    case Lock(lock) => if CondLock(lock) !in m.owner && pc.held.None? { LockKeeps(m, guard, c, lock); }
    case Unlock => if pc.held.Some? && pc.owes == {} { UnlockKeeps(m, guard, c); }
    case SetCond(ch) => if pc.held.Some? && guard(ch) == pc.held { SetCondKeeps(m, guard, c, ch); }
    case ClearCond(ch) => ClearCondKeeps(m, guard, c, ch);
    case Wake(ch) => WakeStartKeeps(m, guard, c, ch);
    case Yield => if x.T? && pc.held.None? && TaskLock(x.t) !in m.owner { YieldKeeps(m, guard, c, x.t); }
    case SleepOn(ch, l) =>
      if x.T? && pc.held == l == guard(ch) && pc.owes == {} && (l.Some? ==> ch !in m.cond) && TaskLock(x.t) !in m.owner {
        SleepOnKeeps(m, guard, c, x.t, ch, l);
      }
    case Pick(t) =>
      if x.S? && pc.held.None? && t < |m.tasks| && TaskLock(t) !in m.owner { PickKeeps(m, guard, c, t); }
    case Interrupts(on) => if m.cpus[c].level == 0 { InterruptsKeeps(m, guard, c, on); }
    case Advance =>
  }

  // ---------------------------------------------------------------- the wakeup loop

  lemma WakeEndKeeps(m: Machine, guard: nat -> Option<nat>, c: nat)
    requires Inv(m, guard) && c < |m.cpus| && PcOf(m, m.cpus[c].on).Waking?
    requires PcOf(m, m.cpus[c].on).stage == 0 && PcOf(m, m.cpus[c].on).i >= |m.tasks|
    ensures WakeStep(m, c).Ok? && Inv(WakeStep(m, c).value, guard)
  {
    var x := m.cpus[c].on;
    Here(m, guard, c);
    var m' := WakeStep(m, c).value;
    assert HeldOn(m', c) == HeldOn(m, c);
    assert Promises(m, m', guard, c) by {
      hide TaskOk;
      hide CpuOk;
      hide LocksOk;
      hide WakeOk;
      hide HeldOn;
    }
    hide LocksOk;
    hide WakeOk;
    hide KeepsPromise;
    LocalKeeps(m, m', guard, c, None);
  }

  lemma WakeSkipKeeps(m: Machine, guard: nat -> Option<nat>, c: nat)
    requires Inv(m, guard) && c < |m.cpus| && PcOf(m, m.cpus[c].on).Waking?
    requires PcOf(m, m.cpus[c].on).stage == 0 && m.cpus[c].on == T(PcOf(m, m.cpus[c].on).i)
    ensures WakeStep(m, c).Ok? && Inv(WakeStep(m, c).value, guard)
  {
    var x := m.cpus[c].on;
    assert CpuOk(m, c) && GuardsOk(m, guard, x) && GuardsOk(m, guard, S(c)) && TaskOk(m, x.t);
    var m' := WakeStep(m, c).value;
    assert HeldOn(m', c) == HeldOn(m, c);
    LocalKeeps(m, m', guard, c, None);
  }

  lemma WakeTakePoint(m: Machine, guard: nat -> Option<nat>, c: nat)
    requires Fits(m) && c < |m.cpus| && PcOf(m, m.cpus[c].on).Waking? && PcOf(m, m.cpus[c].on).stage == 0
    requires CpuOk(m, c) && GuardsOk(m, guard, S(c))
    requires m.cpus[c].on.T? ==> TaskOk(m, m.cpus[c].on.t) && GuardsOk(m, guard, m.cpus[c].on)
    requires var i := PcOf(m, m.cpus[c].on).i; i < |m.tasks| && m.cpus[c].on != T(i)
    ensures var pc := PcOf(m, m.cpus[c].on);
      && Fits(Taken(m, c, TaskLock(pc.i), pc.(stage := 1)))
      && PointOk(Taken(m, c, TaskLock(pc.i), pc.(stage := 1)), guard, c)
      && Held(m.cpus[c].on, pc.(stage := 1)) == HeldOn(m, c) + {TaskLock(pc.i)}
  {
  }

  lemma WakeTakePromises(m: Machine, guard: nat -> Option<nat>, c: nat)
    requires Fits(m) && c < |m.cpus| && PcOf(m, m.cpus[c].on).Waking? && PcOf(m, m.cpus[c].on).stage == 0
    requires var i := PcOf(m, m.cpus[c].on).i; i < |m.tasks| && m.cpus[c].on != T(i)
    requires var pc := PcOf(m, m.cpus[c].on); Fits(Taken(m, c, TaskLock(pc.i), pc.(stage := 1)))
    ensures var pc := PcOf(m, m.cpus[c].on); Promises(m, Taken(m, c, TaskLock(pc.i), pc.(stage := 1)), guard, c)
  {
  }

  lemma WakeTakeKeeps(m: Machine, guard: nat -> Option<nat>, c: nat)
    requires Inv(m, guard) && c < |m.cpus| && PcOf(m, m.cpus[c].on).Waking?
    requires var pc := PcOf(m, m.cpus[c].on);
      pc.stage == 0 && pc.i < |m.tasks| && m.cpus[c].on != T(pc.i) && TaskLock(pc.i) !in m.owner
    ensures WakeStep(m, c).Ok? && Inv(WakeStep(m, c).value, guard)
  {
    var pc := PcOf(m, m.cpus[c].on);
    Here(m, guard, c);
    WakeTakePoint(m, guard, c);
    WakeTakePromises(m, guard, c);
    assert !m.spcs[c].Chosen?;
    assert WakeStep(m, c) == Ok(Taken(m, c, TaskLock(pc.i), pc.(stage := 1)));
    hide *;
    TakeKeeps(m, guard, c, TaskLock(pc.i), pc.(stage := 1));
  }

  lemma WakeLookPoint(m: Machine, guard: nat -> Option<nat>, c: nat)
    requires Fits(m) && c < |m.cpus| && PcOf(m, m.cpus[c].on).Waking? && PcOf(m, m.cpus[c].on).stage == 1
    requires CpuOk(m, c) && GuardsOk(m, guard, S(c))
    requires m.cpus[c].on.T? ==> TaskOk(m, m.cpus[c].on.t) && GuardsOk(m, guard, m.cpus[c].on)
    requires var i := PcOf(m, m.cpus[c].on).i;
      && i < |m.tasks| && m.cpus[c].on != T(i) && TaskOk(m, i) && GuardsOk(m, guard, T(i))
      && TaskLock(i) in m.owner && m.owner[TaskLock(i)] == c
      && (m.tasks[i].pc.Parked? || m.tasks[i].pc.Plain? || m.tasks[i].pc.Waking? || m.tasks[i].pc.Relock?)
    ensures WakeStep(m, c).Ok?
    ensures var m', i := WakeStep(m, c).value, PcOf(m, m.cpus[c].on).i;
      && Local(m, m', c, Some(i)) && Fits(m') && m'.owner == m.owner && m'.cpus == m.cpus
      && HeldOn(m', c) == HeldOn(m, c) && PointOk(m', guard, c) && TaskOk(m', i) && GuardsOk(m', guard, T(i))
  {
  }

  /** The look at task i under its lock: a task on its way to sleep holds its own lock, so what the
      loop finds is parked, and asleep on the channel exactly when its state and chan say so. */
  lemma WakeLookKeeps(m: Machine, guard: nat -> Option<nat>, c: nat)
    requires Inv(m, guard) && c < |m.cpus| && PcOf(m, m.cpus[c].on).Waking? && PcOf(m, m.cpus[c].on).stage == 1
    ensures WakeStep(m, c).Ok? && Inv(WakeStep(m, c).value, guard)
  {
    var x := m.cpus[c].on;
    var i := PcOf(m, x).i;
    assert CpuOk(m, c) && GuardsOk(m, guard, x) && GuardsOk(m, guard, S(c));
    if x.T? { assert TaskOk(m, x.t); }
    assert TaskLock(i) in HeldOn(m, c);
    assert TaskOk(m, i) && GuardsOk(m, guard, T(i));
    LockedMeansParked(m, guard, c, i);
    hide CpuOk;
    hide TaskOk;
    hide GuardsOk;
    hide WakeOk;
    hide Promises;
    hide WakeStep;
    WakeLookPromises(m, guard, c);
    WakeLookPoint(m, guard, c);
    LookedKeeps(m, WakeStep(m, c).value, guard, c, i);
  }

  lemma LookedKeeps(m: Machine, m': Machine, guard: nat -> Option<nat>, c: nat, i: nat)
    requires Inv(m, guard) && c < |m.cpus| && Local(m, m', c, Some(i)) && Fits(m') && m'.owner == m.owner
    requires HeldOn(m', c) == HeldOn(m, c) && m'.cpus == m.cpus && PointOk(m', guard, c)
    requires TaskOk(m', i) && GuardsOk(m', guard, T(i)) && Promises(m, m', guard, c)
    ensures Inv(m', guard)
  {
    hide LocksOk;
    hide WakeOk;
    hide KeepsPromise;
    hide HeldOn;
    LocalKeeps(m, m', guard, c, Some(i));
  }

  lemma WakeLookPromises(m: Machine, guard: nat -> Option<nat>, c: nat)
    requires Inv(m, guard) && c < |m.cpus| && PcOf(m, m.cpus[c].on).Waking? && PcOf(m, m.cpus[c].on).stage == 1
    requires var i := PcOf(m, m.cpus[c].on).i;
      i < |m.tasks| && m.cpus[c].on != T(i) && TaskOk(m, i)
      && (m.tasks[i].pc.Parked? || m.tasks[i].pc.Plain? || m.tasks[i].pc.Waking? || m.tasks[i].pc.Relock?)
    ensures WakeStep(m, c).Ok? && Fits(WakeStep(m, c).value) && |WakeStep(m, c).value.cpus| == |m.cpus|
    ensures |WakeStep(m, c).value.tasks| == |m.tasks| && Promises(m, WakeStep(m, c).value, guard, c)
  {
    hide LocksOk;
    hide WakeOk;
    hide CpuOk;
    hide Held;
  }

  /** A task whose lock another context holds is parked or at a point that needs no lock. */
  lemma LockedMeansParked(m: Machine, guard: nat -> Option<nat>, c: nat, i: nat)
    requires Inv(m, guard) && c < |m.cpus| && i < |m.tasks| && m.cpus[c].on != T(i) && TaskLock(i) in HeldOn(m, c)
    ensures var k := m.tasks[i];
      k.pc.Parked? || k.pc.Plain? || k.pc.Waking? || k.pc.Relock?
  {
    assert TaskOk(m, i);
    if !m.tasks[i].pc.Parked? {
      var d := m.tasks[i].place.value;
      assert TaskLock(i) !in HeldOn(m, d);
    }
  }

  lemma WakeGivePoint(m: Machine, guard: nat -> Option<nat>, c: nat)
    requires Fits(m) && c < |m.cpus| && PcOf(m, m.cpus[c].on).Waking? && PcOf(m, m.cpus[c].on).stage == 2
    requires CpuOk(m, c) && GuardsOk(m, guard, S(c)) && m.cpus[c].level > 0
    requires m.cpus[c].on.T? ==> TaskOk(m, m.cpus[c].on.t) && GuardsOk(m, guard, m.cpus[c].on)
    ensures var pc := PcOf(m, m.cpus[c].on);
      var pc' := pc.(i := pc.i + 1, stage := 0);
      var m' := Given(m, c, TaskLock(pc.i), pc');
      && pc.i < |m.tasks| && TaskLock(pc.i) in HeldOn(m, c) && Held(m.cpus[c].on, pc') == HeldOn(m, c) - {TaskLock(pc.i)}
      && !m.spcs[c].Chosen? && Fits(m') && PointOk(m', guard, c) && Promises(m, m', guard, c)
  {
  }

  lemma WakeGiveKeeps(m: Machine, guard: nat -> Option<nat>, c: nat)
    requires Inv(m, guard) && c < |m.cpus| && PcOf(m, m.cpus[c].on).Waking? && PcOf(m, m.cpus[c].on).stage == 2
    ensures WakeStep(m, c).Ok? && Inv(WakeStep(m, c).value, guard)
  {
    hide CpuOk;
    hide TaskOk;
    hide GuardsOk;
    hide WakeOk;
    hide LocksOk;
    hide Promises;
    hide PointOk;
    var x := m.cpus[c].on;
    var pc := PcOf(m, x);
    Here(m, guard, c);
    HolderHasLevel(m, c, TaskLock(pc.i));
    WakeGivePoint(m, guard, c);
    GiveKeeps(m, guard, c, TaskLock(pc.i), pc.(i := pc.i + 1, stage := 0));
  }

  lemma WakeStepKeeps(m: Machine, guard: nat -> Option<nat>, c: nat)
    requires Inv(m, guard) && c < |m.cpus| && PcOf(m, m.cpus[c].on).Waking?
    ensures WakeStep(m, c).Ok? && Inv(WakeStep(m, c).value, guard)
  {
    var x := m.cpus[c].on;
    var pc := PcOf(m, x);
    assert CpuOk(m, c);
    if x.T? { assert TaskOk(m, x.t); }
    assert forall l :: l in m.owner && m.owner[l] == c ==> l in HeldOn(m, c);
    hide LocksOk;
    hide CpuOk;
    hide TaskOk;
    hide WakeOk;
    if pc.stage == 0 {
      if pc.i >= |m.tasks| { WakeEndKeeps(m, guard, c); }
      else if x == T(pc.i) { WakeSkipKeeps(m, guard, c); }
      else if TaskLock(pc.i) !in m.owner { WakeTakeKeeps(m, guard, c); }
    } else if pc.stage == 1 { WakeLookKeeps(m, guard, c); }
    else { WakeGiveKeeps(m, guard, c); }
  }

  // ---------------------------------------------------------------- yield and sleep

  /** Statements that only touch the running task's own fields. */
  lemma OwnFieldKeeps(m: Machine, guard: nat -> Option<nat>, c: nat, t: nat, k: Task)
    requires Inv(m, guard) && c < |m.cpus| && m.cpus[c].on == T(t) && t < |m.tasks|
    requires k.place == m.tasks[t].place && !k.pc.Parked? && Held(T(t), k.pc) == Held(T(t), m.tasks[t].pc)
    requires !m.tasks[t].pc.Plain? && !m.tasks[t].pc.Waking? && !k.pc.Plain? && !k.pc.Waking?
    requires forall ch :: ch >= 0 && Waits(k, ch) ==> Waits(m.tasks[t], ch)
    requires TaskOk(SetTask(m, t, k), t)
    ensures Inv(SetTask(m, t, k), guard)
  {
    hide TaskOk;
    hide WakeOk;
    hide LocksOk;
    Here(m, guard, c);
    var m' := SetTask(m, t, k);
    assert HeldOn(m', c) == HeldOn(m, c);
    LocalKeeps(m, m', guard, c, None);
  }

  lemma YieldStateKeeps(m: Machine, guard: nat -> Option<nat>, c: nat, t: nat)
    requires Inv(m, guard) && c < |m.cpus| && m.cpus[c].on == T(t) && m.tasks[t].pc == Yield0
    ensures Inv(SetTask(m, t, m.tasks[t].(state := Ready, pc := Yield1)), guard)
  {
    assert TaskOk(m, t);
    OwnFieldKeeps(m, guard, c, t, m.tasks[t].(state := Ready, pc := Yield1));
  }

  lemma SleepChanKeeps(m: Machine, guard: nat -> Option<nat>, c: nat, t: nat)
    requires Inv(m, guard) && c < |m.cpus| && m.cpus[c].on == T(t) && m.tasks[t].pc.Sleep1?
    ensures var pc := m.tasks[t].pc;
      Inv(SetTask(m, t, m.tasks[t].(chan := Some(pc.ch), pc := Sleep2(pc.ch, pc.l))), guard)
  {
    assert TaskOk(m, t);
    var pc := m.tasks[t].pc;
    OwnFieldKeeps(m, guard, c, t, m.tasks[t].(chan := Some(pc.ch), pc := Sleep2(pc.ch, pc.l)));
  }

  lemma SleepStateKeeps(m: Machine, guard: nat -> Option<nat>, c: nat, t: nat)
    requires Inv(m, guard) && c < |m.cpus| && m.cpus[c].on == T(t) && m.tasks[t].pc.Sleep2?
    ensures var pc := m.tasks[t].pc;
      Inv(SetTask(m, t, m.tasks[t].(state := Sleeping, pc := Sleep3(pc.ch, pc.l))), guard)
  {
    assert TaskOk(m, t);
    var pc := m.tasks[t].pc;
    OwnFieldKeeps(m, guard, c, t, m.tasks[t].(state := Sleeping, pc := Sleep3(pc.ch, pc.l)));
  }

  lemma ResumeChanKeeps(m: Machine, guard: nat -> Option<nat>, c: nat, t: nat)
    requires Inv(m, guard) && c < |m.cpus| && m.cpus[c].on == T(t) && m.tasks[t].pc.Back? && m.tasks[t].pc.after.FromSleep?
    ensures Inv(SetTask(m, t, m.tasks[t].(chan := None, pc := Back2(m.tasks[t].pc.after.l))), guard)
  {
    assert TaskOk(m, t);
    OwnFieldKeeps(m, guard, c, t, m.tasks[t].(chan := None, pc := Back2(m.tasks[t].pc.after.l)));
  }

  /** sleep releases the condition lock only after taking the task lock. */
  lemma SleepReleaseKeeps(m: Machine, guard: nat -> Option<nat>, c: nat, t: nat)
    requires Inv(m, guard) && c < |m.cpus| && m.cpus[c].on == T(t) && m.tasks[t].pc.Sleep0?
    ensures TaskStep(m, c, t).Ok? && Inv(TaskStep(m, c, t).value, guard)
  {
    Here(m, guard, c);
    var pc := m.tasks[t].pc;
    HolderHasLevel(m, c, CondLock(pc.l.value));
    hide LocksOk;
    hide WakeOk;
    GiveKeeps(m, guard, c, CondLock(pc.l.value), Sleep1(pc.ch, pc.l));
  }

  /** The task lock taken by the scheduler is released by the task it switched to. */
  lemma ResumeReleaseKeeps(m: Machine, guard: nat -> Option<nat>, c: nat, t: nat, pc: Pc)
    requires Inv(m, guard) && c < |m.cpus| && m.cpus[c].on == T(t) && (m.tasks[t].pc.Back? || m.tasks[t].pc.Back2?)
    requires pc == Plain(None, {}) || pc.Relock?
    ensures Give(m, c, TaskLock(t), pc).Ok? && Inv(Give(m, c, TaskLock(t), pc).value, guard)
  {
    Here(m, guard, c);
    HolderHasLevel(m, c, TaskLock(t));
    hide LocksOk;
    hide WakeOk;
    GiveKeeps(m, guard, c, TaskLock(t), pc);
  }

  lemma RelockKeeps(m: Machine, guard: nat -> Option<nat>, c: nat, t: nat)
    requires Inv(m, guard) && c < |m.cpus| && m.cpus[c].on == T(t) && m.tasks[t].pc.Relock?
    ensures TaskStep(m, c, t).Ok? && Inv(TaskStep(m, c, t).value, guard)
  {
    Here(m, guard, c);
    var l := CondLock(m.tasks[t].pc.lock);
    assert l !in HeldOn(m, c);
    if l !in m.owner {
      hide LocksOk;
      hide WakeOk;
      TakeKeeps(m, guard, c, l, Plain(Some(l.l), {}));
    }
  }

  // ---------------------------------------------------------------- context switches

  /** The program point of a task about to switch out, and what it does when it is switched back in. */
  predicate Leaves(pc: Pc, after: After) {
    || (pc == Yield1 && after == FromYield)
    || (pc.Sleep3? && after == FromSleep(pc.ch, pc.l))
  }

  /** Exactly one spin lock is held when a context switches, and the other side holds it next. */
  lemma SwitchOutLocks(m: Machine, guard: nat -> Option<nat>, c: nat, t: nat, after: After)
    requires Inv(m, guard) && c < |m.cpus| && m.cpus[c].on == T(t) && (m.tasks[t].pc.Yield1? || m.tasks[t].pc.Sleep3?)
    ensures m.spcs[c] == Away(t) && m.cpus[c].level == 1 && HeldOn(m, c) == {TaskLock(t)}
    ensures var m' := SwitchOut(m, c, t, after).value;
      && SwitchOut(m, c, t, after).Ok? && Fits(m') && HeldOn(m', c) == {TaskLock(t)} && LocksOk(m')
  {
    Here(m, guard, c);
    var m' := SwitchOut(m, c, t, after).value;
    assert HeldOn(m, c) == {TaskLock(t)};
    forall d | 0 <= d < |m.cpus| && d != c ensures HeldOn(m', d) == HeldOn(m, d) {
      OnlyHere(m, guard, c, d);
    }
    hide TaskOk;
    hide CpuOk;
    hide WakeOk;
    hide GuardsOk;
    hide Inv;
    LocksFollow(m, m', c);
  }

  lemma SwitchOutCpus(m: Machine, guard: nat -> Option<nat>, c: nat, t: nat, after: After, d: nat)
    requires Inv(m, guard) && c < |m.cpus| && m.cpus[c].on == T(t) && Leaves(m.tasks[t].pc, after) && m.spcs[c] == Away(t)
    requires SwitchOut(m, c, t, after).Ok? && Fits(SwitchOut(m, c, t, after).value) && HeldOn(m, c) == {TaskLock(t)}
    requires d < |m.cpus|
    ensures CpuOk(SwitchOut(m, c, t, after).value, d) && GuardsOk(SwitchOut(m, c, t, after).value, guard, S(d))
  {
    hide WakeOk;
    assert CpuOk(m, d) && CpuOk(m, c) && GuardsOk(m, guard, S(d)) && TaskOk(m, t);
    if d != c {
      OnlyHere(m, guard, c, d);
      if m.spcs[d].Chosen? || m.spcs[d].Returned? { assert TaskLock(m.spcs[d].t) in HeldOn(m, d); }
    }
  }

  lemma SwitchOutTasks(m: Machine, guard: nat -> Option<nat>, c: nat, t: nat, after: After, u: nat)
    requires Inv(m, guard) && c < |m.cpus| && m.cpus[c].on == T(t) && Leaves(m.tasks[t].pc, after) && m.spcs[c] == Away(t)
    requires SwitchOut(m, c, t, after).Ok? && Fits(SwitchOut(m, c, t, after).value) && HeldOn(m, c) == {TaskLock(t)}
    requires u < |m.tasks|
    ensures TaskOk(SwitchOut(m, c, t, after).value, u) && GuardsOk(SwitchOut(m, c, t, after).value, guard, T(u))
  {
    hide WakeOk;
    hide CpuOk;
    hide LocksOk;
    assert TaskOk(m, u) && TaskOk(m, t) && GuardsOk(m, guard, T(u));
  }

  lemma SwitchOutWakes(m: Machine, guard: nat -> Option<nat>, c: nat, t: nat, after: After, u: nat, ch: nat)
    requires Inv(m, guard) && c < |m.cpus| && m.cpus[c].on == T(t) && Leaves(m.tasks[t].pc, after) && m.spcs[c] == Away(t)
    requires SwitchOut(m, c, t, after).Ok? && Fits(SwitchOut(m, c, t, after).value) && HeldOn(m, c) == {TaskLock(t)}
    requires u < |m.tasks|
    ensures WakeOk(SwitchOut(m, c, t, after).value, guard, u, ch)
  {
    assert WakeOk(m, guard, u, ch) && TaskOk(m, t);
    if guard(ch).Some? {
      var l := CondLock(guard(ch).value);
      if l in m.owner && m.owner[l] < |m.cpus| {
        assert l in HeldOn(m, m.owner[l]);
        assert CpuOk(m, m.owner[l]);
        OnlyHere(m, guard, c, m.owner[l]);
      }
    }
  }

  lemma SwitchOutKeeps(m: Machine, guard: nat -> Option<nat>, c: nat, t: nat, after: After)
    requires Inv(m, guard) && c < |m.cpus| && m.cpus[c].on == T(t)
    requires Leaves(m.tasks[t].pc, after)
    ensures SwitchOut(m, c, t, after).Ok? && Inv(SwitchOut(m, c, t, after).value, guard)
  {
    SwitchOutLocks(m, guard, c, t, after);
    var m' := SwitchOut(m, c, t, after).value;
    hide TaskOk;
    hide CpuOk;
    hide WakeOk;
    hide GuardsOk;
    hide LocksOk;
    forall d | 0 <= d < |m.cpus| ensures CpuOk(m', d) && GuardsOk(m', guard, S(d)) {
      SwitchOutCpus(m, guard, c, t, after, d);
    }
    forall u | 0 <= u < |m.tasks| ensures TaskOk(m', u) && GuardsOk(m', guard, T(u)) {
      SwitchOutTasks(m, guard, c, t, after, u);
    }
    forall u, ch | 0 <= u < |m.tasks| && ch >= 0 ensures WakeOk(m', guard, u, ch) {
      SwitchOutWakes(m, guard, c, t, after, u, ch);
    }
  }

  lemma SwitchInLocks(m: Machine, guard: nat -> Option<nat>, c: nat, t: nat)
    requires Inv(m, guard) && c < |m.cpus| && m.cpus[c].on == S(c) && m.spcs[c] == Chosen(t)
    ensures t < |m.tasks| && m.tasks[t].pc.Parked? && m.cpus[c].level == 1 && HeldOn(m, c) == {TaskLock(t)}
    ensures var m' := SwitchIn(m, c, t).value;
      SwitchIn(m, c, t).Ok? && Fits(m') && HeldOn(m', c) == {TaskLock(t)} && LocksOk(m')
  {
    Here(m, guard, c);
    assert TaskOk(m, t);
    var m' := SwitchIn(m, c, t).value;
    assert HeldOn(m, c) == {TaskLock(t)};
    forall d | 0 <= d < |m.cpus| && d != c ensures HeldOn(m', d) == HeldOn(m, d) {
      OnlyHere(m, guard, c, d);
      assert CpuOk(m, d);
    }
    hide TaskOk;
    hide CpuOk;
    hide WakeOk;
    LocksFollow(m, m', c);
  }

  lemma SwitchInCpus(m: Machine, guard: nat -> Option<nat>, c: nat, t: nat, d: nat)
    requires Inv(m, guard) && c < |m.cpus| && m.cpus[c].on == S(c) && m.spcs[c] == Chosen(t)
    requires SwitchIn(m, c, t).Ok? && Fits(SwitchIn(m, c, t).value) && HeldOn(m, c) == {TaskLock(t)}
    requires d < |m.cpus|
    ensures CpuOk(SwitchIn(m, c, t).value, d) && GuardsOk(SwitchIn(m, c, t).value, guard, S(d))
  {
    hide WakeOk;
    assert CpuOk(m, d) && CpuOk(m, c) && GuardsOk(m, guard, S(d)) && TaskOk(m, t);
    if d != c {
      OnlyHere(m, guard, c, d);
      if m.spcs[d].Chosen? || m.spcs[d].Returned? { assert TaskLock(m.spcs[d].t) in HeldOn(m, d); }
    }
  }

  lemma SwitchInTasks(m: Machine, guard: nat -> Option<nat>, c: nat, t: nat, u: nat)
    requires Inv(m, guard) && c < |m.cpus| && m.cpus[c].on == S(c) && m.spcs[c] == Chosen(t)
    requires SwitchIn(m, c, t).Ok? && Fits(SwitchIn(m, c, t).value) && HeldOn(m, c) == {TaskLock(t)}
    requires u < |m.tasks|
    ensures TaskOk(SwitchIn(m, c, t).value, u) && GuardsOk(SwitchIn(m, c, t).value, guard, T(u))
  {
    hide WakeOk;
    hide LocksOk;
    assert CpuOk(m, c) && TaskOk(m, u) && TaskOk(m, t) && GuardsOk(m, guard, T(u));
  }

  lemma SwitchInWakes(m: Machine, guard: nat -> Option<nat>, c: nat, t: nat, u: nat, ch: nat)
    requires Inv(m, guard) && c < |m.cpus| && m.cpus[c].on == S(c) && m.spcs[c] == Chosen(t)
    requires SwitchIn(m, c, t).Ok? && Fits(SwitchIn(m, c, t).value) && HeldOn(m, c) == {TaskLock(t)}
    requires u < |m.tasks|
    ensures WakeOk(SwitchIn(m, c, t).value, guard, u, ch)
  {
    assert WakeOk(m, guard, u, ch) && TaskOk(m, t);
    if guard(ch).Some? {
      var l := CondLock(guard(ch).value);
      if l in m.owner && m.owner[l] < |m.cpus| {
        assert l in HeldOn(m, m.owner[l]);
        assert CpuOk(m, m.owner[l]);
        OnlyHere(m, guard, c, m.owner[l]);
      }
    }
  }

  lemma SwitchInKeeps(m: Machine, guard: nat -> Option<nat>, c: nat, t: nat)
    requires Inv(m, guard) && c < |m.cpus| && m.cpus[c].on == S(c) && m.spcs[c] == Chosen(t)
    ensures SwitchIn(m, c, t).Ok? && Inv(SwitchIn(m, c, t).value, guard)
  {
    SwitchInLocks(m, guard, c, t);
    var m' := SwitchIn(m, c, t).value;
    hide TaskOk;
    hide CpuOk;
    hide WakeOk;
    hide GuardsOk;
    hide LocksOk;
    forall d | 0 <= d < |m.cpus| ensures CpuOk(m', d) && GuardsOk(m', guard, S(d)) {
      SwitchInCpus(m, guard, c, t, d);
    }
    forall u | 0 <= u < |m.tasks| ensures TaskOk(m', u) && GuardsOk(m', guard, T(u)) {
      SwitchInTasks(m, guard, c, t, u);
    }
    forall u, ch | 0 <= u < |m.tasks| && ch >= 0 ensures WakeOk(m', guard, u, ch) {
      SwitchInWakes(m, guard, c, t, u, ch);
    }
  }

  lemma TaskStepKeeps(m: Machine, guard: nat -> Option<nat>, c: nat, t: nat)
    requires Inv(m, guard) && c < |m.cpus| && m.cpus[c].on == T(t) && t < |m.tasks|
    ensures TaskStep(m, c, t).Ok? && Inv(TaskStep(m, c, t).value, guard)
  {
    hide TaskOk;
    hide CpuOk;
    hide WakeOk;
    hide GuardsOk;
    hide LocksOk;
    match m.tasks[t].pc
    case Yield0 => YieldStateKeeps(m, guard, c, t);
    case Yield1 => SwitchOutKeeps(m, guard, c, t, FromYield);
    case Sleep0(ch, l) => SleepReleaseKeeps(m, guard, c, t);
    case Sleep1(ch, l) => SleepChanKeeps(m, guard, c, t);
    case Sleep2(ch, l) => SleepStateKeeps(m, guard, c, t);
    case Sleep3(ch, l) => SwitchOutKeeps(m, guard, c, t, FromSleep(ch, l));
    case Back(after) =>
      if after.FromSleep? { ResumeChanKeeps(m, guard, c, t); }
      else { ResumeReleaseKeeps(m, guard, c, t, Plain(None, {})); }
    case Back2(l) => ResumeReleaseKeeps(m, guard, c, t, if l.None? then Plain(None, {}) else Relock(l.value));
    case Relock(l) => RelockKeeps(m, guard, c, t);
    case _ =>
  }

  // ---------------------------------------------------------------- the scheduler loop

  lemma ChooseReadyKeeps(m: Machine, guard: nat -> Option<nat>, c: nat, t: nat)
    requires Inv(m, guard) && c < |m.cpus| && m.cpus[c].on == S(c) && m.spcs[c] == Picked(t)
    requires t < |m.tasks| && m.tasks[t].state == Ready
    ensures SchedStep(m, c).Ok? && Inv(SchedStep(m, c).value, guard)
  {
    Here(m, guard, c);
    assert TaskLock(t) in HeldOn(m, c);
    assert TaskOk(m, t) && GuardsOk(m, guard, T(t));
    LockedMeansParked(m, guard, c, t);
    ChooseReadyPoint(m, guard, c, t);
    hide *;
    LocalKeeps(m, SchedStep(m, c).value, guard, c, Some(t));
  }

  lemma ChooseReadyPoint(m: Machine, guard: nat -> Option<nat>, c: nat, t: nat)
    requires Fits(m) && c < |m.cpus| && m.cpus[c].on == S(c) && m.spcs[c] == Picked(t)
    requires CpuOk(m, c) && GuardsOk(m, guard, S(c))
    requires t < |m.tasks| && m.tasks[t].state == Ready && TaskOk(m, t) && GuardsOk(m, guard, T(t)) && m.tasks[t].pc.Parked?
    requires TaskLock(t) in m.owner && m.owner[TaskLock(t)] == c
    ensures SchedStep(m, c).Ok?
    ensures var m' := SchedStep(m, c).value;
      && Local(m, m', c, Some(t)) && Fits(m') && LocksMove(m, m', c) && CpuOk(m', c) && GuardsOk(m', guard, S(c))
      && m.cpus[c].on.S? && TaskOk(m', t) && GuardsOk(m', guard, T(t))
      && Promises(m, m', guard, c)
      && (forall u, ch :: 0 <= u < |m.tasks| && ch >= 0 ==> KeepsPromise(m, m', guard, c, u, ch))
  {
    var m' := SchedStep(m, c).value;
    assert HeldOn(m', c) == HeldOn(m, c);
  }

  lemma ChooseKeeps(m: Machine, guard: nat -> Option<nat>, c: nat, t: nat)
    requires Inv(m, guard) && c < |m.cpus| && m.cpus[c].on == S(c) && m.spcs[c] == Picked(t)
    ensures SchedStep(m, c).Ok? && Inv(SchedStep(m, c).value, guard)
  {
    Here(m, guard, c);
    if m.tasks[t].state == Ready {
      ChooseReadyKeeps(m, guard, c, t);
    } else {
      var m' := SchedStep(m, c).value;
      assert HeldOn(m', c) == HeldOn(m, c);
      hide LocksOk;
      hide WakeOk;
      LocalKeeps(m, m', guard, c, None);
    }
  }

  lemma ClearKeeps(m: Machine, guard: nat -> Option<nat>, c: nat, t: nat)
    requires Inv(m, guard) && c < |m.cpus| && m.cpus[c].on == S(c) && m.spcs[c] == Returned(t)
    ensures SchedStep(m, c).Ok? && Inv(SchedStep(m, c).value, guard)
  {
    Here(m, guard, c);
    var m' := SchedStep(m, c).value;
    assert HeldOn(m', c) == HeldOn(m, c);
    hide LocksOk;
    hide WakeOk;
    LocalKeeps(m, m', guard, c, None);
  }

  /** The lock the task held when it switched out is released by the scheduler on the same CPU. */
  lemma ReleaseKeeps(m: Machine, guard: nat -> Option<nat>, c: nat, t: nat)
    requires Inv(m, guard) && c < |m.cpus| && m.cpus[c].on == S(c) && m.spcs[c] == Cleared(t)
    ensures SchedStep(m, c).Ok? && Inv(SchedStep(m, c).value, guard)
  {
    Here(m, guard, c);
    HolderHasLevel(m, c, TaskLock(t));
    hide LocksOk;
    hide WakeOk;
    GiveKeeps(m, guard, c, TaskLock(t), Plain(None, {}));
  }

  lemma SchedStepKeeps(m: Machine, guard: nat -> Option<nat>, c: nat)
    requires Inv(m, guard) && c < |m.cpus| && m.cpus[c].on == S(c)
    ensures SchedStep(m, c).Ok? && Inv(SchedStep(m, c).value, guard)
  {
    hide TaskOk;
    hide CpuOk;
    hide WakeOk;
    hide GuardsOk;
    hide LocksOk;
    match m.spcs[c]
    case Picked(t) => ChooseKeeps(m, guard, c, t);
    case Chosen(t) => SwitchInKeeps(m, guard, c, t);
    case Returned(t) => ClearKeeps(m, guard, c, t);
    case Cleared(t) => ReleaseKeeps(m, guard, c, t);
    case _ =>
  }

  lemma DoKeeps(m: Machine, guard: nat -> Option<nat>, c: nat, a: Act)
    requires Inv(m, guard) && c < |m.cpus|
    ensures Do(m, guard, c, a).Ok? && Inv(Do(m, guard, c, a).value, guard)
  {
    hide TaskOk;
    hide CpuOk;
    hide WakeOk;
    hide GuardsOk;
    hide LocksOk;
    hide PlainStep;
    hide WakeStep;
    hide TaskStep;
    hide SchedStep;
    var x := m.cpus[c].on;
    var pc := PcOf(m, x);
    if pc.Plain? { PlainStepKeeps(m, guard, c, a); }
    else if pc.Waking? { WakeStepKeeps(m, guard, c); }
    else if x.T? { TaskStepKeeps(m, guard, c, x.t); }
    else { SchedStepKeeps(m, guard, c); }
  }

  // ---------------------------------------------------------------- runs

  /** After boot: every CPU in its scheduler loop, no lock held, every task not yet started. */
  ghost predicate Init(m: Machine) {
    && |m.spcs| == |m.cpus| && m.owner == map[]
    && (forall c :: 0 <= c < |m.cpus| ==> m.cpus[c].on == S(c) && m.cpus[c].cur == None && m.cpus[c].level == 0)
    && (forall c :: 0 <= c < |m.cpus| ==> m.spcs[c] == Plain(None, {}))
    && (forall t :: 0 <= t < |m.tasks| ==> m.tasks[t].pc == Parked(First) && m.tasks[t].place == None && m.tasks[t].chan == None)
    && (forall t :: 0 <= t < |m.tasks| ==> m.tasks[t].state == Unused || m.tasks[t].state == Ready)
  }

  lemma InitInv(m: Machine, guard: nat -> Option<nat>)
    requires Init(m)
    ensures Inv(m, guard)
  {
  }

  /** Any interleaving: each entry says which CPU steps next and what its ordinary code asks for. */
  function Run(m: Machine, guard: nat -> Option<nat>, steps: seq<(nat, Act)>): Outcome<Machine> {
    if steps == [] then Ok(m)
    else
      var r, s := Run(m, guard, steps[..|steps| - 1]), steps[|steps| - 1];
      if r.Panic? || !Fits(r.value) then Panic
      else if s.0 < |r.value.cpus| then Do(r.value, guard, s.0, s.1)
      else r
  }

  /** No interleaving panics, and all of them keep the invariant. */
  lemma {:induction false} EveryRun(m: Machine, guard: nat -> Option<nat>, steps: seq<(nat, Act)>)
    requires Init(m)
    ensures Run(m, guard, steps).Ok? && Inv(Run(m, guard, steps).value, guard)
  {
    if steps == [] {
      InitInv(m, guard);
    } else {
      EveryRun(m, guard, steps[..|steps| - 1]);
      var r, s := Run(m, guard, steps[..|steps| - 1]).value, steps[|steps| - 1];
      if s.0 < |r.cpus| { DoKeeps(r, guard, s.0, s.1); }
    }
  }

  ghost predicate Reachable(m: Machine, guard: nat -> Option<nat>) {
    exists m0, steps :: Init(m0) && Run(m0, guard, steps) == Ok(m)
  }

  lemma ReachableInv(m: Machine, guard: nat -> Option<nat>)
    requires Reachable(m, guard)
    ensures Inv(m, guard)
  {
    var m0, steps :| Init(m0) && Run(m0, guard, steps) == Ok(m);
    EveryRun(m0, guard, steps);
  }

  function Owned(m: Machine, c: nat): set<Lk> {
    set l | l in m.owner && m.owner[l] == c
  }

  lemma OwnedIsHeld(m: Machine, c: nat)
    requires Fits(m) && LocksOk(m) && c < |m.cpus|
    ensures Owned(m, c) == HeldOn(m, c) && m.cpus[c].level == |Owned(m, c)|
  {
    hide HeldOn;
    hide Fits;
    assert forall l :: l in Owned(m, c) <==> l in HeldOn(m, c);
    assert Owned(m, c) == HeldOn(m, c);
  }

  /** spinlevel is the number of spin locks the CPU owns, across hand-offs too, and interrupts are
      off while there is one. */
  lemma LevelsCountLocks(m: Machine, guard: nat -> Option<nat>, c: nat)
    requires Reachable(m, guard) && c < |m.cpus|
    ensures m.cpus[c].level == |Owned(m, c)| && (Owned(m, c) != {} ==> !m.cpus[c].intr)
  {
    ReachableInv(m, guard);
    OwnedIsHeld(m, c);
    if Owned(m, c) != {} {
      var l :| l in Owned(m, c);
      assert |Owned(m, c) - {l}| == |Owned(m, c)| - 1;
    }
  }

  lemma SameCurrent(m: Machine, guard: nat -> Option<nat>, c: nat, d: nat, t: nat)
    requires Inv(m, guard) && c < |m.cpus| && d < |m.cpus|
    requires m.cpus[c].cur == m.cpus[d].cur == Some(t)
    ensures c == d
  {
    assert CpuOk(m, c) && CpuOk(m, d) && TaskOk(m, t);
    assert m.spcs[c].Away? || TaskLock(t) in HeldOn(m, c);
    assert m.spcs[d].Away? || TaskLock(t) in HeldOn(m, d);
  }

  /** No task runs, or is current, on two CPUs. */
  lemma OneCpuPerTask(m: Machine, guard: nat -> Option<nat>, c: nat, d: nat)
    requires Reachable(m, guard) && c < |m.cpus| && d < |m.cpus| && c != d
    ensures m.cpus[c].on != m.cpus[d].on
    ensures m.cpus[c].cur.Some? ==> m.cpus[c].cur != m.cpus[d].cur
  {
    ReachableInv(m, guard);
    OnlyHere(m, guard, c, d);
    if m.cpus[c].cur.Some? && m.cpus[c].cur == m.cpus[d].cur { SameCurrent(m, guard, c, d, m.cpus[c].cur.value); }
  }

  /** A ready or sleeping task whose lock is free runs nowhere: its whole context is saved. */
  lemma FreeMeansParked(m: Machine, guard: nat -> Option<nat>, t: nat, c: nat)
    requires Reachable(m, guard) && t < |m.tasks| && c < |m.cpus|
    requires m.tasks[t].state != Running && TaskLock(t) !in m.owner
    ensures m.tasks[t].pc.Parked? && m.cpus[c].on != T(t) && m.cpus[c].cur != Some(t)
  {
    ReachableInv(m, guard);
    assert TaskOk(m, t) && CpuOk(m, c);
    assert m.tasks[t].place.Some? ==> TaskLock(t) !in HeldOn(m, m.tasks[t].place.value);
    assert TaskLock(t) !in HeldOn(m, c);
  }

  /** At each switch to the scheduler exactly one spin lock is held, the task's own; it is the
      scheduler on the same CPU that owns it afterwards, at the point where it releases it. */
  lemma SwitchesOut(m: Machine, guard: nat -> Option<nat>, c: nat, t: nat)
    requires Reachable(m, guard) && c < |m.cpus| && t < |m.tasks| && m.cpus[c].on == T(t)
    requires m.tasks[t].pc.Yield1? || m.tasks[t].pc.Sleep3?
    ensures Owned(m, c) == {TaskLock(t)} && m.cpus[c].level == 1
    ensures Fits(m) && TaskStep(m, c, t).Ok?
    ensures var n := TaskStep(m, c, t).value;
      |n.cpus| == |n.spcs| == |m.cpus| && n.cpus[c].on == S(c) && n.spcs[c] == Returned(t)
      && Owned(n, c) == {TaskLock(t)} && n.cpus[c].level == 1
  {
    ReachableInv(m, guard);
    SwitchOutLocks(m, guard, c, t, if m.tasks[t].pc.Yield1? then FromYield else FromSleep(m.tasks[t].pc.ch, m.tasks[t].pc.l));
    OwnedIsHeld(m, c);
    hide LocksOk;
    hide CpuOk;
    hide TaskOk;
    hide WakeOk;
    assert TaskStep(m, c, t).value.owner == m.owner;
  }

  /** And at each switch to a task, that task's lock, which the task resumes owning. */
  lemma SwitchesIn(m: Machine, guard: nat -> Option<nat>, c: nat, t: nat)
    requires Reachable(m, guard) && c < |m.cpus| == |m.spcs| && m.cpus[c].on == S(c) && m.spcs[c] == Chosen(t)
    ensures Owned(m, c) == {TaskLock(t)} && m.cpus[c].level == 1
    ensures Fits(m) && SchedStep(m, c).Ok?
    ensures var n := SchedStep(m, c).value;
      |n.cpus| == |m.cpus| && n.cpus[c].on == T(t) && t < |n.tasks| && n.tasks[t].pc.Back?
      && Owned(n, c) == {TaskLock(t)} && n.cpus[c].level == 1
  {
    ReachableInv(m, guard);
    SwitchInLocks(m, guard, c, t);
    OwnedIsHeld(m, c);
    hide LocksOk;
    hide CpuOk;
    hide TaskOk;
    hide WakeOk;
    assert SchedStep(m, c).value.owner == m.owner;
  }

  /** No lost wakeup.  A task that sleeps, or is about to, on a channel whose condition holds is
      still ahead of the owner of the guarding lock in a wakeup that owner owes; so once the lock is
      free no task is asleep on the channel with the condition true. */
  lemma NoLostWakeup(m: Machine, guard: nat -> Option<nat>, t: nat, ch: nat)
    requires Reachable(m, guard) && t < |m.tasks| && guard(ch).Some? && ch in m.cond
    ensures Fits(m)
    ensures var l := CondLock(guard(ch).value);
      Waits(m.tasks[t], ch) ==>
        l in m.owner && m.owner[l] < |m.cpus| && WillWake(PcOf(m, m.cpus[m.owner[l]].on), ch, t)
    ensures CondLock(guard(ch).value) !in m.owner ==> !(m.tasks[t].state == Sleeping && m.tasks[t].chan == Some(ch))
  {
    ReachableInv(m, guard);
    assert WakeOk(m, guard, t, ch) && TaskOk(m, t);
  }

  // ---------------------------------------------------------------- calls return what they took

  predicate IsCtx(m: Machine, x: Ctx) {
    match x case T(t) => t < |m.tasks| case S(c) => c < |m.spcs|
  }

  /** The condition lock a context has after its last request, by what the requests are for: Lock takes one,
      Unlock gives it back, and every other call returns with the lock it was entered with. */
  function Asked(h: Option<nat>, a: Act): Option<nat> {
    match a case Lock(l) => Some(l) case Unlock => None case _ => h
  }

  /** Whether the next step is a request of x that is carried out. */
  predicate Requests(m: Machine, guard: nat -> Option<nat>, c: nat, a: Act, x: Ctx) {
    && Fits(m) && c < |m.cpus| && m.cpus[c].on == x && IsCtx(m, x) && PcOf(m, x).Plain?
    && Do(m, guard, c, a) != Ok(m)
  }

  /** What x should hold whenever it runs ordinary code, from the requests it made so far. */
  function Holding(m: Machine, guard: nat -> Option<nat>, steps: seq<(nat, Act)>, x: Ctx): Option<nat> {
    if steps == [] then None
    else
      var before, s := steps[..|steps| - 1], steps[|steps| - 1];
      var h, r := Holding(m, guard, before, x), Run(m, guard, before);
      if r.Ok? && Requests(r.value, guard, s.0, s.1, x) then Asked(h, s.1) else h
  }

  /** What a context at pc will hold when it is back in ordinary code. */
  function Expects(pc: Pc): Option<nat> {
    match pc
    case Plain(h, _) => h
    case Waking(h, _, _, _, _) => h
    case Sleep0(_, l) => l
    case Sleep1(_, l) => l
    case Sleep2(_, l) => l
    case Sleep3(_, l) => l
    case Parked(after) => if after.FromSleep? then after.l else None
    case Back(after) => if after.FromSleep? then after.l else None
    case Back2(l) => l
    case Relock(l) => Some(l)
    case _ => None
  }

  lemma PlainExpects(m: Machine, guard: nat -> Option<nat>, c: nat, a: Act, x: Ctx)
    requires Fits(m) && c < |m.cpus| && PcOf(m, m.cpus[c].on).Plain? && IsCtx(m, x) && PlainStep(m, guard, c, a).Ok?
    ensures var m' := PlainStep(m, guard, c, a).value;
      && IsCtx(m', x)
      && Expects(PcOf(m', x)) == if x == m.cpus[c].on && m' != m then Asked(Expects(PcOf(m, x)), a) else Expects(PcOf(m, x))
  {
  }

  lemma WakeExpects(m: Machine, c: nat, x: Ctx)
    requires Fits(m) && c < |m.cpus| && PcOf(m, m.cpus[c].on).Waking? && IsCtx(m, x) && WakeStep(m, c).Ok?
    ensures IsCtx(WakeStep(m, c).value, x) && Expects(PcOf(WakeStep(m, c).value, x)) == Expects(PcOf(m, x))
  {
  }

  lemma TaskExpects(m: Machine, c: nat, t: nat, x: Ctx)
    requires Fits(m) && c < |m.cpus| && m.cpus[c].on == T(t) && t < |m.tasks| && IsCtx(m, x) && TaskStep(m, c, t).Ok?
    ensures IsCtx(TaskStep(m, c, t).value, x) && Expects(PcOf(TaskStep(m, c, t).value, x)) == Expects(PcOf(m, x))
  {
  }

  lemma SchedExpects(m: Machine, c: nat, x: Ctx)
    requires Fits(m) && c < |m.cpus| && m.cpus[c].on == S(c) && IsCtx(m, x) && SchedStep(m, c).Ok?
    ensures IsCtx(SchedStep(m, c).value, x) && Expects(PcOf(SchedStep(m, c).value, x)) == Expects(PcOf(m, x))
  {
  }

  lemma {:induction false} RunExpects(m: Machine, guard: nat -> Option<nat>, steps: seq<(nat, Act)>, x: Ctx)
    requires Init(m) && IsCtx(m, x) && Run(m, guard, steps).Ok?
    ensures IsCtx(Run(m, guard, steps).value, x)
    ensures Expects(PcOf(Run(m, guard, steps).value, x)) == Holding(m, guard, steps, x)
  {
    if steps != [] {
      var before, s := steps[..|steps| - 1], steps[|steps| - 1];
      EveryRun(m, guard, before);
      RunExpects(m, guard, before, x);
      var r := Run(m, guard, before).value;
      if s.0 < |r.cpus| {
        var y := r.cpus[s.0].on;
        hide Inv;
        hide Expects;
        if PcOf(r, y).Plain? { PlainExpects(r, guard, s.0, s.1, x); }
        else if PcOf(r, y).Waking? { WakeExpects(r, s.0, x); }
        else if y.T? { TaskExpects(r, s.0, y.t, x); }
        else { SchedExpects(r, s.0, x); }
        hide PlainStep;
        hide WakeStep;
        hide TaskStep;
        hide SchedStep;
      }
    }
  }

  /** Whatever a context has called, in ordinary code its CPU owns exactly the lock the context's own
      requests left it with: sleep returns with the lock it was given, and with none if it was given
      none; yield and wakeup change nothing. */
  lemma CallsReturn(m0: Machine, guard: nat -> Option<nat>, steps: seq<(nat, Act)>, m: Machine, c: nat)
    requires Init(m0) && Run(m0, guard, steps) == Ok(m) && c < |m.cpus|
    requires IsCtx(m, m.cpus[c].on) && PcOf(m, m.cpus[c].on).Plain?
    ensures Owned(m, c) == OptLock(Holding(m0, guard, steps, m.cpus[c].on))
  {
    EveryRun(m0, guard, steps);
    SameCtx(m0, guard, steps, m.cpus[c].on);
    RunExpects(m0, guard, steps, m.cpus[c].on);
    OwnedIsHeld(m, c);
  }

  lemma {:induction false} SameCtx(m: Machine, guard: nat -> Option<nat>, steps: seq<(nat, Act)>, x: Ctx)
    requires Init(m) && Run(m, guard, steps).Ok? && IsCtx(Run(m, guard, steps).value, x)
    ensures IsCtx(m, x)
  {
    if steps != [] {
      var before, s := steps[..|steps| - 1], steps[|steps| - 1];
      EveryRun(m, guard, before);
      var r := Run(m, guard, before).value;
      if s.0 < |r.cpus| { SameSizes(r, guard, s.0, s.1); }
      SameCtx(m, guard, before, x);
    }
  }

  lemma SameSizes(m: Machine, guard: nat -> Option<nat>, c: nat, a: Act)
    requires Fits(m) && c < |m.cpus| && Do(m, guard, c, a).Ok?
    ensures |Do(m, guard, c, a).value.tasks| == |m.tasks| && |Do(m, guard, c, a).value.spcs| == |m.spcs|
  {
  }

  // ---------------------------------------------------------------- channels

  /** Where a task's channel is set. */
  predicate OnChannel(pc: Pc) {
    pc.Sleep2? || pc.Sleep3? || (pc.Parked? && pc.after.FromSleep?) || (pc.Back? && pc.after.FromSleep?)
  }

  ghost predicate ChansOk(m: Machine) {
    forall t :: 0 <= t < |m.tasks| ==> OnChannel(m.tasks[t].pc) || m.tasks[t].chan == None
  }

  lemma DoKeepsChans(m: Machine, guard: nat -> Option<nat>, c: nat, a: Act)
    requires Fits(m) && c < |m.cpus| && ChansOk(m) && Do(m, guard, c, a).Ok?
    ensures ChansOk(Do(m, guard, c, a).value)
  {
    var x := m.cpus[c].on;
    if PcOf(m, x).Plain? { PlainKeepsChans(m, guard, c, a); }
    else if PcOf(m, x).Waking? { WakeKeepsChans(m, c); }
    else if x.T? { TaskKeepsChans(m, c, x.t); }
    hide PlainStep, WakeStep, TaskStep;
  }

  lemma PlainKeepsChans(m: Machine, guard: nat -> Option<nat>, c: nat, a: Act)
    requires Fits(m) && c < |m.cpus| && ChansOk(m) && PcOf(m, m.cpus[c].on).Plain? && PlainStep(m, guard, c, a).Ok?
    ensures ChansOk(PlainStep(m, guard, c, a).value)
  {
  }

  lemma WakeKeepsChans(m: Machine, c: nat)
    requires Fits(m) && c < |m.cpus| && ChansOk(m) && PcOf(m, m.cpus[c].on).Waking? && WakeStep(m, c).Ok?
    ensures ChansOk(WakeStep(m, c).value)
  {
  }

  lemma TaskKeepsChans(m: Machine, c: nat, t: nat)
    requires Fits(m) && c < |m.cpus| && ChansOk(m) && m.cpus[c].on == T(t) && !m.tasks[t].pc.Plain? && !m.tasks[t].pc.Waking?
    requires TaskStep(m, c, t).Ok?
    ensures ChansOk(TaskStep(m, c, t).value)
  {
  }

  lemma {:induction false} RunKeepsChans(m: Machine, guard: nat -> Option<nat>, steps: seq<(nat, Act)>)
    requires Init(m) && Run(m, guard, steps).Ok?
    ensures ChansOk(Run(m, guard, steps).value)
  {
    if steps != [] {
      var before, s := steps[..|steps| - 1], steps[|steps| - 1];
      EveryRun(m, guard, before);
      RunKeepsChans(m, guard, before);
      var r := Run(m, guard, before).value;
      hide Inv;
      hide ChansOk;
      if s.0 < |r.cpus| { DoKeepsChans(r, guard, s.0, s.1); }
    }
  }

  /** A task that runs ordinary code is Running and on no channel. */
  lemma OrdinaryCode(m: Machine, guard: nat -> Option<nat>, t: nat)
    requires Reachable(m, guard) && t < |m.tasks| && m.tasks[t].pc.Plain?
    ensures m.tasks[t].state == Running && m.tasks[t].chan == None
    ensures exists c :: 0 <= c < |m.cpus| && m.cpus[c].on == T(t)
  {
    var m0, steps :| Init(m0) && Run(m0, guard, steps) == Ok(m);
    EveryRun(m0, guard, steps);
    RunKeepsChans(m0, guard, steps);
    hide Run;
    hide Init;
    PlainRuns(m, guard, t);
    hide Inv;
  }

  lemma PlainRuns(m: Machine, guard: nat -> Option<nat>, t: nat)
    requires Inv(m, guard) && t < |m.tasks| && m.tasks[t].pc.Plain?
    ensures m.tasks[t].state == Running && exists c :: 0 <= c < |m.cpus| && m.cpus[c].on == T(t)
  {
    hide LocksOk;
    hide CpuOk;
    hide WakeOk;
    assert TaskOk(m, t);
  }

  // ---------------------------------------------------------------- undisturbed calls

  /** CPU c alone takes the steps `acts`. */
  function Solo(m: Machine, guard: nat -> Option<nat>, c: nat, acts: seq<Act>): Outcome<Machine>
    decreases |acts|
  {
    if acts == [] then Ok(m)
    else if !Fits(m) || c >= |m.cpus| then Panic
    else
      var r := Do(m, guard, c, acts[0]);
      if r.Panic? then Panic else Solo(r.value, guard, c, acts[1..])
  }

  lemma SoloStep(m: Machine, guard: nat -> Option<nat>, c: nat, a: Act, rest: seq<Act>)
    requires Fits(m) && c < |m.cpus| && Do(m, guard, c, a).Ok?
    ensures Solo(m, guard, c, [a] + rest) == Solo(Do(m, guard, c, a).value, guard, c, rest)
  {
    assert ([a] + rest)[1..] == rest;
  }

  /** Nothing but task t, CPU c and the locks it names has changed. */
  ghost predicate OnlyTask(m: Machine, m': Machine, c: nat, t: nat) {
    && |m'.cpus| == |m.cpus| && |m'.spcs| == |m.spcs| && |m'.tasks| == |m.tasks| && m'.cond == m.cond
    && (forall d :: 0 <= d < |m.cpus| && d != c ==> m'.cpus[d] == m.cpus[d])
    && (forall d :: 0 <= d < |m.spcs| && d != c ==> m'.spcs[d] == m.spcs[d])
    && (forall u :: 0 <= u < |m.tasks| && u != t ==> m'.tasks[u] == m.tasks[u])
  }

  /** The scheduler loop, ready for a task whose lock is free. */
  ghost predicate AtLoop(m: Machine, c: nat, t: nat) {
    && Fits(m) && c < |m.cpus| && m.cpus[c].on == S(c) && m.spcs[c] == Plain(None, {}) && m.cpus[c].level == 0
    && t < |m.tasks| && TaskLock(t) !in m.owner
  }

  /** A round of the scheduler loop passes over a task that is not ready. */
  lemma PassesOver(m: Machine, guard: nat -> Option<nat>, c: nat, t: nat)
    requires AtLoop(m, c, t) && m.tasks[t].state != Ready
    ensures var r := Solo(m, guard, c, [Pick(t), Advance, Advance]);
      && r.Ok? && OnlyTask(m, r.value, c, t) && r.value.tasks == m.tasks && r.value.spcs == m.spcs && r.value.owner == m.owner
      && r.value.cpus[c] == m.cpus[c].(cur := None, raw := m.cpus[c].intr)
  {
    var m1 := Do(m, guard, c, Pick(t)).value;
    var m2 := Do(m1, guard, c, Advance).value;
    var m3 := Do(m2, guard, c, Advance).value;
    SoloThree(m, guard, c, Pick(t), m1, m2, m3);
    assert m3.spcs == m.spcs && m3.owner == m.owner;
  }

  /** ... and switches to one that is: it runs on this CPU, which is said to run it and owns its lock. */
  lemma SwitchesTo(m: Machine, guard: nat -> Option<nat>, c: nat, t: nat)
    requires AtLoop(m, c, t) && m.tasks[t].state == Ready && m.tasks[t].pc.Parked?
    ensures var r := Solo(m, guard, c, [Pick(t), Advance, Advance]);
      && r.Ok? && OnlyTask(m, r.value, c, t) && r.value.owner == m.owner[TaskLock(t) := c]
      && r.value.cpus[c] == m.cpus[c].(on := T(t), cur := Some(t), level := 1, intr := false, raw := m.cpus[c].intr)
      && r.value.tasks[t] == m.tasks[t].(state := Running, pc := Back(m.tasks[t].pc.after), place := Some(c))
      && Fits(r.value)
  {
    var m1 := Do(m, guard, c, Pick(t)).value;
    var m2 := Do(m1, guard, c, Advance).value;
    var m3 := Do(m2, guard, c, Advance).value;
    SoloThree(m, guard, c, Pick(t), m1, m2, m3);
  }

  lemma SoloThree(m: Machine, guard: nat -> Option<nat>, c: nat, a: Act, m1: Machine, m2: Machine, m3: Machine)
    requires Fits(m) && c < |m.cpus| && Do(m, guard, c, a) == Ok(m1)
    requires Fits(m1) && c < |m1.cpus| && Do(m1, guard, c, Advance) == Ok(m2)
    requires Fits(m2) && c < |m2.cpus| && Do(m2, guard, c, Advance) == Ok(m3)
    ensures Solo(m, guard, c, [a, Advance, Advance]) == Ok(m3)
  {
    hide Do;
    SoloStep(m, guard, c, a, [Advance, Advance]);
    SoloStep(m1, guard, c, Advance, [Advance]);
    SoloStep(m2, guard, c, Advance, []);
    assert [a, Advance, Advance] == [a] + [Advance, Advance] && [Advance, Advance] == [Advance] + [Advance];
    assert [Advance] == [Advance] + [];
  }

  lemma {:induction false} SoloAppend(m: Machine, guard: nat -> Option<nat>, c: nat, xs: seq<Act>, ys: seq<Act>)
    requires Solo(m, guard, c, xs).Ok?
    ensures Solo(m, guard, c, xs + ys) == Solo(Solo(m, guard, c, xs).value, guard, c, ys)
    decreases |xs|
  {
    hide Do;
    if xs == [] {
      assert xs + ys == ys;
    } else {
      assert (xs + ys)[1..] == xs[1..] + ys;
      SoloAppend(Do(m, guard, c, xs[0]).value, guard, c, xs[1..], ys);
    }
  }

  /** A task in ordinary code holding h, which nothing keeps from its own lock. */
  ghost predicate AtWork(m: Machine, c: nat, t: nat, h: Option<nat>) {
    && Fits(m) && c < |m.cpus| && m.cpus[c].on == T(t) && m.spcs[c] == Away(t) && TaskLock(t) !in m.owner
    && m.tasks[t].pc == Plain(h, {}) && m.cpus[c].level == (if h.Some? then 1 else 0)
    && (h.Some? ==> CondLock(h.value) in m.owner && m.owner[CondLock(h.value)] == c && !m.cpus[c].intr)
  }

  /** Back in the scheduler loop, with t saved and no lock held. */
  ghost predicate Saved(m: Machine, m': Machine, c: nat, t: nat, h: Option<nat>, k: Task) {
    && OnlyTask(m, m', c, t) && m'.owner == m.owner - OptLock(h) && c < |m.cpus| == |m.spcs| && t < |m.tasks|
    && m'.tasks[t] == k && m'.spcs[c] == Plain(None, {})
    && m'.cpus[c].on == S(c) && m'.cpus[c].cur == None && m'.cpus[c].level == 0
    && m'.cpus[c].intr == if h.Some? then m.cpus[c].raw else m.cpus[c].intr
  }

  /** The scheduler's half of a switch: it drops the task's lock. */
  lemma LoopGoesOn(m: Machine, guard: nat -> Option<nat>, c: nat, t: nat)
    requires Fits(m) && c < |m.cpus| && m.cpus[c].on == S(c) && m.spcs[c] == Returned(t) && m.cpus[c].level == 1
    requires TaskLock(t) in m.owner && m.owner[TaskLock(t)] == c && !m.cpus[c].intr
    ensures Solo(m, guard, c, [Advance, Advance]) == Ok(m.(
      spcs := m.spcs[c := Plain(None, {})], owner := m.owner - {TaskLock(t)},
      cpus := m.cpus[c := m.cpus[c].(cur := None, level := 0, intr := m.cpus[c].raw)]))
  {
    var m1 := Do(m, guard, c, Advance).value;
    var m2 := Do(m1, guard, c, Advance).value;
    SoloStep(m, guard, c, Advance, [Advance]);
    SoloStep(m1, guard, c, Advance, []);
    assert [Advance, Advance] == [Advance] + [Advance] && [Advance] == [Advance] + [];
    assert m2.spcs == m.spcs[c := Plain(None, {})];
    assert m2.cpus == m.cpus[c := m.cpus[c].(cur := None, level := 0, intr := m.cpus[c].raw)];
  }

  /** Undisturbed, yield leaves the task ready and the CPU in its scheduler loop. */
  lemma YieldAlone(m: Machine, guard: nat -> Option<nat>, c: nat, t: nat)
    requires AtWork(m, c, t, None)
    ensures var r := Solo(m, guard, c, [Yield, Advance, Advance] + [Advance, Advance]);
      r.Ok? && Saved(m, r.value, c, t, None, m.tasks[t].(state := Ready, pc := Parked(FromYield), place := None))
  {
    var m1 := Do(m, guard, c, Yield).value;
    var m2 := Do(m1, guard, c, Advance).value;
    var m3 := Do(m2, guard, c, Advance).value;
    SoloThree(m, guard, c, Yield, m1, m2, m3);
    SoloAppend(m, guard, c, [Yield, Advance, Advance], [Advance, Advance]);
    LoopGoesOn(m3, guard, c, t);
  }

  /** In sleep, with only the task's own lock: the rest of sleep up to the switch. */
  lemma SleepsOff(m: Machine, guard: nat -> Option<nat>, c: nat, t: nat, ch: nat, l: Option<nat>)
    requires Fits(m) && c < |m.cpus| && m.cpus[c].on == T(t) && m.spcs[c] == Away(t) && m.tasks[t].pc == Sleep1(ch, l)
    ensures Solo(m, guard, c, [Advance, Advance, Advance]) == Ok(m.(
      spcs := m.spcs[c := Returned(t)], cpus := m.cpus[c := m.cpus[c].(on := S(c))],
      tasks := m.tasks[t := Task(Sleeping, Some(ch), Parked(FromSleep(ch, l)), None)]))
  {
    var m1 := Do(m, guard, c, Advance).value;
    var m2 := Do(m1, guard, c, Advance).value;
    var m3 := Do(m2, guard, c, Advance).value;
    SoloThree(m, guard, c, Advance, m1, m2, m3);
    assert m3.tasks == m.tasks[t := Task(Sleeping, Some(ch), Parked(FromSleep(ch, l)), None)];
  }

  /** The requests of a sleep call. */
  function SleepActs(ch: nat, l: Option<nat>): seq<Act> {
    if l.Some? then [SleepOn(ch, l), Advance] else [SleepOn(ch, l)]
  }

  /** sleep takes the task's lock before it gives up the other. */
  lemma SleepLocks(m: Machine, guard: nat -> Option<nat>, c: nat, t: nat, ch: nat, l: Option<nat>)
    requires AtWork(m, c, t, l) && guard(ch) == l && (l.Some? ==> ch !in m.cond)
    ensures var r := Solo(m, guard, c, SleepActs(ch, l));
      && r.Ok? && Fits(r.value) && r.value.owner == (m.owner - OptLock(l))[TaskLock(t) := c]
      && r.value.spcs == m.spcs && r.value.cond == m.cond
      && r.value.tasks == m.tasks[t := m.tasks[t].(pc := Sleep1(ch, l))]
      && r.value.cpus == m.cpus[c := m.cpus[c].(level := 1, intr := false, raw := if l.Some? then m.cpus[c].raw else m.cpus[c].intr)]
  {
    var m1 := Do(m, guard, c, SleepOn(ch, l)).value;
    SoloStep(m, guard, c, SleepOn(ch, l), if l.Some? then [Advance] else []);
    if l.Some? {
      var m2 := Do(m1, guard, c, Advance).value;
      assert [SleepOn(ch, l), Advance] == [SleepOn(ch, l)] + [Advance] && [Advance] == [Advance] + [];
      SoloStep(m1, guard, c, Advance, []);
      assert m2.owner == (m.owner - OptLock(l))[TaskLock(t) := c];
    } else {
      assert [SleepOn(ch, l)] == [SleepOn(ch, l)] + [];
      assert m.owner - {} == m.owner;
    }
  }

  /** Undisturbed, sleep leaves the task asleep on the channel, the lock it was given free, and the CPU in
      its scheduler loop with interrupts as they were outside all locks. */
  lemma SleepAlone(m: Machine, guard: nat -> Option<nat>, c: nat, t: nat, ch: nat, l: Option<nat>)
    requires AtWork(m, c, t, l) && guard(ch) == l && (l.Some? ==> ch !in m.cond)
    ensures var r := Solo(m, guard, c, SleepActs(ch, l) + [Advance, Advance, Advance] + [Advance, Advance]);
      r.Ok? && Saved(m, r.value, c, t, l, Task(Sleeping, Some(ch), Parked(FromSleep(ch, l)), None))
  {
    var acts := SleepActs(ch, l);
    SleepLocks(m, guard, c, t, ch, l);
    var m1 := Solo(m, guard, c, acts).value;
    SleepsOff(m1, guard, c, t, ch, l);
    SoloAppend(m, guard, c, acts, [Advance, Advance, Advance]);
    var m2 := Solo(m1, guard, c, [Advance, Advance, Advance]).value;
    hide Solo;
    LoopGoesOn(m2, guard, c, t);
    SoloAppend(m, guard, c, acts + [Advance, Advance, Advance], [Advance, Advance]);
    hide SleepActs;
    assert (m.owner - OptLock(l))[TaskLock(t) := c] - {TaskLock(t)} == m.owner - OptLock(l);
  }

  /** In every reachable machine these starting points need no more than ordinary code and a free lock. */
  lemma StartsReached(m: Machine, guard: nat -> Option<nat>, c: nat, t: nat)
    requires Reachable(m, guard) && c < |m.cpus| && t < |m.tasks| && TaskLock(t) !in m.owner
    ensures m.cpus[c].on == T(t) && m.tasks[t].pc.Plain? && m.tasks[t].pc.owes == {} ==> AtWork(m, c, t, m.tasks[t].pc.held)
    ensures c < |m.spcs| && m.cpus[c].on == S(c) && m.spcs[c] == Plain(None, {}) ==> AtLoop(m, c, t)
    ensures m.tasks[t].state == Ready ==> m.tasks[t].pc.Parked?
    ensures ChansOk(m)
  {
    var m0, steps :| Init(m0) && Run(m0, guard, steps) == Ok(m);
    EveryRun(m0, guard, steps);
    RunKeepsChans(m0, guard, steps);
    hide *;
    StartsHere(m, guard, c, t);
  }

  lemma StartsHere(m: Machine, guard: nat -> Option<nat>, c: nat, t: nat)
    requires Inv(m, guard) && c < |m.cpus| && t < |m.tasks| && TaskLock(t) !in m.owner
    ensures m.cpus[c].on == T(t) && m.tasks[t].pc.Plain? && m.tasks[t].pc.owes == {} ==> AtWork(m, c, t, m.tasks[t].pc.held)
    ensures c < |m.spcs| && m.cpus[c].on == S(c) && m.spcs[c] == Plain(None, {}) ==> AtLoop(m, c, t)
    ensures m.tasks[t].state == Ready ==> m.tasks[t].pc.Parked?
  {
    if PcOf(m, m.cpus[c].on).Plain? { StartLevels(m, guard, c); }
    assert CpuOk(m, c) && TaskOk(m, t);
    if m.tasks[t].place.Some? { assert TaskLock(t) !in HeldOn(m, m.tasks[t].place.value); }
    hide LocksOk;
    hide WakeOk;
    hide GuardsOk;
  }

  lemma StartLevels(m: Machine, guard: nat -> Option<nat>, c: nat)
    requires Inv(m, guard) && c < |m.cpus| && PcOf(m, m.cpus[c].on).Plain?
    ensures var h := PcOf(m, m.cpus[c].on).held;
      && m.cpus[c].level == (if h.Some? then 1 else 0)
      && (h.Some? ==> CondLock(h.value) in m.owner && m.owner[CondLock(h.value)] == c && !m.cpus[c].intr)
  {
    hide TaskOk;
    hide CpuOk;
    hide WakeOk;
    var h := PcOf(m, m.cpus[c].on).held;
    assert HeldOn(m, c) == OptLock(h);
    if h.Some? { assert CondLock(h.value) in HeldOn(m, c); }
  }

  /** The steps a task needs from the switch to it back to its ordinary code. */
  function ResumeActs(after: After): seq<Act> {
    if !after.FromSleep? then [Advance] else if after.l.None? then [Advance, Advance] else [Advance, Advance, Advance]
  }

  /** Undisturbed, a ready task that is scheduled comes back to its ordinary code, on no channel, holding
      what it held when it yielded or went to sleep. */
  lemma ResumeAlone(m: Machine, guard: nat -> Option<nat>, c: nat, t: nat)
    requires AtLoop(m, c, t) && m.tasks[t].state == Ready && m.tasks[t].pc.Parked?
    requires ChansOk(m)
    requires var h := Expects(m.tasks[t].pc); h.Some? ==> CondLock(h.value) !in m.owner
    ensures var h, r := Expects(m.tasks[t].pc), Solo(m, guard, c, [Pick(t), Advance, Advance] + ResumeActs(m.tasks[t].pc.after));
      && r.Ok? && OnlyTask(m, r.value, c, t) && r.value.cpus[c].on == T(t) && r.value.cpus[c].cur == Some(t)
      && r.value.tasks[t] == Task(Running, None, Plain(h, {}), Some(c))
      && r.value.owner == (if h.Some? then m.owner[CondLock(h.value) := c] else m.owner)
      && (h.None? ==> r.value.cpus[c].level == 0 && r.value.cpus[c].intr == m.cpus[c].intr)
  {
    SwitchesTo(m, guard, c, t);
    var acts, after := [Pick(t), Advance, Advance], m.tasks[t].pc.after;
    var m1 := Solo(m, guard, c, acts).value;
    SoloAppend(m, guard, c, acts, ResumeActs(after));
    hide Solo;
    ComesBack(m1, guard, c, t, after);
    assert m.owner[TaskLock(t) := c] - {TaskLock(t)} == m.owner;
  }

  lemma ComesBack(m: Machine, guard: nat -> Option<nat>, c: nat, t: nat, after: After)
    requires Fits(m) && c < |m.cpus| && m.cpus[c].on == T(t) && m.tasks[t].pc == Back(after) && m.cpus[c].level == 1 && !m.cpus[c].intr
    requires TaskLock(t) in m.owner && m.owner[TaskLock(t)] == c
    requires after.FromSleep? && after.l.Some? ==> CondLock(after.l.value) !in m.owner
    ensures var h, r := Expects(m.tasks[t].pc), Solo(m, guard, c, ResumeActs(after));
      && r.Ok? && OnlyTask(m, r.value, c, t) && r.value.spcs == m.spcs
      && r.value.tasks[t] == m.tasks[t].(chan := if after.FromSleep? then None else m.tasks[t].chan, pc := Plain(h, {}))
      && r.value.owner == (if h.Some? then (m.owner - {TaskLock(t)})[CondLock(h.value) := c] else m.owner - {TaskLock(t)})
      && r.value.cpus[c].on == T(t) && r.value.cpus[c].cur == m.cpus[c].cur
      && (h.None? ==> r.value.cpus[c] == m.cpus[c].(level := 0, intr := m.cpus[c].raw))
  {
    var m1 := Do(m, guard, c, Advance).value;
    if !after.FromSleep? {
      SoloStep(m, guard, c, Advance, []);
      assert [Advance] == [Advance] + [];
    } else {
      var m2 := Do(m1, guard, c, Advance).value;
      SoloStep(m, guard, c, Advance, ResumeActs(after)[1..]);
      assert ResumeActs(after) == [Advance] + ResumeActs(after)[1..];
      SoloStep(m1, guard, c, Advance, ResumeActs(after)[2..]);
      assert ResumeActs(after)[1..] == [Advance] + ResumeActs(after)[2..];
      if after.l.Some? {
        SoloStep(m2, guard, c, Advance, []);
        assert ResumeActs(after)[2..] == [Advance] + [];
      }
    }
  }

  // ---------------------------------------------------------------- wakeup as a whole

  /** What wakeup promises: exactly the sleepers on ch, the caller apart, become ready. */
  predicate Woken(before: Task, after: Task, self: bool, ch: nat) {
    if !self && before.state == Sleeping && before.chan == Some(ch) then after == before.(state := Ready)
    else after == before
  }

  /** The loop on the task table itself. */
  method Wakeup(table: array<Task>, self: Option<nat>, ch: nat)
    modifies table
    ensures forall t :: 0 <= t < table.Length ==> Woken(old(table[t]), table[t], self == Some(t), ch)
  {
    var i: nat := 0;
    while i < table.Length
      invariant i <= table.Length
      invariant forall t :: 0 <= t < i ==> Woken(old(table[t]), table[t], self == Some(t), ch)
      invariant forall t :: i <= t < table.Length ==> table[t] == old(table[t])
    {
      if self != Some(i) {
        if table[i].state == Sleeping && table[i].chan == Some(ch) {
          table[i] := table[i].(state := Ready);
        }
      }
      i := i + 1;
    }
  }

  /** CPU c alone runs on until its wakeup loop is over, at most n steps. */
  function Alone(m: Machine, c: nat, n: nat): Outcome<Machine>
    requires Fits(m) && c < |m.cpus|
    decreases n
  {
    if n == 0 || !PcOf(m, m.cpus[c].on).Waking? then Ok(m)
    else
      var r := WakeStep(m, c);
      if r.Panic? || !Fits(r.value) || c >= |r.value.cpus| then Panic else Alone(r.value, c, n - 1)
  }

  /** The state between two tasks of the loop: the lock-free parts of m as they were in m0, task by
      task woken below i. */
  ghost predicate Between(m0: Machine, m: Machine, c: nat, i: nat)
    requires Fits(m0) && c < |m0.cpus| && PcOf(m0, m0.cpus[c].on).Waking?
  {
    var x := m0.cpus[c].on;
    var pc := PcOf(m0, x);
    && Fits(m) && |m.tasks| == |m0.tasks| && |m.cpus| == |m0.cpus| && i <= |m.tasks|
    && m.owner == m0.owner && m.cond == m0.cond
    && (forall d :: 0 <= d < |m.cpus| ==> m.cpus[d] == m0.cpus[d].(raw := m.cpus[d].raw))
    && m.cpus[c].on == x && PcOf(m, x) == pc.(i := i, stage := 0)
    && (forall t :: 0 <= t < i && T(t) != x ==> Woken(m0.tasks[t], m.tasks[t], false, pc.ch))
    && (forall t :: i <= t < |m.tasks| && T(t) != x ==> m.tasks[t] == m0.tasks[t])
    && (x.T? ==> m.tasks[x.t] == m0.tasks[x.t].(pc := PcOf(m, x)))
  }

  ghost predicate TaskLocksFree(m: Machine) {
    forall t :: TaskLock(t) !in m.owner
  }

  /** Lock, look, unlock, for one task. */
  function AfterOne(m: Machine, c: nat): Machine
    requires Fits(m) && c < |m.cpus| && PcOf(m, m.cpus[c].on).Waking? && PcOf(m, m.cpus[c].on).i < |m.tasks|
  {
    var x := m.cpus[c].on;
    var pc := PcOf(m, x);
    var k := m.tasks[pc.i];
    var m1 := m.(cpus := m.cpus[c := Released(Acquired(m.cpus[c]))]);
    var m2 := if k.state == Sleeping && k.chan == Some(pc.ch) then SetTask(m1, pc.i, k.(state := Ready)) else m1;
    SetPc(m2, x, pc.(i := pc.i + 1))
  }

  lemma OneRound(m: Machine, c: nat)
    requires Fits(m) && c < |m.cpus| && PcOf(m, m.cpus[c].on).Waking?
    requires var pc := PcOf(m, m.cpus[c].on);
      pc.stage == 0 && pc.i < |m.tasks| && m.cpus[c].on != T(pc.i) && TaskLock(pc.i) !in m.owner
    ensures var r1 := WakeStep(m, c);
      r1.Ok? && Fits(r1.value) && c < |r1.value.cpus| && PcOf(r1.value, r1.value.cpus[c].on).Waking?
      && var r2 := WakeStep(r1.value, c);
      r2.Ok? && Fits(r2.value) && c < |r2.value.cpus| && PcOf(r2.value, r2.value.cpus[c].on).Waking?
      && WakeStep(r2.value, c) == Ok(AfterOne(m, c))
  {
    var x := m.cpus[c].on;
    var pc := PcOf(m, x);
    var r1 := WakeStep(m, c).value;
    assert r1.owner == m.owner[TaskLock(pc.i) := c] && r1.cpus == m.cpus[c := Acquired(m.cpus[c])];
    assert PcOf(r1, x) == pc.(stage := 1) && Fits(r1);
    var r2 := WakeStep(r1, c).value;
    assert r2.owner == r1.owner && r2.cpus == r1.cpus && PcOf(r2, x) == pc.(stage := 2) && Fits(r2);
    var r3 := WakeStep(r2, c).value;
    assert r3.owner == m.owner;
    assert r3.cpus == AfterOne(m, c).cpus;
    assert r3.tasks == AfterOne(m, c).tasks;
    assert r3.spcs == AfterOne(m, c).spcs;
  }

  lemma RoundAlone(m: Machine, c: nat, n: nat)
    requires Fits(m) && c < |m.cpus| && PcOf(m, m.cpus[c].on).Waking?
    requires var pc := PcOf(m, m.cpus[c].on);
      pc.stage == 0 && pc.i < |m.tasks| && m.cpus[c].on != T(pc.i) && TaskLock(pc.i) !in m.owner
    requires Fits(AfterOne(m, c))
    ensures Alone(m, c, n + 3) == Alone(AfterOne(m, c), c, n)
  {
    OneRound(m, c);
    hide WakeStep;
    hide AfterOne;
    hide PcOf;
    var r1 := WakeStep(m, c).value;
    var r2 := WakeStep(r1, c).value;
    assert Alone(m, c, n + 3) == Alone(r1, c, n + 2);
    assert Alone(r1, c, n + 2) == Alone(r2, c, n + 1);
  }

  lemma BetweenNext(m0: Machine, m: Machine, c: nat, i: nat)
    requires Fits(m0) && c < |m0.cpus| && PcOf(m0, m0.cpus[c].on).Waking?
    requires m0.cpus[c].level > 0 ==> !m0.cpus[c].intr
    requires Between(m0, m, c, i) && i < |m.tasks| && m.cpus[c].on != T(i)
    ensures Between(m0, AfterOne(m, c), c, i + 1)
  {
  }

  lemma BetweenSelf(m0: Machine, m: Machine, c: nat, i: nat)
    requires Fits(m0) && c < |m0.cpus| && PcOf(m0, m0.cpus[c].on).Waking?
    requires Between(m0, m, c, i) && i < |m.tasks| && m.cpus[c].on == T(i)
    ensures WakeStep(m, c).Ok? && Between(m0, WakeStep(m, c).value, c, i + 1)
  {
  }

  lemma LastAlone(m0: Machine, m: Machine, c: nat)
    requires Fits(m0) && c < |m0.cpus| && PcOf(m0, m0.cpus[c].on).Waking?
    requires Between(m0, m, c, |m.tasks|)
    ensures Alone(m, c, 1).Ok? && Finished(m0, Alone(m, c, 1).value, c)
  {
    assert Alone(m, c, 1) == WakeStep(m, c);
  }

  lemma NextAlone(m0: Machine, m: Machine, c: nat, i: nat, n: nat) returns (m1: Machine, k: nat)
    requires Fits(m0) && c < |m0.cpus| && PcOf(m0, m0.cpus[c].on).Waking?
    requires m0.cpus[c].level > 0 ==> !m0.cpus[c].intr
    requires Between(m0, m, c, i) && i < |m.tasks| && TaskLocksFree(m0)
    ensures Between(m0, m1, c, i + 1) && |m1.tasks| == |m.tasks| && n <= k
    ensures Fits(m) && c < |m.cpus| && Alone(m, c, n + 3) == Alone(m1, c, k)
  {
    if m.cpus[c].on == T(i) {
      BetweenSelf(m0, m, c, i);
      hide WakeStep;
      m1, k := WakeStep(m, c).value, n + 2;
    } else {
      hide WakeStep;
      BetweenNext(m0, m, c, i);
      RoundAlone(m, c, n);
      m1, k := AfterOne(m, c), n;
    }
  }

  /** Undisturbed, the locked loop ends and does what the plain loop does, giving back every lock
      and the interrupt state. */
  lemma {:induction false} WakeupAlone(m0: Machine, m: Machine, c: nat, i: nat)
    requires Fits(m0) && c < |m0.cpus| && PcOf(m0, m0.cpus[c].on).Waking?
    requires m0.cpus[c].level > 0 ==> !m0.cpus[c].intr
    requires Between(m0, m, c, i) && TaskLocksFree(m0)
    ensures Alone(m, c, 3 * (|m.tasks| - i) + 1).Ok?
    ensures Finished(m0, Alone(m, c, 3 * (|m.tasks| - i) + 1).value, c)
    decreases |m.tasks| - i
  {
    hide WakeStep;
    hide Woken;
    if i == |m.tasks| {
      LastAlone(m0, m, c);
    } else {
      var n := 3 * (|m.tasks| - i - 1) + 1;
      var m1, k := NextAlone(m0, m, c, i, n);
      WakeupAlone(m0, m1, c, i + 1);
      MoreAlone(m1, c, n, k);
    }
  }

  ghost predicate Finished(m0: Machine, m: Machine, c: nat)
    requires Fits(m0) && c < |m0.cpus| && PcOf(m0, m0.cpus[c].on).Waking?
  {
    var x := m0.cpus[c].on;
    var pc := PcOf(m0, x);
    && Fits(m) && |m.tasks| == |m0.tasks| && |m.cpus| == |m0.cpus| && m.owner == m0.owner && m.cond == m0.cond
    && m.cpus[c] == m0.cpus[c].(raw := m.cpus[c].raw)
    && PcOf(m, x) == Plain(pc.held, pc.owes - {pc.ch})
    && (forall t :: 0 <= t < |m.tasks| && T(t) != x ==> Woken(m0.tasks[t], m.tasks[t], false, pc.ch))
  }

  /** More steps change nothing once the loop is over. */
  lemma {:induction false} MoreAlone(m: Machine, c: nat, n: nat, k: nat)
    requires Fits(m) && c < |m.cpus| && n <= k && Alone(m, c, n).Ok?
    requires var r := Alone(m, c, n).value; Fits(r) && c < |r.cpus| && !PcOf(r, r.cpus[c].on).Waking?
    ensures Alone(m, c, k) == Alone(m, c, n)
    decreases n
  {
    hide WakeStep;
    if n > 0 && PcOf(m, m.cpus[c].on).Waking? { MoreAlone(WakeStep(m, c).value, c, n - 1, k - 1); }
  }
}
