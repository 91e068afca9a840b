/** The memory of a task as a whole: page tables (`Vm`), the page allocator and the slots (`Pages`)
    together, for task_mm_init (kernel/task/task.c) and what grows a task later (kernel/mem/vm.c).

    The free list and the page lists exist once in the kernel; here both halves have them, and every
    operation keeps the two in agreement.  Page i of the allocator is frame BASE + i. */
module TaskMemory {
  import opened Base
  import opened Sv39
  import P = Pages
  import V = Vm

  const BASE := 0x80000     // PHY_MEMORY / PGSIZE
  const NPAGE := 0x20000    // PHY_SIZE / PGSIZE

  const PTE_XR := PTE_X + PTE_R

  const TRAMPOLINE := VA_TOP - PGSIZE
  const TRAPFRAME := VA_TOP - 2 * PGSIZE

  function Frames(ps: seq<nat>): (fs: seq<nat>)
    ensures |fs| == |ps| && forall i :: 0 <= i < |ps| ==> fs[i] == ps[i] + BASE
  {
    seq(|ps|, i requires 0 <= i < |ps| => ps[i] + BASE)
  }

  lemma FramesSplit(ps: seq<nat>, n: nat)
    requires n <= |ps|
    ensures Frames(ps)[n..] == Frames(ps[n..]) && Frames(ps)[..n] == Frames(ps[..n])
  {
  }

  lemma FramesAppend(ps: seq<nat>, qs: seq<nat>)
    ensures Frames(ps + qs) == Frames(ps) + Frames(qs)
  {
  }

  // ---------------------------------------------------------------- runs of the page machine

  /** No page goes to the kernel for good. */
  predicate NoBoot(steps: seq<P.Step>) {
    forall i :: 0 <= i < |steps| ==> !steps[i].BootPage?
  }

  ghost predicate Reaches(m: P.Mem, m': P.Mem) {
    exists steps :: NoBoot(steps) && P.Run(m, steps) == Ok(m')
  }

  lemma {:induction false} RunAppend(m: P.Mem, xs: seq<P.Step>, ys: seq<P.Step>)
    requires P.Run(m, xs).Ok?
    ensures P.Run(m, xs + ys) == P.Run(P.Run(m, xs).value, ys)
  {
    if ys == [] {
      assert xs + ys == xs;
    } else {
      var zs := ys[..|ys| - 1];
      RunAppend(m, xs, zs);
      assert (xs + ys)[..|xs + ys| - 1] == xs + zs;
    }
  }

  lemma ReachesSelf(m: P.Mem)
    ensures Reaches(m, m)
  {
    assert NoBoot([]) && P.Run(m, []) == Ok(m);
  }

  lemma ReachesStep(m: P.Mem, a: P.Step)
    requires P.Do(m, a).Ok? && !a.BootPage?
    ensures Reaches(m, P.Do(m, a).value)
  {
    assert [a][..0] == [];
    assert NoBoot([a]) && P.Run(m, [a]) == P.Do(m, a);
  }

  lemma ReachesTwice(m: P.Mem, m1: P.Mem, m2: P.Mem)
    requires Reaches(m, m1) && Reaches(m1, m2)
    ensures Reaches(m, m2)
  {
    var xs :| NoBoot(xs) && P.Run(m, xs) == Ok(m1);
    var ys :| NoBoot(ys) && P.Run(m1, ys) == Ok(m2);
    RunAppend(m, xs, ys);
    assert NoBoot(xs + ys);
  }

  /** n pages for a task's list, or, with no task, kept by the kernel for good. */
  function TakeFor(m: P.Mem, ut: Option<nat>, n: nat): Outcome<P.Mem>
    decreases n
  {
    if n == 0 then Ok(m)
    else
      var r := P.Do(m, if ut.Some? then P.Page(ut.value) else P.BootPage);
      if r.Panic? then Panic else TakeFor(r.value, ut, n - 1)
  }

  predicate Live(m: P.Mem, t: nat) {
    t < |m.tasks| && m.tasks[t].mm.Some?
  }

  function Grown(m: P.Mem, ut: Option<nat>, n: nat): seq<P.Task>
    requires (ut.Some? ==> Live(m, ut.value)) && n <= |m.free|
  {
    if ut.None? then m.tasks
    else m.tasks[ut.value := m.tasks[ut.value].(pages := m.tasks[ut.value].pages + m.free[..n])]
  }

  /** How many vmas are on the list of task t. */
  function Vmas(m: P.Mem, t: nat): nat {
    if t < |m.tasks| then |m.tasks[t].vmas| else 0
  }

  lemma {:induction false} TakenVmas(m: P.Mem, ut: Option<nat>, n: nat, t: nat)
    requires TakeFor(m, ut, n).Ok?
    ensures Vmas(TakeFor(m, ut, n).value, t) == Vmas(m, t)
    decreases n
  {
    if n > 0 { TakenVmas(P.Do(m, if ut.Some? then P.Page(ut.value) else P.BootPage).value, ut, n - 1, t); }
  }

  lemma VmaAdds(m: P.Mem, t: nat)
    requires P.Inv(m) && Live(m, t) && P.Do(m, P.Vma(t)).Ok?
    ensures Vmas(P.Do(m, P.Vma(t)).value, t) == Vmas(m, t) + 1
  {
    P.StepDoes(m, P.Vma(t));
  }

  lemma StartsEmpty(m: P.Mem, t: nat)
    requires P.Inv(m) && t < |m.tasks| && m.tasks[t].mm.None? && P.Do(m, P.StartTask(t)).Ok?
    ensures Vmas(P.Do(m, P.StartTask(t)).value, t) == 0
  {
    P.StepDoes(m, P.StartTask(t));
  }

  lemma TakeOne(m: P.Mem, ut: Option<nat>)
    requires P.Inv(m) && (ut.Some? ==> Live(m, ut.value)) && m.free != []
    ensures var r := TakeFor(m, ut, 1);
      && r.Ok? && P.Inv(r.value) && (ut.Some? ==> Reaches(m, r.value)) && r.value.free == m.free[1..]
      && r.value.tasks == Grown(m, ut, 1) && |r.value.where| == |m.where|
  {
    var a := if ut.Some? then P.Page(ut.value) else P.BootPage;
    P.AllocPageMoves(m, if ut.Some? then P.OfTask(ut.value) else P.Boot);
    assert P.Do(m, a).Ok?;
    P.DoKeeps(m, a);
    if ut.Some? { ReachesStep(m, a); }
    assert m.free[..1] == [m.free[0]];
    assert TakeFor(m, ut, 1) == P.Do(m, a);
  }

  lemma GrownNone(m: P.Mem, ut: Option<nat>)
    requires ut.Some? ==> Live(m, ut.value)
    ensures Grown(m, ut, 0) == m.tasks
  {
    if ut.Some? {
      var k := m.tasks[ut.value];
      assert k.pages + m.free[..0] == k.pages;
      assert m.tasks[ut.value := k] == m.tasks;
    }
  }

  lemma GrownTwice(m: P.Mem, m1: P.Mem, ut: Option<nat>, n: nat)
    requires (ut.Some? ==> Live(m, ut.value)) && 0 < n <= |m.free| && m1.free == m.free[1..] && m1.tasks == Grown(m, ut, 1)
    ensures (ut.Some? ==> Live(m1, ut.value)) && n - 1 <= |m1.free| && m1.free[n - 1..] == m.free[n..]
    ensures Grown(m1, ut, n - 1) == Grown(m, ut, n)
  {
    if ut.Some? {
      var t := ut.value;
      assert m.free[..1] + m.free[1..][..n - 1] == m.free[..n];
      assert m.tasks[t].pages + m.free[..1] + m1.free[..n - 1] == m.tasks[t].pages + m.free[..n];
      assert Grown(m1, ut, n - 1)[t] == Grown(m, ut, n)[t];
    }
  }

  lemma {:induction false} TakeForIs(m: P.Mem, ut: Option<nat>, n: nat)
    requires P.Inv(m) && (ut.Some? ==> Live(m, ut.value)) && n <= |m.free|
    ensures var r := TakeFor(m, ut, n);
      && r.Ok? && P.Inv(r.value) && (ut.Some? ==> Reaches(m, r.value)) && r.value.free == m.free[n..]
      && r.value.tasks == Grown(m, ut, n) && |r.value.where| == |m.where|
    decreases n
  {
    if n == 0 {
      ReachesSelf(m);
      GrownNone(m, ut);
    } else {
      TakeOne(m, ut);
      var m1 := TakeFor(m, ut, 1).value;
      assert P.Do(m, if ut.Some? then P.Page(ut.value) else P.BootPage) == Ok(m1);
      GrownTwice(m, m1, ut, n);
      hide P.Do;
      hide P.Inv;
      hide Grown;
      TakeForIs(m1, ut, n - 1);
      if ut.Some? { ReachesTwice(m, m1, TakeFor(m1, ut, n - 1).value); }
      hide Reaches;
    }
  }

  // ---------------------------------------------------------------- the two halves agree

  ghost predicate Listed(lists: map<nat, seq<nat>>, m: P.Mem) {
    forall u: nat :: V.PagesOf(lists, u) == if u < |m.tasks| then Frames(m.tasks[u].pages) else []
  }

  ghost predicate Agree(free: seq<nat>, lists: map<nat, seq<nat>>, m: P.Mem) {
    P.Inv(m) && |m.where| <= NPAGE && free == Frames(m.free) && Listed(lists, m)
  }

  /** What the mapping loop does to free list and page lists is a run of the page machine: pages for the
      owning task, or, without one, pages the kernel keeps for good. */
  lemma GiveAgrees(m: P.Mem, lists: map<nat, seq<nat>>, ut: Option<nat>, free': seq<nat>)
    requires Agree(Frames(m.free), lists, m) && (ut.Some? ==> Live(m, ut.value)) && V.TakenFrom(Frames(m.free), free')
    ensures var r := TakeFor(m, ut, |m.free| - |free'|);
      && r.Ok? && (ut.Some? ==> Reaches(m, r.value)) && r.value.tasks == Grown(m, ut, |m.free| - |free'|)
      && Agree(free', V.Give(lists, ut, V.Taken(Frames(m.free), free')), r.value)
  {
    var n := |m.free| - |free'|;
    TakeForIs(m, ut, n);
    FramesSplit(m.free, n);
    var lists' := V.Give(lists, ut, Frames(m.free[..n]));
    var m' := TakeFor(m, ut, n).value;
    forall u: nat ensures V.PagesOf(lists', u) == if u < |m'.tasks| then Frames(m'.tasks[u].pages) else [] {
      assert V.PagesOf(lists, u) == if u < |m.tasks| then Frames(m.tasks[u].pages) else [];
      if ut == Some(u) { FramesAppend(m.tasks[u].pages, m.free[..n]); }
    }
  }

  /** A slot allocation takes at most the first free page. */
  lemma SlotTakes(m: P.Mem, k: nat, t: nat)
    requires P.Inv(m) && k < |m.arenas| && P.AllocObj(m, k, 0, t).Ok?
    ensures var n := P.AllocObj(m, k, 0, t).value.1;
      n.tasks == m.tasks && |n.where| == |m.where| && (n.free == m.free || (m.free != [] && n.free == m.free[1..]))
  {
    P.AllocObjFirst(m, k, 0, t);
  }

  // ---------------------------------------------------------------- nothing is lost

  lemma StepKeepsBoot(m: P.Mem, a: P.Step, p: nat)
    requires P.Inv(m) && P.Do(m, a).Ok? && !a.BootPage? && p < |m.where|
    ensures |P.Do(m, a).value.where| == |m.where|
    ensures P.Do(m, a).value.where[p] == P.Boot <==> m.where[p] == P.Boot
  {
    if P.IsTask(m, a.t) {
      match a
      case StartTask(t) => if m.tasks[t].mm.None? { SlotKeepsBoot(m, P.MM, t, p); }
      case Page(t) => P.AllocPageMoves(m, P.OfTask(t));
      case Vma(t) => if m.tasks[t].mm.Some? { SlotKeepsBoot(m, P.VMA, t, p); }
      case Unlink(t, i) => UnlinkKeepsBoot(m, t, i, p);
      case ExitTask(t) => P.ExitKeeps(m, t);
      case BootPage =>
    }
  }

  lemma SlotKeepsBoot(m: P.Mem, k: nat, t: nat, p: nat)
    requires P.Inv(m) && k < |m.arenas| && P.AllocObj(m, k, 0, t).Ok? && p < |m.where|
    ensures var n := P.AllocObj(m, k, 0, t).value.1; |n.where| == |m.where| && (n.where[p] == P.Boot <==> m.where[p] == P.Boot)
  {
    P.AllocObjFirst(m, k, 0, t);
    P.AllocPageMoves(m, P.OfSlot(k, P.FirstRoom(m.arenas[k], m.caps[k], 0)));
  }

  lemma UnlinkKeepsBoot(m: P.Mem, t: nat, i: nat, p: nat)
    requires P.Inv(m) && P.IsTask(m, t) && P.DropVma(m, t, i).Ok? && p < |m.where|
    ensures var n := P.DropVma(m, t, i).value; |n.where| == |m.where| && (n.where[p] == P.Boot <==> m.where[p] == P.Boot)
  {
    var k := m.tasks[t];
    if i < |k.vmas| {
      var m1 := m.(tasks := m.tasks[t := k.(vmas := k.vmas[..i] + k.vmas[i + 1..])]);
      assert P.TaskPagesOk(m, t) && P.TaskObjsOk(m, t);
      P.TasksChanged(m, m1, t);
      P.FreeObjPlaces(m1, k.vmas[i]);
    }
  }

  lemma {:induction false} RunKeepsBoot(m: P.Mem, steps: seq<P.Step>, p: nat)
    requires P.Inv(m) && NoBoot(steps) && P.Run(m, steps).Ok? && p < |m.where|
    ensures var n := P.Run(m, steps).value;
      P.Inv(n) && |n.where| == |m.where| && (n.where[p] == P.Boot <==> m.where[p] == P.Boot)
  {
    if steps != [] {
      var before, a := steps[..|steps| - 1], steps[|steps| - 1];
      RunKeepsBoot(m, before, p);
      var n := P.Run(m, before).value;
      P.DoKeeps(n, a);
      StepKeepsBoot(n, a, p);
    }
  }

  /** Once no task is left, every page that was not the kernel's before is free again, those that became
      page tables included. */
  lemma NothingLost(m: P.Mem, m': P.Mem, p: nat)
    requires P.Inv(m) && Reaches(m, m') && p < |m.where| && m.where[p] != P.Boot
    requires forall t :: 0 <= t < |m'.tasks| ==> m'.tasks[t].mm == None
    ensures p in m'.free
  {
    var steps :| NoBoot(steps) && P.Run(m, steps) == Ok(m');
    RunKeepsBoot(m, steps, p);
    P.NothingHeld(m', p);
  }

  // ---------------------------------------------------------------- the tree in between

  lemma NewRoot(mem: Mem, free: seq<nat>)
    requires free != [] && Different(free)
    ensures var w := Phys(mem[free[0] := Zeros()], free[1..]);
      TreeIn(w, free[0], {free[0]}) && forall x: nat :: VaToPa(w.mem, free[0], x) == 0
  {
    var w, t := Phys(mem[free[0] := Zeros()], free[1..]), Tables(map[], map[]);
    assert t.l1.Values == {} && t.l0.Values == {};
    assert Level1Ok(w.mem, free[0], t);
    assert FreeApart(w.free, free[0], t);
    assert Tree(w, free[0], t) && TableSet(free[0], t) == {free[0]};
    forall x: nat ensures VaToPa(w.mem, free[0], x) == 0 { VaToPaReadsFlat(w, free[0], t, x); }
  }

  /** Handing out a free page, zeroed or not, does not touch the tree. */
  lemma PageOut(w: Phys, root: nat, own: set<nat>)
    requires TreeIn(w, root, own) && w.free != []
    ensures var w' := Phys(w.mem[w.free[0] := Zeros()], w.free[1..]);
      TreeIn(w', root, own) && forall x: nat :: VaToPa(w'.mem, root, x) == VaToPa(w.mem, root, x)
    ensures TreeIn(Phys(w.mem, w.free[1..]), root, own)
  {
    var t :| Tree(w, root, t) && TableSet(root, t) <= own;
    FreshPage(w.free, root, t);
    FreeStaysApart(w.free, root, t, t);
    var w' := Phys(w.mem[w.free[0] := Zeros()], w.free[1..]);
    assert {w.free[0]} !! TableSet(root, t);
    assert Within({w.free[0]}, w.mem, w'.mem) && Within({}, w.mem, w.mem);
    hide Tree;
    hide TableSet;
    hide Within;
    hide FreeApart;
    SameTree(w, w', root, t, {w.free[0]});
    SameTree(w, Phys(w.mem, w.free[1..]), root, t, {});
    forall x: nat ensures VaToPa(w'.mem, root, x) == VaToPa(w.mem, root, x) {
      SameWalk(w, w', root, t, {w.free[0]}, x);
    }
  }

  lemma TreeMore(w: Phys, root: nat, own: set<nat>, own': set<nat>)
    requires TreeIn(w, root, own) && own <= own'
    ensures TreeIn(w, root, own')
  {
    var t :| Tree(w, root, t) && TableSet(root, t) <= own;
    assert TableSet(root, t) <= own';
  }

  /** One page: svmmap is a single turn of the loop. */
  lemma OnePage(w: Phys, root: nat, va: nat, pa: nat, attr: nat)
    requires va % PGSIZE == 0 && va + PGSIZE <= VA_TOP && pa + PGSIZE <= PHY_TOP && attr < 1024
    ensures Svmmap(w, root, va, pa, PGSIZE, attr).Ok? ==> pa % PGSIZE == 0
    ensures pa % PGSIZE == 0 ==>
      Svmmap(w, root, va, pa, PGSIZE, attr) == MapPage(w, root, va / PGSIZE, Pte(FrameAfter(pa / PGSIZE, 0), attr))
  {
    hide MapPage;
    hide Pte;
    hide FrameAfter;
    if pa % PGSIZE == 0 {
      var p, first := va / PGSIZE, pa / PGSIZE;
      assert Bound(va, PGSIZE) / PGSIZE == p + 1;
      var r := MapPage(w, root, p, Pte(FrameAfter(first, 0), attr));
      if r.Ok? { assert MapRange(r.value, root, p + 1, p + 1, first, 1, attr) == Ok(r.value); }
    }
  }

  /** The ownerless trampoline mapping that follows the trapframe mapping takes no page. */
  lemma TrampolineTakesNothing(w: Phys, root: nat, pa: nat, attr: nat, trampoline: nat, attr': nat)
    requires WellFormed(w, root) && attr < 1024 && attr' < 1024 && pa + PGSIZE <= PHY_TOP && trampoline + PGSIZE <= PHY_TOP
    requires Svmmap(w, root, TRAPFRAME, pa, PGSIZE, attr).Ok?
    ensures var r := Svmmap(Svmmap(w, root, TRAPFRAME, pa, PGSIZE, attr).value, root, TRAMPOLINE, trampoline, PGSIZE, attr');
      r.Ok? ==> r.value.free == Svmmap(w, root, TRAPFRAME, pa, PGSIZE, attr).value.free
  {
    hide Svmmap;
    hide MapPage;
    hide Pte;
    hide WellFormed;
    OnePage(w, root, TRAPFRAME, pa, attr);
    var w1 := Svmmap(w, root, TRAPFRAME, pa, PGSIZE, attr).value;
    OnePage(w1, root, TRAMPOLINE, trampoline, attr');
    TrampolineIsFree(w, root, Pte(FrameAfter(pa / PGSIZE, 0), attr), Pte(FrameAfter(trampoline / PGSIZE, 0), attr'));
  }

  // ---------------------------------------------------------------- whose page is whose

  ghost function Own(m: P.Mem, t: nat): set<nat> {
    if t < |m.tasks| then set f | f in Frames(m.tasks[t].pages) else {}
  }

  lemma OwnIs(m: P.Mem, t: nat, f: nat)
    ensures f in Own(m, t) <==> t < |m.tasks| && f >= BASE && f - BASE in m.tasks[t].pages
  {
    if t < |m.tasks| {
      var ps := m.tasks[t].pages;
      if f in Frames(ps) { var i :| 0 <= i < |ps| && Frames(ps)[i] == f; assert ps[i] == f - BASE; }
      if f >= BASE && f - BASE in ps { var i :| 0 <= i < |ps| && ps[i] == f - BASE; assert Frames(ps)[i] == f; }
    }
  }

  /** A run of the page machine in which task t keeps its pages, perhaps with more behind them, and no
      other task changes. */
  ghost predicate Grows(m: P.Mem, m': P.Mem, t: nat) {
    && Reaches(m, m') && |m'.tasks| == |m.tasks| && t < |m.tasks| && m'.tasks[t].mm.Some?
    && m.tasks[t].pages <= m'.tasks[t].pages
    && forall u :: 0 <= u < |m.tasks| && u != t ==> m'.tasks[u] == m.tasks[u]
  }

  lemma GrowsTwice(m: P.Mem, m1: P.Mem, m2: P.Mem, t: nat)
    requires Grows(m, m1, t) && Grows(m1, m2, t)
    ensures Grows(m, m2, t)
  {
    ReachesTwice(m, m1, m2);
  }

  lemma OwnGrows(m: P.Mem, m': P.Mem, t: nat)
    requires Grows(m, m', t)
    ensures Own(m, t) <= Own(m', t)
  {
    var ps, ps' := m.tasks[t].pages, m'.tasks[t].pages;
    forall f | f in Own(m, t) ensures f in Own(m', t) {
      var i :| 0 <= i < |ps| && Frames(ps)[i] == f;
      assert Frames(ps')[i] == f;
    }
  }

  lemma TakenGrows(m: P.Mem, m': P.Mem, t: nat, n: nat)
    requires Reaches(m, m') && Live(m, t) && n <= |m.free| && m'.tasks == Grown(m, Some(t), n)
    ensures Grows(m, m', t)
    ensures forall f :: f in Frames(m.free)[..n] ==> f in Own(m', t)
  {
    forall f | f in Frames(m.free)[..n] ensures f in Own(m', t) {
      var i :| 0 <= i < n && Frames(m.free)[i] == f;
      assert m'.tasks[t].pages[|m.tasks[t].pages| + i] == m.free[i];
      assert Frames(m'.tasks[t].pages)[|m.tasks[t].pages| + i] == f;
    }
  }

  /** The first page of the free list is a frame of RAM. */
  lemma FreeInRam(free: seq<nat>, lists: map<nat, seq<nat>>, m: P.Mem)
    requires Agree(free, lists, m) && free != []
    ensures BASE <= free[0] < BASE + NPAGE && free[0] == m.free[0] + BASE
  {
    assert m.free[0] in m.free;
    assert P.IsAt(m, m.free[0], P.Free);
  }

  lemma FreeDistinct(free: seq<nat>, lists: map<nat, seq<nat>>, m: P.Mem)
    requires Agree(free, lists, m)
    ensures Different(free)
  {
    assert P.Distinct(m.free);
  }

  lemma TaskPlace(m: P.Mem, t: nat, f: nat)
    requires P.Inv(m) && f in Own(m, t)
    ensures f >= BASE && P.IsAt(m, f - BASE, P.OfTask(t))
  {
    OwnIs(m, t, f);
    assert P.TaskPagesOk(m, t);
  }

  lemma FreePlace(m: P.Mem, f: nat)
    requires P.Inv(m) && f in Frames(m.free)
    ensures f >= BASE && P.IsAt(m, f - BASE, P.Free)
  {
    var i :| 0 <= i < |m.free| && Frames(m.free)[i] == f;
    assert m.free[i] in m.free;
  }

  /** No frame belongs to two tasks, or to a task and the free list. */
  lemma OwnApart(free: seq<nat>, lists: map<nat, seq<nat>>, m: P.Mem, t: nat, u: nat)
    requires Agree(free, lists, m) && t != u
    ensures Own(m, t) !! Own(m, u) && forall f :: f in free ==> f !in Own(m, u)
  {
    assert forall f :: f in Own(m, u) ==> f >= BASE && P.IsAt(m, f - BASE, P.OfTask(u)) by {
      forall f | f in Own(m, u) ensures f >= BASE && P.IsAt(m, f - BASE, P.OfTask(u)) { TaskPlace(m, u, f); }
    }
    assert forall f :: f in Own(m, t) ==> f >= BASE && P.IsAt(m, f - BASE, P.OfTask(t)) by {
      forall f | f in Own(m, t) ensures f >= BASE && P.IsAt(m, f - BASE, P.OfTask(t)) { TaskPlace(m, t, f); }
    }
    assert forall f :: f in free ==> f >= BASE && P.IsAt(m, f - BASE, P.Free) by {
      forall f | f in free ensures f >= BASE && P.IsAt(m, f - BASE, P.Free) { FreePlace(m, f); }
    }
    hide Own;
    hide P.Inv;
  }

  /** Every tree of another task is still there with the same translations. */
  ghost predicate Undisturbed(w: Phys, m: P.Mem, w': Phys, m': P.Mem, t: nat) {
    forall u: nat, r: nat :: u != t && TreeIn(w, r, Own(m, u)) ==>
      TreeIn(w', r, Own(m', u)) && forall x: nat :: VaToPa(w'.mem, r, x) == VaToPa(w.mem, r, x)
  }

  /** Writing pages of one task, and none of its own, disturbs no other. */
  lemma Undisturbs(w: Phys, m: P.Mem, w': Phys, lists': map<nat, seq<nat>>, m': P.Mem, t: nat)
    requires Agree(w'.free, lists', m') && |m'.tasks| == |m.tasks| && Within(Own(m', t), w.mem, w'.mem)
    requires forall u :: 0 <= u < |m.tasks| && u != t ==> m'.tasks[u] == m.tasks[u]
    ensures Undisturbed(w, m, w', m', t)
  {
    FreeDistinct(w'.free, lists', m');
    forall u: nat, r: nat | u != t && TreeIn(w, r, Own(m, u))
      ensures TreeIn(w', r, Own(m', u)) && forall x: nat :: VaToPa(w'.mem, r, x) == VaToPa(w.mem, r, x)
    {
      TreeInIs(w, r, Own(m, u));
      OwnApart(w'.free, lists', m', t, u);
      hide TreeIn;
      OtherTree(w, w', r, Own(m', u), Own(m', t));
    }
  }

  /** What an operation for task t does: it grows the task, the tree at root is well formed on pages of the
      task, and nothing but pages of the task was written. */
  ghost predicate Stepped(mem: Mem, m: P.Mem, w': Phys, m': P.Mem, t: nat, root: nat) {
    Grows(m, m', t) && TreeIn(w', root, Own(m', t)) && Within(Own(m', t), mem, w'.mem)
  }

  lemma SteppedTwice(mem: Mem, m: P.Mem, w1: Phys, m1: P.Mem, w2: Phys, m2: P.Mem, t: nat, root: nat)
    requires Grows(m, m1, t) && Within(Own(m1, t), mem, w1.mem) && Stepped(w1.mem, m1, w2, m2, t, root)
    ensures Stepped(mem, m, w2, m2, t, root)
  {
    GrowsTwice(m, m1, m2, t);
    OwnGrows(m1, m2, t);
    hide Grows;
    hide TreeIn;
    hide Own;
  }

  // ---------------------------------------------------------------- where addresses lead

  datatype Area = Area(va: nat, size: nat, attr: nat)

  /** The translation once area a is mapped to frame f on; `otherwise` is the one before. */
  function Over(a: Area, f: nat, x: nat, otherwise: nat): nat {
    if a.va <= Canon(x) < Bound(a.va, a.size) then (if IsLeaf(a.attr) then f * PGSIZE + (Canon(x) - a.va) else 0)
    else otherwise
  }

  /** Later areas over earlier ones. */
  function Placed(areas: seq<Area>, frames: seq<nat>, x: nat): nat
    requires |frames| == |areas|
  {
    if areas == [] then 0
    else
      var n := |areas| - 1;
      Over(areas[n], frames[n], x, Placed(areas[..n], frames[..n], x))
  }

  /** The trapframe and trampoline pages over what was there. */
  function TopOver(frame: nat, trampoline: nat, x: nat, otherwise: nat): nat {
    if TRAMPOLINE <= Canon(x) < VA_TOP then trampoline + (Canon(x) - TRAMPOLINE)
    else if TRAPFRAME <= Canon(x) < TRAMPOLINE then frame * PGSIZE + (Canon(x) - TRAPFRAME)
    else otherwise
  }

  /** Every translation of a new task. */
  function LaidOut(areas: seq<Area>, frames: seq<nat>, frame: nat, trampoline: nat, x: nat): nat
    requires |frames| == |areas|
  {
    TopOver(frame, trampoline, x, Placed(areas, frames, x))
  }

  /** The areas of a task are pages, so an address leads to a page of the task, to the trampoline, or
      nowhere. */
  lemma StaysHome(areas: seq<Area>, frames: seq<nat>, frame: nat, trampoline: nat, x: nat, own: set<nat>)
    requires |frames| == |areas| && frame in own && (forall i :: 0 <= i < |areas| ==> frames[i] in own)
    requires forall i :: 0 <= i < |areas| ==> Bound(areas[i].va, areas[i].size) <= areas[i].va + PGSIZE
    ensures var pa := LaidOut(areas, frames, frame, trampoline, x);
      pa == 0 || pa / PGSIZE in own || (TRAMPOLINE <= Canon(x) < VA_TOP && pa == trampoline + (Canon(x) - TRAMPOLINE))
  {
    if TRAPFRAME <= Canon(x) < TRAMPOLINE {
      InPage(frame, Canon(x) - TRAPFRAME);
    } else {
      PlacedHome(areas, frames, x, own);
    }
  }

  lemma InPage(f: nat, d: nat)
    requires d < PGSIZE
    ensures (f * PGSIZE + d) / PGSIZE == f
  {
  }

  lemma {:induction false} PlacedHome(areas: seq<Area>, frames: seq<nat>, x: nat, own: set<nat>)
    requires |frames| == |areas| && (forall i :: 0 <= i < |areas| ==> frames[i] in own)
    requires forall i :: 0 <= i < |areas| ==> Bound(areas[i].va, areas[i].size) <= areas[i].va + PGSIZE
    ensures Placed(areas, frames, x) == 0 || Placed(areas, frames, x) / PGSIZE in own
  {
    hide Bound;
    hide Canon;
    hide IsLeaf;
    if areas != [] {
      var n := |areas| - 1;
      PlacedHome(areas[..n], frames[..n], x, own);
      var a := areas[n];
      if a.va <= Canon(x) < Bound(a.va, a.size) { InPage(frames[n], Canon(x) - a.va); }
    }
  }

  // ---------------------------------------------------------------- operations

  /** Why an operation stops: no page, or no slot, is left. */
  ghost predicate Exhausted(free: seq<nat>, m: P.Mem) {
    free == [] || (P.Shape(m) && (NoSlot(m, P.VMA) || NoSlot(m, P.MM)))
  }

  predicate NoSlot(m: P.Mem, k: nat)
    requires k < |m.arenas| == |m.caps|
  {
    P.FirstRoom(m.arenas[k], m.caps[k], 0) == |m.arenas[k]|
  }

  /** do_vmmap refuses area a at frame f. */
  predicate Refuses(a: Area, f: nat) {
    V.Refused(a.va, f * PGSIZE, a.size)
  }

  predicate Fits(a: Area) {
    a.va < U64 && a.size < U64 && a.attr < 1024
  }

  class Space {
    const vm: V.Memory
    var pages: P.Mem

    ghost predicate Valid()
      reads this, vm
    {
      Agree(vm.free, vm.lists, pages)
    }

    /** After boot, before the first task. */
    constructor (m: P.Mem)
      requires Agree(Frames(m.free), map[], m)
      ensures Valid() && pages == m && fresh(vm)
    {
      vm := new V.Memory(Frames(m.free));
      pages := m;
    }

    /** alloc_page_for_task. */
    method AllocPageForTask(t: nat) returns (ok: bool, f: nat)
      requires Valid() && Live(pages, t)
      modifies this, vm
      ensures ok == (old(vm.free) != []) && (!ok ==> vm.free == [])
      ensures ok ==> Valid() && Grows(old(pages), pages, t) && f in Own(pages, t) && BASE <= f < BASE + NPAGE
      ensures ok ==> f == old(vm.free)[0] && vm.Model() == Phys(old(vm.mem)[f := Zeros()], old(vm.free)[1..])
      ensures ok ==> Vmas(pages, t) == Vmas(old(pages), t)
    {
      ghost var free0, lists0, m0 := vm.free, vm.lists, pages;
      ok, f := vm.AllocPage();
      if !ok { return; }
      vm.lists := vm.lists[t := V.PagesOf(vm.lists, t) + [f]];
      assert V.TakenFrom(free0, vm.free) && V.Taken(free0, vm.free) == [f];
      assert V.Give(lists0, Some(t), [f]) == vm.lists;
      assert free0 == Frames(m0.free) && f in Frames(m0.free)[..1];
      hide *;
      HandOut(m0, free0, lists0, Some(t), vm.free, vm.lists);
      FreeInRam(free0, lists0, m0);
      pages := TakeFor(pages, Some(t), 1).value;
      TakenGrows(m0, pages, t, 1);
      TakenVmas(m0, Some(t), 1, t);
    }

    /** svmmap for an owner, or for none. */
    method MapPages(root: nat, va: nat, pa: nat, size: nat, attr: nat, ut: Option<nat>) returns (ok: bool)
      requires Valid() && (ut.Some? ==> Live(pages, ut.value)) && attr < 1024 && va < U64 && pa < U64 && size < U64
      modifies this, vm
      ensures !ok ==> vm.free == [] || V.Refused(va, pa, size)
      ensures ok ==> Svmmap(old(vm.Model()), root, va, pa, size, attr) == Ok(vm.Model())
      ensures ok ==> Valid() && V.TakenFrom(old(vm.free), vm.free) && !V.Refused(va, pa, size)
      ensures ok ==> TakeFor(old(pages), ut, |old(vm.free)| - |vm.free|) == Ok(pages)
      ensures ok ==> forall t: nat :: Vmas(pages, t) == Vmas(old(pages), t)
      ensures ok && ut.Some? ==> Grows(old(pages), pages, ut.value)
      ensures ok && ut.Some? ==> forall f :: f in V.Taken(old(vm.free), vm.free) ==> f in Own(pages, ut.value)
    {
      hide Svmmap;
      hide Agree;
      hide TakeFor;
      hide V.Refused;
      hide V.Give;
      hide Grows;
      hide Own;
      ghost var free0, lists0, m0 := vm.free, vm.lists, pages;
      assert free0 == Frames(m0.free) by { AgreeFree(free0, lists0, m0); }
      ok := vm.MapPages(root, va, pa, size, attr, ut);
      if !ok { return; }
      HandOut(m0, free0, lists0, ut, vm.free, vm.lists);
      pages := TakeFor(pages, ut, |pages.free| - |vm.free|).value;
      forall t: nat ensures Vmas(pages, t) == Vmas(m0, t) { TakenVmas(m0, ut, |free0| - |vm.free|, t); }
      if ut.Some? { TakenGrows(m0, pages, ut.value, |free0| - |vm.free|); }
    }

    /** svmmap for the task that owns the tree. */
    method MapOwn(t: nat, root: nat, a: Area, pa: nat) returns (ok: bool)
      requires Valid() && Live(pages, t) && TreeIn(vm.Model(), root, Own(pages, t)) && Fits(a) && pa < U64
      modifies this, vm
      ensures !ok ==> vm.free == [] || V.Refused(a.va, pa, a.size)
      ensures ok ==> Valid() && Stepped(old(vm.mem), old(pages), vm.Model(), pages, t, root) && !V.Refused(a.va, pa, a.size)
      ensures ok ==> Svmmap(old(vm.Model()), root, a.va, pa, a.size, a.attr) == Ok(vm.Model())
      ensures ok ==> Vmas(pages, t) == Vmas(old(pages), t)
      ensures ok ==> forall x: nat :: SvmmapAt(old(vm.Model()), vm.Model(), root, a.va, pa, a.size, a.attr, x)
    {
      ghost var w0, m0 := vm.Model(), pages;
      ok := MapPages(root, a.va, pa, a.size, a.attr, Some(t));
      if !ok { return; }
      hide *;
      MappedOwn(w0, m0, vm.Model(), pages, t, root, a, pa);
    }

    /** alloc_vma_slot, which may take a page for the slot. */
    method NewVma(t: nat, ghost root: nat) returns (ok: bool)
      requires Valid() && Live(pages, t) && TreeIn(vm.Model(), root, Own(pages, t))
      modifies this, vm
      ensures !ok ==> Exhausted(vm.free, pages)
      ensures ok ==> Valid() && Stepped(old(vm.mem), old(pages), vm.Model(), pages, t, root) && vm.mem == old(vm.mem)
      ensures ok ==> Vmas(pages, t) == Vmas(old(pages), t) + 1
    {
      var r := P.Do(pages, P.Vma(t));
      if r.Panic? {
        VmaFails(vm.free, vm.lists, pages, t);
        return false;
      }
      VmaKeeps(vm.Model(), vm.lists, pages, t, root);
      VmaAdds(pages, t);
      pages := r.value;
      vm.free := Frames(pages.free);
      return true;
    }

    /** task_vmmap: a vma, then the mapping. */
    method TaskVmmap(t: nat, root: nat, a: Area, pa: nat) returns (ok: bool)
      requires Valid() && Live(pages, t) && TreeIn(vm.Model(), root, Own(pages, t)) && Fits(a) && pa < U64
      modifies this, vm
      ensures !ok ==> Exhausted(vm.free, pages) || V.Refused(a.va, pa, a.size)
      ensures ok ==> Valid() && Stepped(old(vm.mem), old(pages), vm.Model(), pages, t, root) && !V.Refused(a.va, pa, a.size)
      ensures ok ==> forall x: nat :: SvmmapAt(old(vm.Model()), vm.Model(), root, a.va, pa, a.size, a.attr, x)
      ensures ok ==> Undisturbed(old(vm.Model()), old(pages), vm.Model(), pages, t)
      ensures ok ==> Vmas(pages, t) == Vmas(old(pages), t) + 1
    {
      hide Agree;
      hide TreeIn;
      hide Own;
      hide Within;
      hide Exhausted;
      hide V.Refused;
      hide Vmas;
      hide VaToPa;
      ghost var w0, m0 := vm.Model(), pages;
      ok := NewVma(t, root);
      if !ok { return; }
      ghost var m1, w1 := pages, vm.Model();
      ok := MapOwn(t, root, a, pa);
      if !ok {
        NoFree(vm.free, pages);
        return;
      }
      hide *;
      SteppedTwice(w0.mem, m0, w1, m1, vm.Model(), pages, t, root);
      SameStart(w0, w1, vm.Model(), root, a, pa);
      OthersKept(w0, m0, vm.Model(), vm.lists, pages, t, root);
    }

    /** A page that no table refers to yet. */
    method NewPage(t: nat, ghost root: nat) returns (ok: bool, f: nat)
      requires Valid() && Live(pages, t) && TreeIn(vm.Model(), root, Own(pages, t))
      modifies this, vm
      ensures !ok ==> vm.free == []
      ensures ok ==> Valid() && Stepped(old(vm.mem), old(pages), vm.Model(), pages, t, root)
      ensures ok ==> f in Own(pages, t) && BASE <= f < BASE + NPAGE
      ensures ok ==> forall x: nat :: VaToPa(vm.mem, root, x) == VaToPa(old(vm.mem), root, x)
      ensures ok ==> Vmas(pages, t) == Vmas(old(pages), t)
    {
      ghost var w0, m0 := vm.Model(), pages;
      ok, f := AllocPageForTask(t);
      if !ok { return; }
      hide *;
      PageFor(w0, m0, pages, t, root);
    }

    /** copy_pagetable for one vma, and sys_alloc: a page and its mapping. */
    method NewArea(t: nat, root: nat, a: Area) returns (ok: bool, f: nat)
      requires Valid() && Live(pages, t) && TreeIn(vm.Model(), root, Own(pages, t)) && Fits(a)
      modifies this, vm
      ensures !ok ==> Exhausted(vm.free, pages) || exists g: nat :: BASE <= g < BASE + NPAGE && Refuses(a, g)
      ensures ok ==> Valid() && Stepped(old(vm.mem), old(pages), vm.Model(), pages, t, root)
      ensures ok ==> f in Own(pages, t) && BASE <= f < BASE + NPAGE && !Refuses(a, f)
      ensures ok ==> forall x: nat :: VaToPa(vm.mem, root, x) == Over(a, f, x, VaToPa(old(vm.mem), root, x))
      ensures ok ==> Vmas(pages, t) == Vmas(old(pages), t) + 1
    {
      hide Vmas;
      hide Agree;
      hide TreeIn;
      hide Own;
      hide Within;
      hide Exhausted;
      hide V.Refused;
      hide VaToPa;
      hide SvmmapAt;
      hide Over;
      ghost var w0, m0 := vm.Model(), pages;
      ok, f := NewPage(t, root);
      if !ok {
        NoFree(vm.free, pages);
        return;
      }
      ghost var w1, m1 := vm.Model(), pages;
      ok := TaskVmmap(t, root, a, f * PGSIZE);
      RefusesIs(a, f);
      if !ok { return; }
      hide *;
      SteppedTwice(w0.mem, m0, w1, m1, vm.Model(), pages, t, root);
      AreaPlaced(w0, w1, vm.Model(), root, a, f);
      HasStill(w1.mem, m1, vm.Model(), pages, t, root, f);
    }

    /** The mm_struct and the root table. */
    method NewRootTable(t: nat) returns (ok: bool, root: nat)
      requires Valid() && t < |pages.tasks| && pages.tasks[t].mm.None?
      modifies this, vm
      ensures !ok ==> Exhausted(vm.free, pages)
      ensures ok ==> Valid() && Stepped(old(vm.mem), old(pages), vm.Model(), pages, t, root)
      ensures ok ==> forall x: nat :: VaToPa(vm.mem, root, x) == 0
      ensures ok ==> Vmas(pages, t) == 0
    {
      root := 0;
      ghost var m0 := pages;
      var r := P.Do(pages, P.StartTask(t));
      if r.Panic? {
        StartFails(vm.free, vm.lists, pages, t);
        return false, 0;
      }
      StartKeeps(vm.free, vm.lists, pages, t);
      StartsEmpty(pages, t);
      pages := r.value;
      vm.free := Frames(pages.free);
      ghost var m1, w1 := pages, vm.Model();
      FreeDistinct(vm.free, vm.lists, pages);
      ok, root := AllocPageForTask(t);
      if !ok { return; }
      hide *;
      RootFor(w1, m0, m1, pages, t);
    }

    /** The trapframe and trampoline pages: the second mapping has no owner, and takes no page. */
    method MapTop(t: nat, root: nat, frame: nat, trampoline: nat) returns (ok: bool)
      requires Valid() && Live(pages, t) && TreeIn(vm.Model(), root, Own(pages, t))
      requires BASE <= frame < BASE + NPAGE && trampoline + PGSIZE <= PHY_TOP
      modifies this, vm
      ensures !ok ==> vm.free == [] || trampoline % PGSIZE != 0
      ensures ok ==> Valid() && Stepped(old(vm.mem), old(pages), vm.Model(), pages, t, root) && trampoline % PGSIZE == 0
      ensures ok ==> forall x: nat :: VaToPa(vm.mem, root, x) == TopOver(frame, trampoline, x, VaToPa(old(vm.mem), root, x))
      ensures ok ==> Vmas(pages, t) == Vmas(old(pages), t)
    {
      hide Vmas;
      hide Agree;
      hide TreeIn;
      hide Own;
      hide Within;
      hide Svmmap;
      hide TakeFor;
      hide V.Refused;
      hide V.TakenFrom;
      hide VaToPa;
      hide SvmmapAt;
      hide TopOver;
      TopFits(frame, trampoline);
      ghost var w2, m2 := vm.Model(), pages;
      ok := MapOwn(t, root, Area(TRAPFRAME, PGSIZE, PTE_R), frame * PGSIZE);
      if !ok { return; }
      ghost var w3, m3 := vm.Model(), pages;
      ok := MapPages(root, TRAMPOLINE, trampoline, PGSIZE, PTE_XR, None);
      if !ok { return; }
      TopMapped(w2, m2, w3, m3, vm.Model(), t, root, frame, trampoline);
      NothingHanded(m3, pages);
    }

    /** Kernel stack, trapframe and trampoline. */
    method Tail(t: nat, root: nat, trampoline: nat) returns (ok: bool, frame: nat)
      requires Valid() && Live(pages, t) && TreeIn(vm.Model(), root, Own(pages, t)) && trampoline + PGSIZE <= PHY_TOP
      modifies this, vm
      ensures !ok ==> vm.free == [] || trampoline % PGSIZE != 0
      ensures ok ==> Valid() && Stepped(old(vm.mem), old(pages), vm.Model(), pages, t, root)
      ensures ok ==> frame in Own(pages, t) && trampoline % PGSIZE == 0
      ensures ok ==> forall x: nat :: VaToPa(vm.mem, root, x) == TopOver(frame, trampoline, x, VaToPa(old(vm.mem), root, x))
      ensures ok ==> Vmas(pages, t) == Vmas(old(pages), t)
    {
      hide Vmas;
      hide Agree;
      hide TreeIn;
      hide Own;
      hide Within;
      hide VaToPa;
      hide TopOver;
      frame := 0;
      ghost var w0, m0 := vm.Model(), pages;
      var stack;
      ok, stack := NewPage(t, root);
      if !ok { return; }
      ghost var w1, m1 := vm.Model(), pages;
      ok, frame := NewPage(t, root);
      if !ok { return; }
      ghost var w2, m2 := vm.Model(), pages;
      ok := MapTop(t, root, frame, trampoline);
      if !ok { return; }
      assert forall x: nat :: VaToPa(w2.mem, root, x) == VaToPa(w0.mem, root, x);
      hide *;
      SteppedTwice(w0.mem, m0, w1, m1, w2, m2, t, root);
      SteppedTwice(w0.mem, m0, w2, m2, vm.Model(), pages, t, root);
      HasStill(w2.mem, m2, vm.Model(), pages, t, root, frame);
    }

    /** task_mm_init: mm_struct, root table, the areas (the parent's, or the stack of the first task),
        kernel stack, trapframe and trampoline.  Every page it takes is on the task's list or in a slot,
        the tree is made of the task's own pages, every address leads where LaidOut says, and the trees
        of other tasks are as before.  It stops only when pages or slots run out, or a check refuses. */
    method TaskMmInit(t: nat, areas: seq<Area>, trampoline: nat)
      returns (ok: bool, root: nat, frame: nat, frames: seq<nat>)
      requires Valid() && t < |pages.tasks| && pages.tasks[t].mm.None? && trampoline + PGSIZE <= PHY_TOP
      requires forall i :: 0 <= i < |areas| ==> Fits(areas[i])
      modifies this, vm
      ensures !ok ==> || Exhausted(vm.free, pages) || trampoline % PGSIZE != 0
                      || exists i, f: nat :: 0 <= i < |areas| && BASE <= f < BASE + NPAGE && Refuses(areas[i], f)
      ensures ok ==> Valid() && Stepped(old(vm.mem), old(pages), vm.Model(), pages, t, root)
      ensures ok ==> Undisturbed(old(vm.Model()), old(pages), vm.Model(), pages, t)
      ensures ok ==> frame in Own(pages, t) && |frames| == |areas|
      ensures ok ==> forall i :: 0 <= i < |areas| ==> frames[i] in Own(pages, t) && !Refuses(areas[i], frames[i])
      ensures ok ==> forall x: nat :: VaToPa(vm.mem, root, x) == LaidOut(areas, frames, frame, trampoline, x)
      ensures ok ==> Vmas(pages, t) == |areas|
    {
      hide Vmas;
      hide Agree;
      hide TreeIn;
      hide Own;
      hide Within;
      hide VaToPa;
      hide Exhausted;
      hide TopOver;
      hide Over;
      hide Refuses;
      hide Stepped;
      ghost var w0, m0 := vm.Model(), pages;
      frame, frames := 0, [];
      ok, root := NewRootTable(t);
      if !ok { return; }
      var i := 0;
      SteppedIs(w0.mem, m0, vm.Model(), pages, t, root);
      while i < |areas|
        invariant i == |frames| <= |areas| && Valid() && Live(pages, t)
        invariant Stepped(w0.mem, m0, vm.Model(), pages, t, root) && Vmas(pages, t) == i
        invariant forall k :: 0 <= k < i ==> frames[k] in Own(pages, t) && !Refuses(areas[k], frames[k])
        invariant forall x: nat :: VaToPa(vm.mem, root, x) == Placed(areas[..i], frames, x)
      {
        SteppedIs(w0.mem, m0, vm.Model(), pages, t, root);
        ghost var w1, m1, fs := vm.Model(), pages, frames;
        var f;
        ok, f := NewArea(t, root, areas[i]);
        if !ok { return; }
        frames := frames + [f];
        AreaStep(w0.mem, m0, w1, m1, vm.Model(), pages, t, root, areas, fs, f);
        i := i + 1;
      }
      assert areas[..i] == areas;
      SteppedIs(w0.mem, m0, vm.Model(), pages, t, root);
      ghost var w2, m2 := vm.Model(), pages;
      ok, frame := Tail(t, root, trampoline);
      if !ok {
        NoFree(vm.free, pages);
        return;
      }
      InitDone(w0, m0, w2, m2, vm.Model(), vm.lists, pages, t, root);
    }

    /** clean_mm_source: every page of the task, its tables included, is free again, and the trees of
        other tasks are as before. */
    method Exit(t: nat)
      requires Valid() && Live(pages, t)
      modifies this, vm
      ensures Valid() && Reaches(old(pages), pages) && pages.tasks == old(pages).tasks[t := P.Task(None, [], [])]
      ensures forall f :: f in Own(old(pages), t) ==> f in vm.free
      ensures vm.mem == old(vm.mem) && Undisturbed(old(vm.Model()), old(pages), vm.Model(), pages, t)
    {
      ghost var w0, m0 := vm.Model(), pages;
      ExitAgrees(vm.free, vm.lists, pages, t);
      pages := P.Exit(pages, t).value;
      vm.free := Frames(pages.free);
      vm.lists := vm.lists[t := []];
      hide Agree;
      Undisturbs(w0, m0, vm.Model(), vm.lists, pages, t);
    }
  }

  lemma SteppedIs(mem: Mem, m: P.Mem, w': Phys, m': P.Mem, t: nat, root: nat)
    requires Stepped(mem, m, w', m', t, root)
    ensures Live(m', t) && Grows(m, m', t) && TreeIn(w', root, Own(m', t)) && Within(Own(m', t), mem, w'.mem)
  {
  }

  lemma AreaStep(mem: Mem, m: P.Mem, w1: Phys, m1: P.Mem, w2: Phys, m2: P.Mem, t: nat, root: nat,
                 areas: seq<Area>, frames: seq<nat>, f: nat)
    requires Stepped(mem, m, w1, m1, t, root) && Stepped(w1.mem, m1, w2, m2, t, root) && |frames| < |areas| && f in Own(m2, t)
    requires forall x: nat :: VaToPa(w1.mem, root, x) == Placed(areas[..|frames|], frames, x)
    requires forall x: nat :: VaToPa(w2.mem, root, x) == Over(areas[|frames|], f, x, VaToPa(w1.mem, root, x))
    ensures Stepped(mem, m, w2, m2, t, root) && Live(m2, t)
    ensures forall k :: 0 <= k < |frames| && frames[k] in Own(m1, t) ==> frames[k] in Own(m2, t)
    ensures forall x: nat :: VaToPa(w2.mem, root, x) == Placed(areas[..|frames| + 1], frames + [f], x)
  {
    SteppedIs(mem, m, w1, m1, t, root);
    SteppedIs(w1.mem, m1, w2, m2, t, root);
    hide *;
    SteppedTwice(mem, m, w1, m1, w2, m2, t, root);
    OwnGrows(m1, m2, t);
    forall x: nat ensures VaToPa(w2.mem, root, x) == Placed(areas[..|frames| + 1], frames + [f], x) {
      PlacedStep(areas, frames, f, x);
    }
  }

  lemma PlacedStep(areas: seq<Area>, frames: seq<nat>, f: nat, x: nat)
    requires |frames| < |areas|
    ensures var n := |frames|;
      Placed(areas[..n + 1], frames + [f], x) == Over(areas[n], f, x, Placed(areas[..n], frames, x))
  {
    var n := |frames|;
    assert areas[..n + 1][..n] == areas[..n] && (frames + [f])[..n] == frames;
    hide Over;
  }

  lemma OthersKept(w: Phys, m: P.Mem, w': Phys, lists': map<nat, seq<nat>>, m': P.Mem, t: nat, root: nat)
    requires Stepped(w.mem, m, w', m', t, root) && Agree(w'.free, lists', m')
    ensures Undisturbed(w, m, w', m', t)
  {
    hide Agree;
    hide Own;
    Undisturbs(w, m, w', lists', m', t);
  }

  lemma InitDone(w0: Phys, m0: P.Mem, w2: Phys, m2: P.Mem, w: Phys, lists: map<nat, seq<nat>>, m: P.Mem, t: nat, root: nat)
    requires Stepped(w0.mem, m0, w2, m2, t, root) && Stepped(w2.mem, m2, w, m, t, root) && Agree(w.free, lists, m)
    ensures Stepped(w0.mem, m0, w, m, t, root) && Undisturbed(w0, m0, w, m, t) && Own(m2, t) <= Own(m, t)
  {
    SteppedTwice(w0.mem, m0, w2, m2, w, m, t, root);
    OwnGrows(m2, m, t);
    hide *;
    OthersKept(w0, m0, w, lists, m, t, root);
  }

  lemma TopFits(frame: nat, trampoline: nat)
    requires BASE <= frame < BASE + NPAGE && trampoline + PGSIZE <= PHY_TOP
    ensures Fits(Area(TRAPFRAME, PGSIZE, PTE_R)) && !V.Refused(TRAPFRAME, frame * PGSIZE, PGSIZE)
    ensures V.Refused(TRAMPOLINE, trampoline, PGSIZE) <==> trampoline % PGSIZE != 0
  {
  }

  lemma GrowsSelf(m: P.Mem, t: nat)
    requires Live(m, t)
    ensures Grows(m, m, t)
  {
    ReachesSelf(m);
  }

  /** The two top pages after their mappings. */
  lemma TopMapped(w2: Phys, m2: P.Mem, w3: Phys, m3: P.Mem, w4: Phys, t: nat, root: nat, frame: nat, trampoline: nat)
    requires TreeIn(w2, root, Own(m2, t)) && BASE <= frame < BASE + NPAGE && trampoline + PGSIZE <= PHY_TOP
    requires Svmmap(w2, root, TRAPFRAME, frame * PGSIZE, PGSIZE, PTE_R) == Ok(w3)
    requires forall x: nat :: SvmmapAt(w2, w3, root, TRAPFRAME, frame * PGSIZE, PGSIZE, PTE_R, x)
    requires Stepped(w2.mem, m2, w3, m3, t, root)
    requires Svmmap(w3, root, TRAMPOLINE, trampoline, PGSIZE, PTE_XR) == Ok(w4)
    ensures w4.free == w3.free && Stepped(w2.mem, m2, w4, m3, t, root)
    ensures forall x: nat :: VaToPa(w4.mem, root, x) == TopOver(frame, trampoline, x, VaToPa(w2.mem, root, x))
  {
    TreeInIs(w2, root, Own(m2, t));
    TrampolineTakesNothing(w2, root, frame * PGSIZE, PTE_R, trampoline, PTE_XR);
    TopAddresses();
    GrowsSelf(m3, t);
    NoneTaken(w3.free);
    hide *;
    MappedOwn(w3, m3, w4, m3, t, root, Area(TRAMPOLINE, PGSIZE, PTE_XR), trampoline);
    SteppedTwice(w2.mem, m2, w3, m3, w4, m3, t, root);
    TopPlaced(w2, w3, w4, root, frame, trampoline);
  }

  lemma NoneTaken(free: seq<nat>)
    ensures V.TakenFrom(free, free) && V.Taken(free, free) == []
  {
  }

  lemma TopPlaced(w2: Phys, w3: Phys, w4: Phys, root: nat, frame: nat, trampoline: nat)
    requires BASE <= frame < BASE + NPAGE && trampoline + PGSIZE <= PHY_TOP
    requires forall x: nat :: SvmmapAt(w2, w3, root, TRAPFRAME, frame * PGSIZE, PGSIZE, PTE_R, x)
    requires forall x: nat :: SvmmapAt(w3, w4, root, TRAMPOLINE, trampoline, PGSIZE, PTE_XR, x)
    ensures forall x: nat :: VaToPa(w4.mem, root, x) == TopOver(frame, trampoline, x, VaToPa(w2.mem, root, x))
  {
    TopAddresses();
    hide VaToPa;
    hide Canon;
    hide Bound;
    hide IsLeaf;
    forall x: nat ensures VaToPa(w4.mem, root, x) == TopOver(frame, trampoline, x, VaToPa(w2.mem, root, x)) {
      assert SvmmapAt(w2, w3, root, TRAPFRAME, frame * PGSIZE, PGSIZE, PTE_R, x);
      assert SvmmapAt(w3, w4, root, TRAMPOLINE, trampoline, PGSIZE, PTE_XR, x);
      if TRAPFRAME <= Canon(x) < TRAMPOLINE { NamedExactly(frame * PGSIZE + (Canon(x) - TRAPFRAME)); }
      if TRAMPOLINE <= Canon(x) < VA_TOP { NamedExactly(trampoline + (Canon(x) - TRAMPOLINE)); }
    }
  }

  lemma TopAddresses()
    ensures Bound(TRAPFRAME, PGSIZE) == TRAMPOLINE && Bound(TRAMPOLINE, PGSIZE) == VA_TOP
    ensures IsLeaf(PTE_R) && IsLeaf(PTE_XR) && Fits(Area(TRAMPOLINE, PGSIZE, PTE_XR))
  {
  }

  /** A frame stays the task's. */
  lemma HasStill(mem: Mem, m: P.Mem, w': Phys, m': P.Mem, t: nat, root: nat, f: nat)
    requires Stepped(mem, m, w', m', t, root) && f in Own(m, t)
    ensures f in Own(m', t)
  {
    OwnGrows(m, m', t);
  }

  lemma RefusesIs(a: Area, f: nat)
    ensures Refuses(a, f) <==> V.Refused(a.va, f * PGSIZE, a.size)
  {
  }

  lemma AreaPlaced(w0: Phys, w1: Phys, w2: Phys, root: nat, a: Area, f: nat)
    requires BASE <= f < BASE + NPAGE && forall x: nat :: VaToPa(w1.mem, root, x) == VaToPa(w0.mem, root, x)
    requires forall x: nat :: SvmmapAt(w1, w2, root, a.va, f * PGSIZE, a.size, a.attr, x)
    ensures forall x: nat :: VaToPa(w2.mem, root, x) == Over(a, f, x, VaToPa(w0.mem, root, x))
  {
    hide VaToPa;
    hide Bound;
    hide IsLeaf;
    forall x: nat ensures VaToPa(w2.mem, root, x) == Over(a, f, x, VaToPa(w0.mem, root, x)) {
      assert SvmmapAt(w1, w2, root, a.va, f * PGSIZE, a.size, a.attr, x);
      CanonSmall(x);
      hide Canon;
      if a.va <= Canon(x) { NamedExactly(f * PGSIZE + (Canon(x) - a.va)); }
    }
  }

  lemma CanonSmall(x: nat)
    ensures Canon(x) < 2 * VA_TOP
  {
  }

  lemma StartFails(free: seq<nat>, lists: map<nat, seq<nat>>, m: P.Mem, t: nat)
    requires Agree(free, lists, m) && t < |m.tasks| && m.tasks[t].mm.None? && P.Do(m, P.StartTask(t)).Panic?
    ensures Exhausted(free, m)
  {
    P.AllocObjAdds(m, P.MM, t);
  }

  lemma RootFor(w: Phys, m0: P.Mem, m: P.Mem, m': P.Mem, t: nat)
    requires w.free != [] && Different(w.free) && Grows(m0, m, t) && Grows(m, m', t) && w.free[0] in Own(m', t)
    ensures var w' := Phys(w.mem[w.free[0] := Zeros()], w.free[1..]);
      Stepped(w.mem, m0, w', m', t, w.free[0]) && forall x: nat :: VaToPa(w'.mem, w.free[0], x) == 0
  {
    NewRoot(w.mem, w.free);
    GrowsTwice(m0, m, m', t);
    WithinOne(Own(m', t), w.mem, w.free[0]);
    hide TreeIn;
    hide Own;
    hide Grows;
    hide VaToPa;
    hide Within;
    TreeMore(Phys(w.mem[w.free[0] := Zeros()], w.free[1..]), w.free[0], {w.free[0]}, Own(m', t));
  }

  lemma VmaFails(free: seq<nat>, lists: map<nat, seq<nat>>, m: P.Mem, t: nat)
    requires Agree(free, lists, m) && Live(m, t) && P.Do(m, P.Vma(t)).Panic?
    ensures Exhausted(free, m)
  {
    P.AllocObjAdds(m, P.VMA, t);
  }

  lemma NoFree(free: seq<nat>, m: P.Mem)
    ensures free == [] ==> Exhausted(free, m)
  {
  }

  /** SvmmapAt looks at memory only. */
  lemma SameStart(w0: Phys, w1: Phys, w2: Phys, root: nat, a: Area, pa: nat)
    requires w0.mem == w1.mem && forall x: nat :: SvmmapAt(w1, w2, root, a.va, pa, a.size, a.attr, x)
    ensures forall x: nat :: SvmmapAt(w0, w2, root, a.va, pa, a.size, a.attr, x)
  {
    hide VaToPa;
    forall x: nat ensures SvmmapAt(w0, w2, root, a.va, pa, a.size, a.attr, x) {
      assert SvmmapAt(w1, w2, root, a.va, pa, a.size, a.attr, x);
    }
  }

  lemma WithinOne(own: set<nat>, mem: Mem, f: nat)
    requires f in own
    ensures Within(own, mem, mem[f := Zeros()])
  {
  }

  lemma PageFor(w: Phys, m: P.Mem, m': P.Mem, t: nat, root: nat)
    requires TreeIn(w, root, Own(m, t)) && w.free != [] && Grows(m, m', t) && w.free[0] in Own(m', t)
    ensures var w' := Phys(w.mem[w.free[0] := Zeros()], w.free[1..]);
      Stepped(w.mem, m, w', m', t, root) && forall x: nat :: VaToPa(w'.mem, root, x) == VaToPa(w.mem, root, x)
  {
    PageOut(w, root, Own(m, t));
    OwnGrows(m, m', t);
    WithinOne(Own(m', t), w.mem, w.free[0]);
    hide TreeIn;
    hide Own;
    hide Grows;
    hide VaToPa;
    hide Within;
    TreeMore(Phys(w.mem[w.free[0] := Zeros()], w.free[1..]), root, Own(m, t), Own(m', t));
  }

  lemma AgreeFree(free: seq<nat>, lists: map<nat, seq<nat>>, m: P.Mem)
    requires Agree(free, lists, m)
    ensures free == Frames(m.free)
  {
  }

  lemma MappedOwn(w: Phys, m: P.Mem, w': Phys, m': P.Mem, t: nat, root: nat, a: Area, pa: nat)
    requires TreeIn(w, root, Own(m, t)) && Fits(a) && pa < U64 && Svmmap(w, root, a.va, pa, a.size, a.attr) == Ok(w')
    requires Grows(m, m', t) && V.TakenFrom(w.free, w'.free) && forall f :: f in V.Taken(w.free, w'.free) ==> f in Own(m', t)
    ensures Stepped(w.mem, m, w', m', t, root)
    ensures forall x: nat :: SvmmapAt(w, w', root, a.va, pa, a.size, a.attr, x)
  {
    SvmmapTakes(w, root, Own(m, t), a.va, pa, a.size, a.attr);
    TreeInIs(w, root, Own(m, t));
    hide Svmmap;
    hide TreeIn;
    hide WellFormed;
    hide SvmmapAt;
    forall x: nat ensures SvmmapAt(w, w', root, a.va, pa, a.size, a.attr, x) {
      SvmmapRefines(w, root, a.va, pa, a.size, a.attr, x);
    }
    OwnGrows(m, m', t);
    hide Own;
    hide Grows;
    GoneTaken(w, w');
    TreeMore(w', root, Own(m, t) + Gone(w, w'), Own(m', t));
    WithinMore(Own(m, t) + Gone(w, w'), Own(m', t), w.mem, w'.mem);
  }

  lemma GoneTaken(w: Phys, w': Phys)
    requires V.TakenFrom(w.free, w'.free)
    ensures forall f :: f in Gone(w, w') ==> f in V.Taken(w.free, w'.free)
  {
    var n := |w.free| - |w'.free|;
    assert forall i :: 0 <= i < |w'.free| ==> w'.free[i] == w.free[n + i];
    assert forall i :: n <= i < |w.free| ==> w.free[i] in w'.free by {
      forall i | n <= i < |w.free| ensures w.free[i] in w'.free { assert w'.free[i - n] == w.free[i]; }
    }
  }

  lemma HandOut(m: P.Mem, free: seq<nat>, lists: map<nat, seq<nat>>, ut: Option<nat>, free': seq<nat>, lists': map<nat, seq<nat>>)
    requires Agree(free, lists, m) && (ut.Some? ==> Live(m, ut.value)) && V.TakenFrom(free, free')
    requires lists' == V.Give(lists, ut, V.Taken(free, free'))
    ensures |free| == |m.free| && |free'| <= |free|
    ensures var r := TakeFor(m, ut, |free| - |free'|);
      && r.Ok? && (ut.Some? ==> Reaches(m, r.value)) && r.value.tasks == Grown(m, ut, |free| - |free'|)
      && Agree(free', lists', r.value)
  {
    GiveAgrees(m, lists, ut, free');
    hide TakeFor;
    hide Reaches;
    hide P.Inv;
    hide V.Give;
    hide Listed;
  }

  lemma NothingHanded(m: P.Mem, m': P.Mem)
    requires TakeFor(m, None, 0) == Ok(m')
    ensures m' == m
  {
  }

  lemma VmaKeeps(w: Phys, lists: map<nat, seq<nat>>, m: P.Mem, t: nat, root: nat)
    requires Agree(w.free, lists, m) && Live(m, t) && TreeIn(w, root, Own(m, t)) && P.Do(m, P.Vma(t)).Ok?
    ensures var m' := P.Do(m, P.Vma(t)).value;
      Agree(Frames(m'.free), lists, m') && Stepped(w.mem, m, Phys(w.mem, Frames(m'.free)), m', t, root)
  {
    P.DoKeeps(m, P.Vma(t));
    ReachesStep(m, P.Vma(t));
    SlotTakes(m, P.VMA, t);
    var m' := P.Do(m, P.Vma(t)).value;
    assert Grows(m, m', t) && Agree(Frames(m'.free), lists, m');
    OwnGrows(m, m', t);
    if m.free != [] {
      FramesSplit(m.free, 1);
      PageOut(w, root, Own(m, t));
    }
    assert Phys(w.mem, w.free) == w;
    hide TreeIn;
    hide Grows;
    hide Own;
    hide P.Inv;
    hide P.Do;
    TreeMore(Phys(w.mem, Frames(m'.free)), root, Own(m, t), Own(m', t));
  }

  lemma StartKeeps(free: seq<nat>, lists: map<nat, seq<nat>>, m: P.Mem, t: nat)
    requires Agree(free, lists, m) && t < |m.tasks| && m.tasks[t].mm.None? && P.Do(m, P.StartTask(t)).Ok?
    ensures var m' := P.Do(m, P.StartTask(t)).value; Agree(Frames(m'.free), lists, m') && Grows(m, m', t)
  {
    P.DoKeeps(m, P.StartTask(t));
    ReachesStep(m, P.StartTask(t));
    SlotTakes(m, P.MM, t);
    assert P.TaskPagesOk(m, t);
  }

  lemma FreedFrame(m: P.Mem, m': P.Mem, t: nat, f: nat)
    requires P.Inv(m) && P.Inv(m') && |m'.where| == |m.where| && t < |m.tasks| && f in Own(m, t)
    requires forall p :: 0 <= p < |m.where| && m.where[p] == P.OfTask(t) ==> m'.where[p] == P.Free
    ensures f in Frames(m'.free)
  {
    OwnIs(m, t, f);
    var p: nat := f - BASE;
    assert P.TaskPagesOk(m, t);
    assert P.IsAt(m, p, P.OfTask(t));
    assert P.IsAt(m', p, P.Free);
    var i :| 0 <= i < |m'.free| && m'.free[i] == p;
    assert Frames(m'.free)[i] == f;
  }

  lemma ExitAgrees(free: seq<nat>, lists: map<nat, seq<nat>>, m: P.Mem, t: nat)
    requires Agree(free, lists, m) && Live(m, t)
    ensures P.IsTask(m, t) && P.Exit(m, t).Ok?
    ensures var m' := P.Exit(m, t).value;
      && Agree(Frames(m'.free), lists[t := []], m') && Reaches(m, m') && m'.tasks == m.tasks[t := P.Task(None, [], [])]
      && forall f :: f in Own(m, t) ==> f in Frames(m'.free)
  {
    P.ExitKeeps(m, t);
    ReachesStep(m, P.ExitTask(t));
    var m' := P.Exit(m, t).value;
    assert m'.tasks == m.tasks[t := P.Task(None, [], [])];
    assert P.TaskPagesOk(m, t);
    forall f | f in Own(m, t) ensures f in Frames(m'.free) { FreedFrame(m, m', t, f); }
    assert P.Inv(m') && |m'.where| <= NPAGE;
    hide P.Exit;
    hide P.Inv;
    hide Own;
    ExitLists(lists, m, m', t);
    hide Listed;
  }

  lemma ExitLists(lists: map<nat, seq<nat>>, m: P.Mem, m': P.Mem, t: nat)
    requires Listed(lists, m) && t < |m.tasks| && m'.tasks == m.tasks[t := P.Task(None, [], [])]
    ensures Listed(lists[t := []], m')
  {
    assert Frames(m'.tasks[t].pages) == [];
    forall u: nat ensures V.PagesOf(lists[t := []], u) == if u < |m'.tasks| then Frames(m'.tasks[u].pages) else [] {
      assert V.PagesOf(lists, u) == if u < |m.tasks| then Frames(m.tasks[u].pages) else [];
    }
  }
}
