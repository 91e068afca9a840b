/** Physical pages (kernel/mem/alloc.c), the slot allocators that carve pages into objects
    (kernel/mem/slot.c), and the memory a task owns from fork to exit (kernel/task/task.c).

    `where` and `user` are history: they record where each page and chunk went, and no value the code
    computes depends on them. */
module Pages {
  import opened Base

  datatype Place = Free | Boot | OfTask(t: nat) | OfSlot(k: nat, i: nat)

  datatype Chunk = Chunk(inuse: bool, user: nat)
  datatype Slot = Slot(refc: nat, chunks: seq<Chunk>, page: Option<nat>)
  datatype Obj = Obj(k: nat, i: nat, j: nat)  // chunk j of slot i of allocator k
  datatype Task = Task(mm: Option<Obj>, pages: seq<nat>, vmas: seq<Obj>)

  /** caps: chunks per page, one entry per slot allocator. */
  datatype Mem = Mem(inuse: seq<bool>, free: seq<nat>, caps: seq<nat>, arenas: seq<seq<Slot>>,
                     tasks: seq<Task>, where: seq<Place>)

  const VMA := 0
  const MM := 1

  // ---------------------------------------------------------------- pages

  /** alloc_page: the head of the free list; pl is where the caller puts it. */
  function AllocPage(m: Mem, pl: Place): Outcome<(nat, Mem)> {
    if m.free == [] then Panic
    else
      var p := m.free[0];
      if p >= |m.inuse| || p >= |m.where| then Panic
      else Ok((p, m.(free := m.free[1..], inuse := m.inuse[p := true], where := m.where[p := pl])))
  }

  /** free_page: panics on a page that is already free. */
  function FreePage(m: Mem, p: nat): Outcome<Mem> {
    if p >= |m.inuse| || p >= |m.where| || !m.inuse[p] then Panic
    else Ok(m.(free := m.free + [p], inuse := m.inuse[p := false], where := m.where[p := Free]))
  }

  // ---------------------------------------------------------------- slots

  function CountInuse(cs: seq<Chunk>): nat {
    if cs == [] then 0 else CountInuse(cs[..|cs| - 1]) + if cs[|cs| - 1].inuse then 1 else 0
  }

  /** The chunk scan: the first chunk not in use. */
  function FirstFree(cs: seq<Chunk>): nat {
    if cs == [] then 0 else if !cs[0].inuse then 0 else 1 + FirstFree(cs[1..])
  }

  function SetSlot(m: Mem, k: nat, i: nat, s: Slot): Mem
    requires k < |m.arenas| && i < |m.arenas[k]|
  {
    m.(arenas := m.arenas[k := m.arenas[k][i := s]])
  }

  /** The part of the slot scan that leaves slot i with a page. */
  function Backed(m: Mem, k: nat, i: nat): Outcome<Mem>
    requires k < |m.arenas| && i < |m.arenas[k]| && k < |m.caps|
  {
    if m.arenas[k][i].refc > 0 then Ok(m)
    else
      var r := AllocPage(m, OfSlot(k, i));
      if r.Panic? then Panic
      else Ok(SetSlot(r.value.1, k, i, Slot(0, seq(m.caps[k], _ => Chunk(false, 0)), Some(r.value.0))))
  }

  /** alloc_*_slot from slot i on, for task t: the first slot that is not full, its first free chunk.
      A slot whose count says there is room but whose chunks are all in use would be scanned for ever;
      that outcome is shown as Panic. */
  function AllocObj(m: Mem, k: nat, i: nat, t: nat): Outcome<(Obj, Mem)>
    requires k < |m.arenas| && k < |m.caps|
    decreases |m.arenas[k]| - i
  {
    if i >= |m.arenas[k]| then Panic
    else
      var b := Backed(m, k, i);
      if b.Panic? then Panic
      else
        var s := b.value.arenas[k][i];
        if s.refc == m.caps[k] then AllocObj(b.value, k, i + 1, t)
        else
          var j := FirstFree(s.chunks);
          if j >= |s.chunks| then Panic
          else Ok((Obj(k, i, j), SetSlot(b.value, k, i, s.(refc := s.refc + 1, chunks := s.chunks[j := Chunk(true, t)]))))
  }

  predicate IsObj(m: Mem, o: Obj) {
    o.k < |m.arenas| && o.i < |m.arenas[o.k]| && o.j < |m.arenas[o.k][o.i].chunks|
  }

  /** free_*_slot: gives the page back with the last chunk. */
  function FreeObj(m: Mem, o: Obj): Outcome<Mem>
    requires IsObj(m, o)
  {
    var s := m.arenas[o.k][o.i];
    if s.refc == 0 then Panic
    else if s.refc > 1 then
      Ok(SetSlot(m, o.k, o.i, s.(refc := s.refc - 1, chunks := s.chunks[o.j := Chunk(false, s.chunks[o.j].user)])))
    else if s.page.None? then Panic
    else FreePage(SetSlot(m, o.k, o.i, Slot(0, [], None)), s.page.value)
  }

  // ---------------------------------------------------------------- a task's memory

  predicate IsTask(m: Mem, t: nat) {
    t < |m.tasks| && VMA < |m.arenas| == |m.caps| && MM < |m.arenas|
  }

  /** task_mm_init: a task begins with its mm_struct and empty lists. */
  function Start(m: Mem, t: nat): Outcome<Mem>
    requires IsTask(m, t)
  {
    if m.tasks[t].mm.Some? then Ok(m)
    else
      var r := AllocObj(m, MM, 0, t);
      if r.Panic? || t >= |r.value.1.tasks| then Panic
      else Ok(r.value.1.(tasks := r.value.1.tasks[t := Task(Some(r.value.0), [], [])]))
  }

  /** alloc_page_for_task, and the tables do_vmmap adds for a task. */
  function NewPage(m: Mem, t: nat): Outcome<Mem>
    requires IsTask(m, t)
  {
    if m.tasks[t].mm.None? then Ok(m)
    else
      var r := AllocPage(m, OfTask(t));
      if r.Panic? then Panic
      else Ok(r.value.1.(tasks := m.tasks[t := m.tasks[t].(pages := m.tasks[t].pages + [r.value.0])]))
  }

  /** task_vmmap's vma. */
  function NewVma(m: Mem, t: nat): Outcome<Mem>
    requires IsTask(m, t)
  {
    if m.tasks[t].mm.None? then Ok(m)
    else
      var r := AllocObj(m, VMA, 0, t);
      if r.Panic? || t >= |r.value.1.tasks| then Panic
      else
        var n := r.value.1;
        Ok(n.(tasks := n.tasks[t := n.tasks[t].(vmas := n.tasks[t].vmas + [r.value.0])]))
  }

  /** sys_free, reset_vma and exit unlink a vma and free it. */
  function DropVma(m: Mem, t: nat, i: nat): Outcome<Mem>
    requires IsTask(m, t)
  {
    var k := m.tasks[t];
    if i >= |k.vmas| then Ok(m)
    else
      var n := m.(tasks := m.tasks[t := k.(vmas := k.vmas[..i] + k.vmas[i + 1..])]);
      if IsObj(n, k.vmas[i]) then FreeObj(n, k.vmas[i]) else Panic
  }

  /** free_page_for_task of the head of the page list. */
  function DropPage(m: Mem, t: nat): Outcome<Mem>
    requires IsTask(m, t) && m.tasks[t].pages != []
  {
    var k := m.tasks[t];
    FreePage(m.(tasks := m.tasks[t := k.(pages := k.pages[1..])]), k.pages[0])
  }

  function DropMm(m: Mem, t: nat): Outcome<Mem>
    requires IsTask(m, t) && m.tasks[t].mm.Some?
  {
    var k := m.tasks[t];
    var n := m.(tasks := m.tasks[t := Task(None, [], [])]);
    if IsObj(n, k.mm.value) then FreeObj(n, k.mm.value) else Panic
  }

  /** clean_mm_source: every page, every vma, then the mm_struct. */
  function Exit(m: Mem, t: nat): Outcome<Mem>
    requires IsTask(m, t)
    decreases if IsTask(m, t) then |m.tasks[t].pages| + |m.tasks[t].vmas| else 0
  {
    if m.tasks[t].mm.None? then Ok(m)
    else if m.tasks[t].pages != [] then
      var r := DropPage(m, t);
      if r.Panic? then Panic else Exit(r.value, t)
    else if m.tasks[t].vmas != [] then
      var r := DropVma(m, t, 0);
      if r.Panic? then Panic else Exit(r.value, t)
    else DropMm(m, t)
  }

  // ---------------------------------------------------------------- invariant

  ghost predicate Distinct<A>(s: seq<A>) {
    forall i, j :: 0 <= i < j < |s| ==> s[i] != s[j]
  }

  predicate IsAt(m: Mem, p: nat, pl: Place) {
    p < |m.where| && m.where[p] == pl
  }

  predicate Shape(m: Mem) {
    && |m.inuse| == |m.where| && |m.caps| == |m.arenas| == 2
    && forall k :: 0 <= k < |m.caps| ==> m.caps[k] >= 1
  }

  /** A page is on the free list exactly when it is not in use. */
  ghost predicate FreeOk(m: Mem)
    requires Shape(m)
  {
    && Distinct(m.free)
    && (forall p: nat :: p in m.free <==> IsAt(m, p, Free))
    && (forall p :: 0 <= p < |m.where| ==> (m.inuse[p] <==> m.where[p] != Free))
  }

  ghost predicate PlacesOk(m: Mem) {
    && (forall p :: 0 <= p < |m.where| && m.where[p].OfTask? ==> m.where[p].t < |m.tasks|)
    && (forall p :: 0 <= p < |m.where| && m.where[p].OfSlot? ==>
          m.where[p].k < |m.arenas| && m.where[p].i < |m.arenas[m.where[p].k]|)
  }

  ghost predicate TaskPagesOk(m: Mem, t: nat)
    requires t < |m.tasks|
  {
    && Distinct(m.tasks[t].pages)
    && (forall p: nat :: p in m.tasks[t].pages <==> IsAt(m, p, OfTask(t)))
    && (m.tasks[t].mm.None? ==> m.tasks[t].pages == [] && m.tasks[t].vmas == [])
  }

  /** refc counts the chunks in use, and the slot has a page exactly while there is one. */
  ghost predicate SlotOk(m: Mem, k: nat, i: nat)
    requires Shape(m) && k < |m.arenas| && i < |m.arenas[k]|
  {
    var s := m.arenas[k][i];
    && s.refc == CountInuse(s.chunks) && (s.page.Some? <==> s.refc > 0)
    && |s.chunks| == (if s.page.Some? then m.caps[k] else 0)
    && (forall p: nat :: IsAt(m, p, OfSlot(k, i)) <==> s.page == Some(p))
  }

  /** The task an object belongs to, if the chunk is in use. */
  function UserOf(m: Mem, o: Obj): Option<nat> {
    if IsObj(m, o) && m.arenas[o.k][o.i].chunks[o.j].inuse then Some(m.arenas[o.k][o.i].chunks[o.j].user) else None
  }

  /** A task's objects are chunks in use that are its own. */
  ghost predicate TaskObjsOk(m: Mem, t: nat)
    requires t < |m.tasks|
  {
    && Distinct(m.tasks[t].vmas)
    && (forall o :: o in m.tasks[t].vmas ==> o.k == VMA && UserOf(m, o) == Some(t))
    && (m.tasks[t].mm.Some? ==> m.tasks[t].mm.value.k == MM && UserOf(m, m.tasks[t].mm.value) == Some(t))
  }

  /** And every vma or mm_struct chunk in use is on the list, or is the mm_struct, of its task. */
  ghost predicate ChunkOk(m: Mem, o: Obj) {
    UserOf(m, o).Some? && (o.k == VMA || o.k == MM) ==>
      var t := UserOf(m, o).value;
      t < |m.tasks| && (o.k == VMA ==> o in m.tasks[t].vmas) && (o.k == MM ==> m.tasks[t].mm == Some(o))
  }

  ghost predicate PagesInv(m: Mem) {
    && Shape(m) && FreeOk(m) && PlacesOk(m)
    && (forall t :: 0 <= t < |m.tasks| ==> TaskPagesOk(m, t))
  }

  ghost predicate SlotsInv(m: Mem)
    requires Shape(m)
  {
    forall k, i :: 0 <= k < |m.arenas| && 0 <= i < |m.arenas[k]| ==> SlotOk(m, k, i)
  }

  ghost predicate ObjsInv(m: Mem) {
    && (forall t :: 0 <= t < |m.tasks| ==> TaskObjsOk(m, t))
    && (forall o :: ChunkOk(m, o))
  }

  ghost predicate Inv(m: Mem) {
    PagesInv(m) && SlotsInv(m) && ObjsInv(m)
  }

  // ---------------------------------------------------------------- pages move

  /** alloc_page moves one page from the free list to the place the caller has for it. */
  lemma AllocPageMoves(m: Mem, pl: Place)
    requires PagesInv(m) && SlotsInv(m) && pl != Free
    ensures AllocPage(m, pl).Panic? <==> m.free == []
    ensures m.free != [] ==>
      var p, n := AllocPage(m, pl).value.0, AllocPage(m, pl).value.1;
      && m.free[0] == p && Shape(n) && FreeOk(n) && p < |m.where| && m.where[p] == Free && n.where == m.where[p := pl]
  {
    if m.free != [] {
      assert m.free[0] in m.free;
      assert IsAt(m, m.free[0], Free);
      var n := AllocPage(m, pl).value.1;
      forall q: nat ensures q in n.free <==> IsAt(n, q, Free) {
        if q in n.free { var i :| 0 <= i < |n.free| && n.free[i] == q; assert m.free[i + 1] == q; }
        if q in m.free && q != m.free[0] { var i :| 0 <= i < |m.free| && m.free[i] == q; assert n.free[i - 1] == q; }
      }
    }
  }

  lemma FreePageMoves(m: Mem, p: nat)
    requires Shape(m) && FreeOk(m) && p < |m.where| && m.where[p] != Free
    ensures FreePage(m, p).Ok?
    ensures var n := FreePage(m, p).value; Shape(n) && FreeOk(n) && n.where == m.where[p := Free] && n.free == m.free + [p]
  {
    var n := FreePage(m, p).value;
    assert !IsAt(m, p, Free);
    forall q: nat ensures q in n.free <==> IsAt(n, q, Free) {
      assert q in n.free <==> q in m.free || q == p;
    }
  }

  lemma NewPageKeeps(m: Mem, t: nat)
    requires Inv(m) && t < |m.tasks| && NewPage(m, t).Ok?
    ensures Inv(NewPage(m, t).value)
  {
    if m.tasks[t].mm.Some? {
      AllocPageMoves(m, OfTask(t));
      var n, p := NewPage(m, t).value, m.free[0];
      forall u | 0 <= u < |m.tasks| ensures TaskPagesOk(n, u) {
        assert TaskPagesOk(m, u);
        assert !IsAt(m, p, OfTask(u));
        forall q: nat ensures q in n.tasks[u].pages <==> IsAt(n, q, OfTask(u)) {
          assert q in m.tasks[u].pages <==> IsAt(m, q, OfTask(u));
        }
      }
      SameSlots(m, n, p);
      SameObjs(m, n);
    }
  }

  /** A page that moves between places that are not slots leaves the slots alone. */
  lemma SameSlots(m: Mem, n: Mem, p: nat)
    requires Shape(m) && Shape(n) && SlotsInv(m) && n.arenas == m.arenas && n.caps == m.caps
    requires p < |m.where| == |n.where| && n.where == m.where[p := n.where[p]] && !m.where[p].OfSlot? && !n.where[p].OfSlot?
    ensures SlotsInv(n)
  {
    forall k, i | 0 <= k < |n.arenas| && 0 <= i < |n.arenas[k]| ensures SlotOk(n, k, i) {
      assert SlotOk(m, k, i);
      forall q: nat ensures IsAt(n, q, OfSlot(k, i)) <==> IsAt(m, q, OfSlot(k, i)) { }
    }
  }

  lemma SameObjs(m: Mem, n: Mem)
    requires ObjsInv(m) && n.arenas == m.arenas && |n.tasks| == |m.tasks|
    requires forall t :: 0 <= t < |m.tasks| ==> n.tasks[t].vmas == m.tasks[t].vmas && n.tasks[t].mm == m.tasks[t].mm
    ensures ObjsInv(n)
  {
    forall t | 0 <= t < |n.tasks| ensures TaskObjsOk(n, t) {
      assert TaskObjsOk(m, t);
      forall o | o in n.tasks[t].vmas ensures UserOf(n, o) == Some(t) { assert UserOf(m, o) == UserOf(n, o); }
    }
    forall o ensures ChunkOk(n, o) { assert ChunkOk(m, o); assert UserOf(m, o) == UserOf(n, o); }
  }

  lemma DropPageKeeps(m: Mem, t: nat)
    requires Inv(m) && t < |m.tasks| && m.tasks[t].pages != []
    ensures DropPage(m, t).Ok? && Inv(DropPage(m, t).value)
  {
    assert TaskPagesOk(m, t);
    var k, p := m.tasks[t], m.tasks[t].pages[0];
    assert p in k.pages && IsAt(m, p, OfTask(t));
    var m1 := m.(tasks := m.tasks[t := k.(pages := k.pages[1..])]);
    assert FreeOk(m1) by {
      forall q: nat ensures q in m1.free <==> IsAt(m1, q, Free) { assert q in m.free <==> IsAt(m, q, Free); }
    }
    FreePageMoves(m1, p);
    var n := DropPage(m, t).value;
    forall u | 0 <= u < |m.tasks| ensures TaskPagesOk(n, u) {
      assert TaskPagesOk(m, u);
      forall q: nat ensures q in n.tasks[u].pages <==> IsAt(n, q, OfTask(u)) {
        assert q in m.tasks[u].pages <==> IsAt(m, q, OfTask(u));
        if u == t { HeadGone(k.pages, q); }
      }
    }
    SameSlots(m, n, p);
    SameObjs(m, n);
  }

  lemma HeadGone(s: seq<nat>, q: nat)
    requires s != [] && Distinct(s)
    ensures q in s[1..] <==> q in s && q != s[0]
  {
    if q in s[1..] { var i :| 0 <= i < |s[1..]| && s[1..][i] == q; assert s[i + 1] == q; }
    if q in s && q != s[0] { var i :| 0 <= i < |s| && s[i] == q; assert s[1..][i - 1] == q; }
  }

  // ---------------------------------------------------------------- chunks

  lemma {:induction false} CountSet(cs: seq<Chunk>, j: nat, c: Chunk)
    requires j < |cs|
    ensures CountInuse(cs[j := c]) == CountInuse(cs) - (if cs[j].inuse then 1 else 0) + (if c.inuse then 1 else 0)
  {
    var n := |cs| - 1;
    if j == n {
      assert cs[j := c][..n] == cs[..n];
    } else {
      CountSet(cs[..n], j, c);
      assert cs[j := c][..n] == cs[..n][j := c];
    }
  }

  lemma {:induction false} CountBounds(cs: seq<Chunk>)
    ensures CountInuse(cs) <= |cs|
    ensures CountInuse(cs) == 0 <==> forall j :: 0 <= j < |cs| ==> !cs[j].inuse
  {
    if cs != [] {
      var n := |cs| - 1;
      CountBounds(cs[..n]);
      assert forall j :: 0 <= j < n ==> cs[..n][j] == cs[j];
      if CountInuse(cs) == 0 {
        forall j | 0 <= j < |cs| ensures !cs[j].inuse { if j < n { assert !cs[..n][j].inuse; } }
      }
    }
  }

  /** With fewer chunks in use than there are, the scan finds one: it cannot run for ever. */
  lemma {:induction false} ScanEnds(cs: seq<Chunk>)
    ensures FirstFree(cs) <= |cs|
    ensures CountInuse(cs) < |cs| ==> FirstFree(cs) < |cs|
    ensures FirstFree(cs) < |cs| ==> !cs[FirstFree(cs)].inuse
    ensures forall j :: 0 <= j < FirstFree(cs) ==> cs[j].inuse
  {
    if cs != [] && cs[0].inuse {
      ScanEnds(cs[1..]);
      CountTail(cs);
      forall j | 0 <= j < FirstFree(cs) ensures cs[j].inuse { if j > 0 { assert cs[j] == cs[1..][j - 1]; } }
    }
  }

  lemma {:induction false} CountTail(cs: seq<Chunk>)
    requires cs != []
    ensures CountInuse(cs) == CountInuse(cs[1..]) + if cs[0].inuse then 1 else 0
  {
    if |cs| == 1 {
      assert cs[1..] == [] && cs[..0] == [];
    } else {
      var n := |cs| - 1;
      CountTail(cs[..n]);
      assert cs[..n][1..] == cs[1..][..n - 1];
    }
  }

  // ---------------------------------------------------------------- objects

  /** The first slot from i on that is not full. */
  function FirstRoom(a: seq<Slot>, cap: nat, i: nat): nat
    decreases |a| - i
  {
    if i >= |a| then |a| else if a[i].refc != cap then i else FirstRoom(a, cap, i + 1)
  }

  /** A chunk of slot i, given a page first if it has none. */
  function AllocAt(m: Mem, k: nat, i: nat, t: nat): Outcome<(Obj, Mem)>
    requires k < |m.arenas| && i < |m.arenas[k]| && k < |m.caps|
  {
    var b := Backed(m, k, i);
    if b.Panic? then Panic
    else
      var s := b.value.arenas[k][i];
      var j := FirstFree(s.chunks);
      if j >= |s.chunks| then Panic
      else Ok((Obj(k, i, j), SetSlot(b.value, k, i, s.(refc := s.refc + 1, chunks := s.chunks[j := Chunk(true, t)]))))
  }

  /** The scan allocates in the first slot with room. */
  lemma {:induction false} AllocObjFirst(m: Mem, k: nat, i: nat, t: nat)
    requires Shape(m) && k < |m.arenas|
    ensures var f := FirstRoom(m.arenas[k], m.caps[k], i);
      f <= |m.arenas[k]| && AllocObj(m, k, i, t) == if f == |m.arenas[k]| then Panic else AllocAt(m, k, f, t)
    ensures var f := FirstRoom(m.arenas[k], m.caps[k], i); f < |m.arenas[k]| ==> m.arenas[k][f].refc != m.caps[k]
    decreases |m.arenas[k]| - i
  {
    if i < |m.arenas[k]| && m.arenas[k][i].refc == m.caps[k] { AllocObjFirst(m, k, i + 1, t); }
  }

  /** n has one more chunk in use, o, for task t. */
  ghost predicate ObjAdded(m: Mem, n: Mem, o: Obj, t: nat) {
    UserOf(m, o) == None && UserOf(n, o) == Some(t) && forall q :: q != o ==> UserOf(n, q) == UserOf(m, q)
  }

  ghost predicate ObjRemoved(m: Mem, n: Mem, o: Obj) {
    UserOf(n, o) == None && forall q :: q != o ==> UserOf(n, q) == UserOf(m, q)
  }

  lemma AllocInPage(m: Mem, k: nat, i: nat, t: nat)
    requires PagesInv(m) && SlotsInv(m) && k < |m.arenas| && i < |m.arenas[k]| && 0 < m.arenas[k][i].refc != m.caps[k]
    ensures AllocAt(m, k, i, t).Ok?
    ensures var o, n := AllocAt(m, k, i, t).value.0, AllocAt(m, k, i, t).value.1;
      PagesInv(n) && SlotsInv(n) && n.tasks == m.tasks && o.k == k && ObjAdded(m, n, o, t)
  {
    assert SlotOk(m, k, i);
    var s := m.arenas[k][i];
    CountBounds(s.chunks);
    ScanEnds(s.chunks);
    var j := FirstFree(s.chunks);
    CountSet(s.chunks, j, Chunk(true, t));
    var n := AllocAt(m, k, i, t).value.1;
    SamePages(m, n);
    forall k', i' | 0 <= k' < |n.arenas| && 0 <= i' < |n.arenas[k']| ensures SlotOk(n, k', i') {
      assert SlotOk(m, k', i');
      forall q: nat ensures IsAt(n, q, OfSlot(k', i')) <==> IsAt(m, q, OfSlot(k', i')) { }
    }
  }

  lemma SamePages(m: Mem, n: Mem)
    requires PagesInv(m) && Shape(n) && n.where == m.where && n.free == m.free && n.inuse == m.inuse && n.tasks == m.tasks
    requires |n.arenas| == |m.arenas| && forall k :: 0 <= k < |m.arenas| ==> |n.arenas[k]| == |m.arenas[k]|
    ensures PagesInv(n)
  {
    assert forall p: nat, pl :: IsAt(n, p, pl) <==> IsAt(m, p, pl);
    forall t | 0 <= t < |n.tasks| ensures TaskPagesOk(n, t) { assert TaskPagesOk(m, t); }
  }

  /** A slot without a page takes one from the free list, and its first chunk. */
  lemma AllocNewPage(m: Mem, k: nat, i: nat, t: nat)
    requires PagesInv(m) && SlotsInv(m) && k < |m.arenas| && i < |m.arenas[k]| && m.arenas[k][i].refc == 0
    ensures AllocAt(m, k, i, t).Panic? <==> m.free == []
    ensures m.free != [] ==>
      var o, n := AllocAt(m, k, i, t).value.0, AllocAt(m, k, i, t).value.1;
      PagesInv(n) && SlotsInv(n) && n.tasks == m.tasks && o == Obj(k, i, 0) && ObjAdded(m, n, o, t)
  {
    AllocPageMoves(m, OfSlot(k, i));
    assert SlotOk(m, k, i);
    if m.free != [] {
      var p := m.free[0];
      var blank := seq(m.caps[k], _ => Chunk(false, 0));
      CountBounds(blank);
      CountSet(blank, 0, Chunk(true, t));
      var n := AllocAt(m, k, i, t).value.1;
      assert n.arenas[k][i] == Slot(1, blank[0 := Chunk(true, t)], Some(p));
      forall u | 0 <= u < |n.tasks| ensures TaskPagesOk(n, u) {
        assert TaskPagesOk(m, u);
        forall q: nat ensures q in n.tasks[u].pages <==> IsAt(n, q, OfTask(u)) {
          assert q in m.tasks[u].pages <==> IsAt(m, q, OfTask(u));
        }
      }
      forall q: nat ensures q in n.free <==> IsAt(n, q, Free) {
        var r := AllocPage(m, OfSlot(k, i)).value.1;
        assert q in r.free <==> IsAt(r, q, Free);
      }
      NewPageSlots(m, n, k, i, p);
    }
  }

  lemma NewPageSlots(m: Mem, n: Mem, k: nat, i: nat, p: nat)
    requires Shape(m) && Shape(n) && SlotsInv(m) && k < |m.arenas| && i < |m.arenas[k]| && n.caps == m.caps
    requires |n.arenas| == |m.arenas| && forall k' :: 0 <= k' < |m.arenas| ==> |n.arenas[k']| == |m.arenas[k']|
    requires forall k', i' :: 0 <= k' < |m.arenas| && 0 <= i' < |m.arenas[k']| && (k', i') != (k, i) ==>
               n.arenas[k'][i'] == m.arenas[k'][i']
    requires n.arenas[k][i].page == Some(p) && m.arenas[k][i].page == None
    requires n.arenas[k][i].refc == CountInuse(n.arenas[k][i].chunks) == 1 && |n.arenas[k][i].chunks| == n.caps[k]
    requires p < |m.where| == |n.where| && n.where == m.where[p := OfSlot(k, i)] && !m.where[p].OfSlot?
    ensures SlotsInv(n)
  {
    forall k', i' | 0 <= k' < |n.arenas| && 0 <= i' < |n.arenas[k']| ensures SlotOk(n, k', i') {
      assert SlotOk(m, k', i');
      forall q: nat ensures IsAt(n, q, OfSlot(k', i')) <==> n.arenas[k'][i'].page == Some(q) {
        assert IsAt(m, q, OfSlot(k', i')) <==> m.arenas[k'][i'].page == Some(q);
      }
    }
  }

  /** Allocation fails only when every slot is full, or when the first slot with room needs a page
      and none is left; otherwise it adds exactly one object. */
  lemma AllocObjAdds(m: Mem, k: nat, t: nat)
    requires PagesInv(m) && SlotsInv(m) && k < |m.arenas|
    ensures var f := FirstRoom(m.arenas[k], m.caps[k], 0);
      f <= |m.arenas[k]| &&
      (AllocObj(m, k, 0, t).Panic? <==> f == |m.arenas[k]| || (m.arenas[k][f].refc == 0 && m.free == []))
    ensures AllocObj(m, k, 0, t).Ok? ==>
      var o, n := AllocObj(m, k, 0, t).value.0, AllocObj(m, k, 0, t).value.1;
      PagesInv(n) && SlotsInv(n) && n.tasks == m.tasks && o.k == k && ObjAdded(m, n, o, t)
  {
    AllocObjFirst(m, k, 0, t);
    var f := FirstRoom(m.arenas[k], m.caps[k], 0);
    if f < |m.arenas[k]| {
      if m.arenas[k][f].refc == 0 { AllocNewPage(m, k, f, t); } else { AllocInPage(m, k, f, t); }
    }
  }

  lemma FreeInPage(m: Mem, o: Obj)
    requires PagesInv(m) && SlotsInv(m) && UserOf(m, o).Some? && m.arenas[o.k][o.i].refc > 1
    ensures FreeObj(m, o).Ok?
    ensures var n := FreeObj(m, o).value; PagesInv(n) && SlotsInv(n) && n.tasks == m.tasks && ObjRemoved(m, n, o)
  {
    var k, i, s := o.k, o.i, m.arenas[o.k][o.i];
    assert SlotOk(m, k, i);
    CountSet(s.chunks, o.j, Chunk(false, s.chunks[o.j].user));
    var n := FreeObj(m, o).value;
    SamePages(m, n);
    forall k', i' | 0 <= k' < |n.arenas| && 0 <= i' < |n.arenas[k']| ensures SlotOk(n, k', i') {
      assert SlotOk(m, k', i');
      forall q: nat ensures IsAt(n, q, OfSlot(k', i')) <==> IsAt(m, q, OfSlot(k', i')) { }
    }
  }

  lemma LastUser(m: Mem, o: Obj)
    requires Shape(m) && SlotsInv(m) && UserOf(m, o).Some? && m.arenas[o.k][o.i].refc <= 1
    ensures m.arenas[o.k][o.i].refc == 1 && m.arenas[o.k][o.i].page.Some?
    ensures forall j :: 0 <= j < |m.arenas[o.k][o.i].chunks| && j != o.j ==> !m.arenas[o.k][o.i].chunks[j].inuse
  {
    var s := m.arenas[o.k][o.i];
    assert SlotOk(m, o.k, o.i);
    CountBounds(s.chunks);
    var cs := s.chunks[o.j := Chunk(false, 0)];
    CountSet(s.chunks, o.j, Chunk(false, 0));
    CountBounds(cs);
    forall j | 0 <= j < |s.chunks| && j != o.j ensures !s.chunks[j].inuse { assert cs[j] == s.chunks[j]; }
  }

  /** The last object of a slot takes the page with it, and no other object was there. */
  lemma FreeLast(m: Mem, o: Obj)
    requires PagesInv(m) && SlotsInv(m) && UserOf(m, o).Some? && m.arenas[o.k][o.i].refc <= 1
    ensures FreeObj(m, o).Ok?
    ensures var n := FreeObj(m, o).value; PagesInv(n) && SlotsInv(n) && n.tasks == m.tasks && ObjRemoved(m, n, o)
  {
    var k, i, s := o.k, o.i, m.arenas[o.k][o.i];
    LastUser(m, o);
    assert SlotOk(m, k, i);
    var p := s.page.value;
    assert IsAt(m, p, OfSlot(k, i));
    var m1 := SetSlot(m, k, i, Slot(0, [], None));
    assert FreeOk(m1) by {
      forall q: nat ensures q in m1.free <==> IsAt(m1, q, Free) { assert q in m.free <==> IsAt(m, q, Free); }
    }
    FreePageMoves(m1, p);
    var n := FreeObj(m, o).value;
    forall u | 0 <= u < |n.tasks| ensures TaskPagesOk(n, u) {
      assert TaskPagesOk(m, u);
      forall q: nat ensures q in n.tasks[u].pages <==> IsAt(n, q, OfTask(u)) {
        assert q in m.tasks[u].pages <==> IsAt(m, q, OfTask(u));
      }
    }
    forall k', i' | 0 <= k' < |n.arenas| && 0 <= i' < |n.arenas[k']| ensures SlotOk(n, k', i') {
      assert SlotOk(m, k', i');
      forall q: nat ensures IsAt(n, q, OfSlot(k', i')) <==> n.arenas[k'][i'].page == Some(q) {
        assert IsAt(m, q, OfSlot(k', i')) <==> m.arenas[k'][i'].page == Some(q);
      }
    }
  }

  lemma FreeObjRemoves(m: Mem, o: Obj)
    requires PagesInv(m) && SlotsInv(m) && UserOf(m, o).Some?
    ensures FreeObj(m, o).Ok?
    ensures var n := FreeObj(m, o).value; PagesInv(n) && SlotsInv(n) && n.tasks == m.tasks && ObjRemoved(m, n, o)
  {
    if m.arenas[o.k][o.i].refc > 1 { FreeInPage(m, o); } else { FreeLast(m, o); }
  }

  // ---------------------------------------------------------------- every step keeps the invariant

  lemma StartKeeps(m: Mem, t: nat)
    requires Inv(m) && t < |m.tasks| && Start(m, t).Ok?
    ensures Inv(Start(m, t).value)
  {
    if m.tasks[t].mm.None? {
      AllocObjAdds(m, MM, t);
      var o, m1 := AllocObj(m, MM, 0, t).value.0, AllocObj(m, MM, 0, t).value.1;
      var n := Start(m, t).value;
      assert TaskPagesOk(m, t);
      TasksChanged(m1, n, t);
      forall u | 0 <= u < |n.tasks| ensures TaskObjsOk(n, u) {
        assert TaskObjsOk(m, u);
        SameUsers(m, m1, n, o, u);
      }
      forall q ensures ChunkOk(n, q) {
        assert ChunkOk(m, q);
        assert UserOf(n, q) == UserOf(m1, q);
      }
    }
  }

  /** Only task t's own record differs, and not in its page list. */
  lemma TasksChanged(m: Mem, n: Mem, t: nat)
    requires PagesInv(m) && SlotsInv(m) && t < |m.tasks| == |n.tasks|
    requires n == m.(tasks := m.tasks[t := n.tasks[t]]) && n.tasks[t].pages == m.tasks[t].pages
    requires n.tasks[t].mm.None? ==> n.tasks[t].pages == [] && n.tasks[t].vmas == []
    ensures PagesInv(n) && SlotsInv(n)
  {
    assert forall p: nat, pl :: IsAt(n, p, pl) <==> IsAt(m, p, pl);
    forall u | 0 <= u < |n.tasks| ensures TaskPagesOk(n, u) { assert TaskPagesOk(m, u); }
    forall k, i | 0 <= k < |n.arenas| && 0 <= i < |n.arenas[k]| ensures SlotOk(n, k, i) { assert SlotOk(m, k, i); }
  }

  /** The objects task u had are still its own after o was added. */
  lemma SameUsers(m: Mem, m1: Mem, n: Mem, o: Obj, u: nat)
    requires u < |m.tasks| && TaskObjsOk(m, u) && n.arenas == m1.arenas && UserOf(m, o) == None
    requires forall q :: q != o ==> UserOf(m1, q) == UserOf(m, q)
    ensures forall q :: q in m.tasks[u].vmas ==> q != o && UserOf(n, q) == Some(u)
    ensures m.tasks[u].mm.Some? ==> m.tasks[u].mm.value != o && UserOf(n, m.tasks[u].mm.value) == Some(u)
    ensures UserOf(n, o) == UserOf(m1, o)
  {
    forall q | q in m.tasks[u].vmas ensures q != o && UserOf(n, q) == Some(u) {
      assert UserOf(m, q) == Some(u);
      assert UserOf(n, q) == UserOf(m1, q);
    }
    if m.tasks[u].mm.Some? { assert UserOf(n, m.tasks[u].mm.value) == UserOf(m1, m.tasks[u].mm.value); }
  }

  lemma NewVmaKeeps(m: Mem, t: nat)
    requires Inv(m) && t < |m.tasks| && NewVma(m, t).Ok?
    ensures Inv(NewVma(m, t).value)
  {
    if m.tasks[t].mm.Some? {
      AllocObjAdds(m, VMA, t);
      var o, m1 := AllocObj(m, VMA, 0, t).value.0, AllocObj(m, VMA, 0, t).value.1;
      var n := NewVma(m, t).value;
      assert TaskPagesOk(m, t);
      TasksChanged(m1, n, t);
      forall u | 0 <= u < |n.tasks| ensures TaskObjsOk(n, u) {
        assert TaskObjsOk(m, u);
        SameUsers(m, m1, n, o, u);
        if u == t { assert n.tasks[t].vmas == m.tasks[t].vmas + [o]; }
      }
      forall q ensures ChunkOk(n, q) {
        assert ChunkOk(m, q);
        assert UserOf(n, q) == UserOf(m1, q);
      }
    }
  }

  lemma WithoutAt(s: seq<Obj>, i: nat, q: Obj)
    requires i < |s| && Distinct(s)
    ensures Distinct(s[..i] + s[i + 1..])
    ensures q in s[..i] + s[i + 1..] <==> q in s && q != s[i]
  {
    var r := s[..i] + s[i + 1..];
    forall a | 0 <= a < |r| ensures r[a] == s[if a < i then a else a + 1] { }
    if q in s && q != s[i] { var a :| 0 <= a < |s| && s[a] == q; assert r[if a < i then a else a - 1] == q; }
  }

  /** After o is gone from task t's record, freeing it restores the balance. */
  lemma FreedObjs(m: Mem, m1: Mem, n: Mem, t: nat, o: Obj)
    requires ObjsInv(m) && t < |m.tasks| == |n.tasks| && UserOf(m, o) == Some(t) && m1.arenas == m.arenas && ObjRemoved(m1, n, o)
    requires forall u :: 0 <= u < |m.tasks| && u != t ==> n.tasks[u] == m.tasks[u]
    requires Distinct(n.tasks[t].vmas)
    requires forall q :: q in n.tasks[t].vmas <==> q in m.tasks[t].vmas && q != o
    requires n.tasks[t].mm == (if m.tasks[t].mm == Some(o) then None else m.tasks[t].mm)
    ensures ObjsInv(n)
  {
    assert forall q :: UserOf(m1, q) == UserOf(m, q);
    forall u | 0 <= u < |n.tasks| ensures TaskObjsOk(n, u) {
      assert TaskObjsOk(m, u);
      forall q | q in n.tasks[u].vmas ensures q.k == VMA && UserOf(n, q) == Some(u) {
        assert UserOf(m, q) == Some(u);
      }
    }
    forall q ensures ChunkOk(n, q) { assert ChunkOk(m, q); }
  }

  lemma DropVmaKeeps(m: Mem, t: nat, i: nat)
    requires Inv(m) && t < |m.tasks|
    ensures DropVma(m, t, i).Ok? && Inv(DropVma(m, t, i).value)
  {
    var k := m.tasks[t];
    if i < |k.vmas| {
      var o := k.vmas[i];
      assert TaskObjsOk(m, t) && TaskPagesOk(m, t);
      assert o in k.vmas;
      forall q ensures q in k.vmas[..i] + k.vmas[i + 1..] <==> q in k.vmas && q != o { WithoutAt(k.vmas, i, q); }
      WithoutAt(k.vmas, i, o);
      var m1 := m.(tasks := m.tasks[t := k.(vmas := k.vmas[..i] + k.vmas[i + 1..])]);
      assert TaskPagesOk(m, t);
      TasksChanged(m, m1, t);
      assert UserOf(m1, o) == UserOf(m, o);
      FreeObjRemoves(m1, o);
      FreedObjs(m, m1, DropVma(m, t, i).value, t, o);
    }
  }

  lemma DropMmKeeps(m: Mem, t: nat)
    requires Inv(m) && t < |m.tasks| && m.tasks[t].mm.Some? && m.tasks[t].pages == [] && m.tasks[t].vmas == []
    ensures DropMm(m, t).Ok? && Inv(DropMm(m, t).value)
  {
    var o := m.tasks[t].mm.value;
    assert TaskObjsOk(m, t);
    var m1 := m.(tasks := m.tasks[t := Task(None, [], [])]);
    assert TaskPagesOk(m, t);
    TasksChanged(m, m1, t);
    assert UserOf(m1, o) == UserOf(m, o);
    FreeObjRemoves(m1, o);
    FreedObjs(m, m1, DropMm(m, t).value, t, o);
  }

  /** Exit frees each page of the task once, without the double-free panic, and all its objects. */
  lemma {:induction false} ExitKeeps(m: Mem, t: nat)
    requires Inv(m) && t < |m.tasks|
    ensures Exit(m, t).Ok? && Inv(Exit(m, t).value)
    ensures var n := Exit(m, t).value;
      && |n.tasks| == |m.tasks| && n.tasks[t] == Task(None, [], []) && |n.where| == |m.where|
      && (forall u :: 0 <= u < |m.tasks| && u != t ==> n.tasks[u] == m.tasks[u])
      && (forall p :: 0 <= p < |m.where| && m.where[p] == OfTask(t) ==> n.where[p] == Free)
      && (forall p :: 0 <= p < |m.where| && n.where[p] != m.where[p] ==> n.where[p] == Free)
      && (forall p :: 0 <= p < |m.where| && n.where[p] != m.where[p] ==> m.where[p] == OfTask(t) || m.where[p].OfSlot?)
    decreases |m.tasks[t].pages| + |m.tasks[t].vmas|
  {
    assert TaskPagesOk(m, t);
    if m.tasks[t].mm.None? {
      assert m.tasks[t] == Task(None, [], []);
      NoPages(m, t);
    } else if m.tasks[t].pages != [] {
      DropPageKeeps(m, t);
      assert IsAt(m, m.tasks[t].pages[0], OfTask(t));
      ExitKeeps(DropPage(m, t).value, t);
    } else if m.tasks[t].vmas != [] {
      DropVmaKeeps(m, t, 0);
      DropVmaPlaces(m, t);
      ExitKeeps(DropVma(m, t, 0).value, t);
    } else {
      DropMmKeeps(m, t);
      DropMmPlaces(m, t);
      NoPages(m, t);
    }
  }

  lemma NoPages(m: Mem, t: nat)
    requires t < |m.tasks| && TaskPagesOk(m, t) && m.tasks[t].pages == []
    ensures forall p :: 0 <= p < |m.where| ==> m.where[p] != OfTask(t)
  {
    forall p | 0 <= p < |m.where| ensures m.where[p] != OfTask(t) { assert !IsAt(m, p, OfTask(t)); }
  }

  /** Freeing an object moves at most its slot's page, to the free list. */
  lemma FreeObjPlaces(m: Mem, o: Obj)
    requires IsObj(m, o) && Shape(m) && SlotsInv(m) && FreeObj(m, o).Ok?
    ensures var n := FreeObj(m, o).value;
      n.tasks == m.tasks && (n.where == m.where || exists p ::
        0 <= p < |m.where| && n.where == m.where[p := Free] && m.where[p] == OfSlot(o.k, o.i))
  {
    var s := m.arenas[o.k][o.i];
    assert SlotOk(m, o.k, o.i);
    if s.refc == 1 && s.page.Some? { assert IsAt(m, s.page.value, OfSlot(o.k, o.i)); }
  }

  lemma DropVmaPlaces(m: Mem, t: nat)
    requires Inv(m) && t < |m.tasks| && m.tasks[t].vmas != [] && DropVma(m, t, 0).Ok?
    ensures var n := DropVma(m, t, 0).value;
      && n.tasks == m.tasks[t := m.tasks[t].(vmas := m.tasks[t].vmas[1..])] && |n.where| == |m.where|
      && forall p :: 0 <= p < |m.where| && n.where[p] != m.where[p] ==> n.where[p] == Free && m.where[p].OfSlot?
  {
    var k := m.tasks[t];
    var m1 := m.(tasks := m.tasks[t := k.(vmas := k.vmas[..0] + k.vmas[1..])]);
    assert k.vmas[..0] + k.vmas[1..] == k.vmas[1..];
    assert TaskPagesOk(m, t);
    TasksChanged(m, m1, t);
    FreeObjPlaces(m1, k.vmas[0]);
  }

  lemma DropMmPlaces(m: Mem, t: nat)
    requires Inv(m) && t < |m.tasks| && m.tasks[t].mm.Some? && m.tasks[t].pages == [] && m.tasks[t].vmas == [] && DropMm(m, t).Ok?
    ensures var n := DropMm(m, t).value;
      && n.tasks == m.tasks[t := Task(None, [], [])] && |n.where| == |m.where|
      && forall p :: 0 <= p < |m.where| && n.where[p] != m.where[p] ==> n.where[p] == Free && m.where[p].OfSlot?
  {
    var m1 := m.(tasks := m.tasks[t := Task(None, [], [])]);
    assert TaskPagesOk(m, t);
    TasksChanged(m, m1, t);
    FreeObjPlaces(m1, m.tasks[t].mm.value);
  }

  // ---------------------------------------------------------------- runs

  datatype Step = StartTask(t: nat) | Page(t: nat) | Vma(t: nat) | Unlink(t: nat, i: nat) | ExitTask(t: nat) | BootPage

  /** A page the kernel keeps for itself: its own tables and the disk rings. */
  function TakeForBoot(m: Mem): Outcome<Mem> {
    var r := AllocPage(m, Boot);
    if r.Panic? then Panic else Ok(r.value.1)
  }

  function Do(m: Mem, a: Step): Outcome<Mem> {
    if a.BootPage? then TakeForBoot(m)
    else if !IsTask(m, a.t) then Ok(m)
    else
      match a
      case StartTask(t) => Start(m, t)
      case Page(t) => NewPage(m, t)
      case Vma(t) => NewVma(m, t)
      case Unlink(t, i) => DropVma(m, t, i)
      case ExitTask(t) => Exit(m, t)
      case BootPage => Ok(m)
  }

  lemma BootKeeps(m: Mem)
    requires Inv(m) && TakeForBoot(m).Ok?
    ensures Inv(TakeForBoot(m).value)
  {
    AllocPageMoves(m, Boot);
    var n, p := TakeForBoot(m).value, m.free[0];
    forall u | 0 <= u < |m.tasks| ensures TaskPagesOk(n, u) {
      assert TaskPagesOk(m, u);
      forall q: nat ensures q in n.tasks[u].pages <==> IsAt(n, q, OfTask(u)) {
        assert q in m.tasks[u].pages <==> IsAt(m, q, OfTask(u));
      }
    }
    SameSlots(m, n, p);
    SameObjs(m, n);
  }

  lemma DoKeeps(m: Mem, a: Step)
    requires Inv(m) && Do(m, a).Ok?
    ensures Inv(Do(m, a).value)
  {
    if a.BootPage? {
      BootKeeps(m);
    } else if IsTask(m, a.t) {
      match a
      case StartTask(t) => StartKeeps(m, t);
      case Page(t) => NewPageKeeps(m, t);
      case Vma(t) => NewVmaKeeps(m, t);
      case Unlink(t, i) => DropVmaKeeps(m, t, i);
      case ExitTask(t) => ExitKeeps(m, t);
      case BootPage =>
    }
  }

  /** After init_memory: the first `kernel` pages reserved, the rest free in address order. */
  ghost predicate Init(m: Mem, kernel: nat) {
    && Shape(m) && kernel <= |m.where|
    && m.free == seq(|m.where| - kernel, i => kernel + i)
    && (forall p :: 0 <= p < |m.where| ==> (m.inuse[p] <==> p < kernel) && m.where[p] == if p < kernel then Boot else Free)
    && (forall k, i :: 0 <= k < 2 && 0 <= i < |m.arenas[k]| ==> m.arenas[k][i] == Slot(0, [], None))
    && (forall t :: 0 <= t < |m.tasks| ==> m.tasks[t] == Task(None, [], []))
  }

  lemma InitInv(m: Mem, kernel: nat)
    requires Init(m, kernel)
    ensures Inv(m)
  {
    forall p: nat ensures p in m.free <==> IsAt(m, p, Free) {
      if IsAt(m, p, Free) { assert m.free[p - kernel] == p; }
    }
    forall k, i | 0 <= k < |m.arenas| && 0 <= i < |m.arenas[k]| ensures SlotOk(m, k, i) {
      assert m.arenas[k][i] == Slot(0, [], None);
    }
    forall o: Obj ensures !IsObj(m, o) {
      assert o.k < 2 && o.i < |m.arenas[o.k]| ==> |m.arenas[o.k][o.i].chunks| == 0;
    }
  }

  function Run(m: Mem, steps: seq<Step>): Outcome<Mem> {
    if steps == [] then Ok(m)
    else
      var r := Run(m, steps[..|steps| - 1]);
      if r.Ok? then Do(r.value, steps[|steps| - 1]) else Panic
  }

  lemma {:induction false} RunKeeps(m: Mem, kernel: nat, steps: seq<Step>)
    requires Init(m, kernel) && Run(m, steps).Ok?
    ensures Inv(Run(m, steps).value)
  {
    if steps == [] {
      InitInv(m, kernel);
    } else {
      RunKeeps(m, kernel, steps[..|steps| - 1]);
      DoKeeps(Run(m, steps[..|steps| - 1]).value, steps[|steps| - 1]);
    }
  }

  /** How often page p appears: on the free list, in the lists of tasks, as a slot's page. */
  // ---------------------------------------------------------------- what each task has

  /** Per task, while it has an mm_struct: how many pages and how many vmas are on its lists. */
  type Ledger = seq<Option<(nat, nat)>>

  function Enter(l: Ledger, a: Step): Ledger {
    match a
    case StartTask(t) => if t < |l| && l[t].None? then l[t := Some((0, 0))] else l
    case Page(t) => if t < |l| && l[t].Some? then l[t := Some((l[t].value.0 + 1, l[t].value.1))] else l
    case Vma(t) => if t < |l| && l[t].Some? then l[t := Some((l[t].value.0, l[t].value.1 + 1))] else l
    case Unlink(t, i) =>
      if t < |l| && l[t].Some? && i < l[t].value.1 then l[t := Some((l[t].value.0, l[t].value.1 - 1))] else l
    case ExitTask(t) => if t < |l| then l[t := None] else l
    case BootPage => l
  }

  function EnterAll(l: Ledger, steps: seq<Step>): Ledger {
    if steps == [] then l else Enter(EnterAll(l, steps[..|steps| - 1]), steps[|steps| - 1])
  }

  function Entry(k: Task): Option<(nat, nat)> {
    if k.mm.None? then None else Some((|k.pages|, |k.vmas|))
  }

  function LedgerOf(tasks: seq<Task>): (l: Ledger)
    ensures |l| == |tasks| && forall t :: 0 <= t < |tasks| ==> l[t] == Entry(tasks[t])
  {
    seq(|tasks|, t requires 0 <= t < |tasks| => Entry(tasks[t]))
  }

  /** What a step does to the lists of its task; no other task's change. */
  lemma StepDoes(m: Mem, a: Step)
    requires Inv(m) && Do(m, a).Ok?
    ensures var n := Do(m, a).value; |n.tasks| == |m.tasks|
    ensures var n := Do(m, a).value; !a.BootPage? ==> forall u :: 0 <= u < |m.tasks| && u != a.t ==> n.tasks[u] == m.tasks[u]
    ensures var n := Do(m, a).value; a.BootPage? ==> n.tasks == m.tasks
    ensures a.Page? && a.t < |m.tasks| && m.tasks[a.t].mm.Some? ==>
      var n, k := Do(m, a).value, m.tasks[a.t];
      m.free != [] && n.free == m.free[1..] && n.tasks[a.t] == Task(k.mm, k.pages + [m.free[0]], k.vmas)
    ensures a.Vma? && a.t < |m.tasks| && m.tasks[a.t].mm.Some? ==>
      var n, k := Do(m, a).value, m.tasks[a.t];
      && |n.tasks[a.t].vmas| == |k.vmas| + 1
      && var o := n.tasks[a.t].vmas[|k.vmas|];
      n.tasks[a.t] == Task(k.mm, k.pages, k.vmas + [o]) && o.k == VMA && ObjAdded(m, n, o, a.t)
    ensures a.StartTask? && a.t < |m.tasks| && m.tasks[a.t].mm.None? ==>
      var n := Do(m, a).value;
      && n.tasks[a.t].mm.Some?
      && var o := n.tasks[a.t].mm.value;
      n.tasks[a.t] == Task(Some(o), [], []) && o.k == MM && ObjAdded(m, n, o, a.t)
    ensures a.Unlink? && a.t < |m.tasks| && a.i < |m.tasks[a.t].vmas| ==>
      var n, k := Do(m, a).value, m.tasks[a.t];
      n.tasks[a.t] == Task(k.mm, k.pages, k.vmas[..a.i] + k.vmas[a.i + 1..]) && UserOf(n, k.vmas[a.i]) == None
    ensures a.ExitTask? && a.t < |m.tasks| ==> Do(m, a).value.tasks[a.t] == Task(None, [], [])
  {
    assert !a.BootPage? && a.t < |m.tasks| ==> IsTask(m, a.t);
    hide Inv, AllocObj, AllocPage, FreeObj, ObjAdded, UserOf, Exit, DropVma, Start, NewPage, NewVma;
    match a
    case StartTask(t) => if t < |m.tasks| { StartDoes(m, t); }
    case Page(t) => if t < |m.tasks| { PageDoes(m, t); }
    case Vma(t) => if t < |m.tasks| { VmaDoes(m, t); }
    case Unlink(t, i) => if t < |m.tasks| { UnlinkDoes(m, t, i); }
    case ExitTask(t) => if t < |m.tasks| { ExitKeeps(m, t); }
    case BootPage => BootDoes(m);
  }

  lemma BootDoes(m: Mem)
    requires Inv(m) && TakeForBoot(m).Ok?
    ensures TakeForBoot(m).value.tasks == m.tasks
  {
    AllocPageMoves(m, Boot);
  }

  lemma StartDoes(m: Mem, t: nat)
    requires Inv(m) && IsTask(m, t) && Start(m, t).Ok?
    ensures var n := Start(m, t).value;
      && |n.tasks| == |m.tasks| && (forall u :: 0 <= u < |m.tasks| && u != t ==> n.tasks[u] == m.tasks[u])
      && (m.tasks[t].mm.None? ==>
            && n.tasks[t].mm.Some?
            && var o := n.tasks[t].mm.value;
            n.tasks[t] == Task(Some(o), [], []) && o.k == MM && ObjAdded(m, n, o, t))
  {
    if m.tasks[t].mm.None? {
      AllocObjAdds(m, MM, t);
      hide AllocObj, Inv, SlotsInv, PagesInv, ObjsInv;
    }
  }

  lemma PageDoes(m: Mem, t: nat)
    requires Inv(m) && IsTask(m, t) && NewPage(m, t).Ok?
    ensures var n, k := NewPage(m, t).value, m.tasks[t];
      && |n.tasks| == |m.tasks| && (forall u :: 0 <= u < |m.tasks| && u != t ==> n.tasks[u] == m.tasks[u])
      && (k.mm.Some? ==>
            m.free != [] && n.free == m.free[1..] && n.tasks[t] == Task(k.mm, k.pages + [m.free[0]], k.vmas))
  {
    hide Inv;
  }

  lemma VmaDoes(m: Mem, t: nat)
    requires Inv(m) && IsTask(m, t) && NewVma(m, t).Ok?
    ensures var n, k := NewVma(m, t).value, m.tasks[t];
      && |n.tasks| == |m.tasks| && (forall u :: 0 <= u < |m.tasks| && u != t ==> n.tasks[u] == m.tasks[u])
      && (k.mm.Some? ==>
            && |n.tasks[t].vmas| == |k.vmas| + 1
            && var o := n.tasks[t].vmas[|k.vmas|];
            n.tasks[t] == Task(k.mm, k.pages, k.vmas + [o]) && o.k == VMA && ObjAdded(m, n, o, t))
  {
    if m.tasks[t].mm.Some? {
      AllocObjAdds(m, VMA, t);
      hide AllocObj, Inv, SlotsInv, PagesInv, ObjsInv;
    }
  }

  lemma UnlinkDoes(m: Mem, t: nat, i: nat)
    requires Inv(m) && IsTask(m, t) && DropVma(m, t, i).Ok?
    ensures var n, k := DropVma(m, t, i).value, m.tasks[t];
      && n.tasks == (if i < |k.vmas| then m.tasks[t := k.(vmas := k.vmas[..i] + k.vmas[i + 1..])] else m.tasks)
      && (i < |k.vmas| ==> UserOf(n, k.vmas[i]) == None)
  {
    var k := m.tasks[t];
    if i < |k.vmas| {
      var o := k.vmas[i];
      assert TaskObjsOk(m, t) && TaskPagesOk(m, t) && o in k.vmas;
      var m1 := m.(tasks := m.tasks[t := k.(vmas := k.vmas[..i] + k.vmas[i + 1..])]);
      TasksChanged(m, m1, t);
      FreeObjRemoves(m1, o);
    }
  }

  lemma StepEnters(m: Mem, a: Step)
    requires Inv(m) && Do(m, a).Ok?
    ensures LedgerOf(Do(m, a).value.tasks) == Enter(LedgerOf(m.tasks), a)
  {
    StepDoes(m, a);
    var n, l := Do(m, a).value, LedgerOf(m.tasks);
    if !a.BootPage? && a.t < |m.tasks| {
      assert TaskObjsOk(m, a.t) && TaskPagesOk(m, a.t);
      hide AllocObj, AllocPage, FreeObj, Inv;
      assert Entry(n.tasks[a.t]) == Enter(l, a)[a.t];
    }
  }

  /** Over every run each task has as many pages and vmas as it was given and has not given back. */
  lemma {:induction false} LedgerHolds(m0: Mem, kernel: nat, steps: seq<Step>)
    requires Init(m0, kernel) && Run(m0, steps).Ok?
    ensures LedgerOf(Run(m0, steps).value.tasks) == EnterAll(LedgerOf(m0.tasks), steps)
  {
    if steps != [] {
      var before, a := steps[..|steps| - 1], steps[|steps| - 1];
      LedgerHolds(m0, kernel, before);
      RunKeeps(m0, kernel, before);
      StepEnters(Run(m0, before).value, a);
    }
  }

  ghost predicate OnFreeList(m: Mem, p: nat) { p in m.free }
  ghost predicate OnTaskList(m: Mem, p: nat, t: nat) { t < |m.tasks| && p in m.tasks[t].pages }
  ghost predicate InSlot(m: Mem, p: nat, k: nat, i: nat) {
    k < |m.arenas| && i < |m.arenas[k]| && m.arenas[k][i].page == Some(p)
  }

  /** In every reachable state each page is in one place only: free, on one task's list, in one slot,
      or kept by the kernel; it is not in use exactly when it is free. */
  lemma EveryPageInOnePlace(m0: Mem, kernel: nat, steps: seq<Step>, p: nat)
    requires Init(m0, kernel) && Run(m0, steps).Ok?
    requires p < |Run(m0, steps).value.where|
    ensures var m := Run(m0, steps).value;
      && Shape(m) && Distinct(m.free) && (OnFreeList(m, p) <==> !m.inuse[p])
      && (OnFreeList(m, p) <==> m.where[p] == Free)
      && (forall t: nat :: OnTaskList(m, p, t) <==> m.where[p] == OfTask(t))
      && (forall k: nat, i: nat :: InSlot(m, p, k, i) <==> m.where[p] == OfSlot(k, i))
      && (forall t :: 0 <= t < |m.tasks| ==> Distinct(m.tasks[t].pages))
  {
    RunKeeps(m0, kernel, steps);
    var m := Run(m0, steps).value;
    assert p in m.free <==> IsAt(m, p, Free);
    forall t: nat ensures OnTaskList(m, p, t) <==> m.where[p] == OfTask(t) {
      if t < |m.tasks| { assert TaskPagesOk(m, t); assert p in m.tasks[t].pages <==> IsAt(m, p, OfTask(t)); }
    }
    forall k: nat, i: nat ensures InSlot(m, p, k, i) <==> m.where[p] == OfSlot(k, i) {
      if k < |m.arenas| && i < |m.arenas[k]| {
        assert SlotOk(m, k, i);
        assert IsAt(m, p, OfSlot(k, i)) <==> m.arenas[k][i].page == Some(p);
      }
    }
    forall t | 0 <= t < |m.tasks| ensures Distinct(m.tasks[t].pages) { assert TaskPagesOk(m, t); }
  }

  /** The only panics left are running out: of pages, or of room in a slot allocator.  In particular
      neither free_page's double-free panic nor an endless chunk scan can happen, and exit and
      unlinking never panic. */
  lemma PanicMeansExhausted(m0: Mem, kernel: nat, steps: seq<Step>, a: Step)
    requires Init(m0, kernel) && Run(m0, steps).Ok? && Do(Run(m0, steps).value, a).Panic?
    ensures var m := Run(m0, steps).value;
      && Shape(m) && !a.ExitTask? && !a.Unlink?
      && (a.Page? || a.BootPage? ==> m.free == [])
      && (a.Vma? || a.StartTask? ==>
            var k := if a.Vma? then VMA else MM;
            var f := FirstRoom(m.arenas[k], m.caps[k], 0);
            f >= |m.arenas[k]| || (m.arenas[k][f].refc == 0 && m.free == []))
  {
    RunKeeps(m0, kernel, steps);
    var m := Run(m0, steps).value;
    AllocPageMoves(m, Boot);
    if !a.BootPage? && IsTask(m, a.t) {
      match a
      case ExitTask(t) => ExitKeeps(m, t);
      case Unlink(t, i) => DropVmaKeeps(m, t, i);
      case Vma(t) => AllocObjAdds(m, VMA, t);
      case StartTask(t) => AllocObjAdds(m, MM, t);
      case Page(t) => AllocPageMoves(m, OfTask(t));
      case BootPage =>
    }
  }

  /** refc is the number of chunks in use, and a slot has a page exactly while that is positive. */
  lemma SlotCounts(m0: Mem, kernel: nat, steps: seq<Step>, k: nat, i: nat)
    requires Init(m0, kernel) && Run(m0, steps).Ok?
    requires var m := Run(m0, steps).value; k < |m.arenas| && i < |m.arenas[k]|
    ensures var m := Run(m0, steps).value;
      m.arenas[k][i].refc == CountInuse(m.arenas[k][i].chunks) && (m.arenas[k][i].page.Some? <==> m.arenas[k][i].refc > 0)
  {
    RunKeeps(m0, kernel, steps);
    assert SlotOk(Run(m0, steps).value, k, i);
  }

  /** With no task left every page is free or kept by the kernel. */
  lemma NothingHeld(m: Mem, p: nat)
    requires Inv(m) && p < |m.where| && forall t :: 0 <= t < |m.tasks| ==> m.tasks[t].mm == None
    ensures m.where[p] == Boot || p in m.free
  {
    match m.where[p]
    case Free => assert IsAt(m, p, Free);
    case Boot =>
    case OfTask(t) =>
      assert TaskPagesOk(m, t);
      assert IsAt(m, p, OfTask(t));
    case OfSlot(k, i) =>
      assert SlotOk(m, k, i) && IsAt(m, p, OfSlot(k, i));
      assert m.arenas[k][i].page == Some(p);
      SomeUser(m, k, i);
  }

  /** Nothing leaks: when no task is left, every page the kernel did not keep is free again. */
  lemma AllReturned(m0: Mem, kernel: nat, steps: seq<Step>, p: nat)
    requires Init(m0, kernel) && Run(m0, steps).Ok?
    requires var m := Run(m0, steps).value; p < |m.where| && forall t :: 0 <= t < |m.tasks| ==> m.tasks[t].mm == None
    ensures var m := Run(m0, steps).value; m.where[p] == Boot || p in m.free
  {
    RunKeeps(m0, kernel, steps);
    NothingHeld(Run(m0, steps).value, p);
  }

  lemma SomeUser(m: Mem, k: nat, i: nat)
    requires Inv(m) && k < |m.arenas| && i < |m.arenas[k]| && m.arenas[k][i].page.Some?
    ensures exists t :: 0 <= t < |m.tasks| && m.tasks[t].mm != None
  {
    assert SlotOk(m, k, i);
    CountBounds(m.arenas[k][i].chunks);
    var j :| 0 <= j < |m.arenas[k][i].chunks| && m.arenas[k][i].chunks[j].inuse;
    var o := Obj(k, i, j);
    assert ChunkOk(m, o);
    var t := UserOf(m, o).value;
    assert TaskPagesOk(m, t);
  }

  // ---------------------------------------------------------------- the loops

  /** The chunk scan of a slot. */
  method ScanChunks(cs: seq<Chunk>) returns (j: nat)
    ensures j == FirstFree(cs) <= |cs|
    ensures j < |cs| ==> !cs[j].inuse
    ensures CountInuse(cs) < |cs| ==> j < |cs|
  {
    ScanEnds(cs);
    j := 0;
    while j < |cs| && cs[j].inuse
      invariant j <= |cs| && FirstFree(cs) == j + FirstFree(cs[j..])
    {
      assert cs[j..][1..] == cs[j + 1..];
      j := j + 1;
    }
  }

  /** init_memory. */
  method InitMemory(n: nat, kernel: nat) returns (inuse: array<bool>, free: seq<nat>)
    requires kernel <= n
    ensures inuse.Length == n && forall p :: 0 <= p < n ==> (inuse[p] <==> p < kernel)
    ensures free == seq(n - kernel, i => kernel + i)
  {
    inuse := new bool[n];
    free := [];
    var p := 0;
    while p < n
      invariant p <= n && forall q :: 0 <= q < p ==> (inuse[q] <==> q < kernel)
      invariant free == if p <= kernel then [] else seq(p - kernel, i => kernel + i)
    {
      inuse[p] := p < kernel;
      if p >= kernel { free := free + [p]; }
      p := p + 1;
    }
  }

  class Kernel {
    var mem: Mem

    /** alloc_*_slot: walk the slots, give an empty one a page, take the first free chunk. */
    method AllocObject(k: nat, t: nat) returns (r: Option<Obj>)
      requires PagesInv(mem) && SlotsInv(mem) && k < |mem.arenas|
      modifies this
      ensures r.None? <==> AllocObj(old(mem), k, 0, t).Panic?
      ensures r.Some? ==> AllocObj(old(mem), k, 0, t) == Ok((r.value, mem))
      ensures r.Some? ==> PagesInv(mem) && SlotsInv(mem) && ObjAdded(old(mem), mem, r.value, t)
    {
      ghost var m0 := mem;
      AllocObjAdds(m0, k, t);
      var i := 0;
      while i < |mem.arenas[k]|
        invariant mem == m0 && i <= |mem.arenas[k]|
        invariant AllocObj(m0, k, 0, t) == AllocObj(m0, k, i, t)
      {
        assert SlotOk(mem, k, i);
        if mem.arenas[k][i].refc == 0 {
          if mem.free == [] { return None; }
          AllocPageMoves(mem, OfSlot(k, i));
          var p := mem.free[0];
          mem := mem.(free := mem.free[1..], inuse := mem.inuse[p := true], where := mem.where[p := OfSlot(k, i)]);
          mem := SetSlot(mem, k, i, Slot(0, seq(mem.caps[k], _ => Chunk(false, 0)), Some(p)));
          assert Backed(m0, k, i) == Ok(mem);
          CountBounds(mem.arenas[k][i].chunks);
        }
        var s := mem.arenas[k][i];
        if s.refc != mem.caps[k] {
          CountBounds(s.chunks);
          var j := ScanChunks(s.chunks);
          mem := SetSlot(mem, k, i, s.(refc := s.refc + 1, chunks := s.chunks[j := Chunk(true, t)]));
          return Some(Obj(k, i, j));
        }
        i := i + 1;
      }
      return None;
    }

    /** clean_mm_source: the page loop, the vma loop, then the mm_struct. */
    method CleanMm(t: nat)
      requires Inv(mem) && t < |mem.tasks| && mem.tasks[t].mm.Some?
      modifies this
      ensures Exit(old(mem), t) == Ok(mem) && Inv(mem)
      ensures mem.tasks == old(mem.tasks)[t := Task(None, [], [])]
      ensures forall p :: 0 <= p < |old(mem.where)| == |mem.where| && old(mem.where)[p] == OfTask(t) ==> p in mem.free
    {
      ghost var m0 := mem;
      ExitKeeps(m0, t);
      while mem.tasks[t].pages != []
        invariant Inv(mem) && t < |mem.tasks| && mem.tasks[t].mm.Some? && Exit(m0, t) == Exit(mem, t)
        decreases |mem.tasks[t].pages|
      {
        DropPageKeeps(mem, t);
        mem := DropPage(mem, t).value;
      }
      while mem.tasks[t].vmas != []
        invariant Inv(mem) && t < |mem.tasks| && mem.tasks[t].mm.Some? && mem.tasks[t].pages == [] && Exit(m0, t) == Exit(mem, t)
        decreases |mem.tasks[t].vmas|
      {
        DropVmaKeeps(mem, t, 0);
        DropVmaPlaces(mem, t);
        mem := DropVma(mem, t, 0).value;
      }
      DropMmKeeps(mem, t);
      mem := DropMm(mem, t).value;
      assert mem.tasks == m0.tasks[t := Task(None, [], [])];
      forall p | 0 <= p < |m0.where| == |mem.where| && m0.where[p] == OfTask(t) ensures p in mem.free {
        assert IsAt(mem, p, Free);
      }
    }
  }
}
