/** The loops of kernel/mem/vm.c over mutable physical memory, proved to compute the functions of
    `Sv39`, and the page lists that own the pages the loops allocate. */
module Vm {
  import opened Base
  import opened Sv39

  function PagesOf(lists: map<nat, seq<nat>>, task: nat): seq<nat> {
    if task in lists then lists[task] else []
  }

  /** Pages pushed on a task's list, or kept by nobody when there is no task. */
  function Give(lists: map<nat, seq<nat>>, ut: Option<nat>, pages: seq<nat>): map<nat, seq<nat>> {
    match ut
    case None => lists
    case Some(t) => if pages == [] then lists else lists[t := PagesOf(lists, t) + pages]
  }

  lemma GiveNothing(lists: map<nat, seq<nat>>, ut: Option<nat>)
    ensures Give(lists, ut, []) == lists
  {
  }

  lemma GiveTwice(lists: map<nat, seq<nat>>, ut: Option<nat>, a: seq<nat>, b: seq<nat>)
    ensures Give(Give(lists, ut, a), ut, b) == Give(lists, ut, a + b)
  {
    if ut.Some? && a != [] && b != [] {
      assert PagesOf(lists, ut.value) + a + b == PagesOf(lists, ut.value) + (a + b);
    } else if a == [] {
      assert a + b == b;
    } else if b == [] {
      assert a + b == a;
    }
  }

  /** `now` is `was` with some pages taken off the front. */
  ghost predicate TakenFrom(was: seq<nat>, now: seq<nat>) {
    |now| <= |was| && now == was[|was| - |now|..]
  }

  ghost function Taken(was: seq<nat>, now: seq<nat>): seq<nat>
    requires TakenFrom(was, now)
  {
    was[..|was| - |now|]
  }

  lemma TakenTwice(a: seq<nat>, b: seq<nat>, c: seq<nat>)
    requires TakenFrom(a, b) && TakenFrom(b, c)
    ensures TakenFrom(a, c) && Taken(a, b) + Taken(b, c) == Taken(a, c)
  {
  }

  lemma NothingTaken(free: seq<nat>)
    ensures TakenFrom(free, free) && Taken(free, free) == []
  {
  }

  lemma MapRangeStep(w: Phys, root: nat, p: nat, bound: nat, first: nat, n: nat, attr: nat)
    requires attr < 1024
    ensures p >= bound ==> MapRange(w, root, p, bound, first, n, attr) == Ok(w)
    ensures p < bound ==>
      var r := MapPage(w, root, p, Pte(FrameAfter(first, n), attr));
      MapRange(w, root, p, bound, first, n, attr) ==
      if r.Panic? then Panic else MapRange(r.value, root, p + 1, bound, first, n + 1, attr)
  {
  }

  /** do_vmmap's check. */
  predicate Refused(va: nat, pa: nat, size: nat) {
    va % PGSIZE != 0 || pa % PGSIZE != 0 || (va + size) % U64 > VA_TOP || (pa + size) % U64 > PHY_TOP
  }

  class Memory {
    var mem: Mem
    var free: seq<nat>
    var lists: map<nat, seq<nat>>

    ghost function Model(): Phys
      reads this
    {
      Phys(mem, free)
    }

    constructor (free: seq<nat>)
      ensures mem == map[] && this.free == free && lists == map[]
    {
      mem, this.free, lists := map[], free, map[];
    }

    /** Take the first free page and zero it; false where the kernel panics. */
    method AllocPage() returns (ok: bool, f: nat)
      modifies this`mem, this`free
      ensures ok == (old(free) != [])
      ensures ok ==> f == old(free)[0] && free == old(free)[1..] && mem == old(mem)[f := Zeros()]
      ensures !ok ==> mem == old(mem) && free == old(free)
    {
      if free == [] { return false, 0; }
      f := free[0];
      free := free[1..];
      mem := mem[f := Zeros()];
      return true, f;
    }

    /** One iteration of a non-leaf level of the walk. */
    method Level(cur: nat, i: nat, ut: Option<nat>) returns (ok: bool, next: nat)
      modifies this
      ensures ok == Descend(old(Model()), cur, i).Ok?
      ensures ok ==> Descend(old(Model()), cur, i) == Ok((Model(), next))
      ensures !ok ==> free == []
      ensures ok ==> TakenFrom(old(free), free) && lists == Give(old(lists), ut, Taken(old(free), free))
    {
      var pte := Word(mem, cur, i);
      if !IsValid(pte) {
        var p: nat;
        ok, p := AllocPage();
        if !ok { return false, 0; }
        if ut.Some? { lists := lists[ut.value := PagesOf(lists, ut.value) + [p]]; }
        pte := Pointer(p);
        mem := SetWord(mem, cur, i, pte);
        assert Taken(old(free), free) == [p];
      }
      return true, FrameOf(pte);
    }

    /** The walk for one page: L2 -> L1 -> L0. */
    method MapOne(root: nat, p: nat, e: nat, ut: Option<nat>) returns (ok: bool)
      modifies this
      ensures ok == MapPage(old(Model()), root, p, e).Ok?
      ensures ok ==> MapPage(old(Model()), root, p, e) == Ok(Model())
      ensures !ok ==> free == []
      ensures ok ==> TakenFrom(old(free), free) && lists == Give(old(lists), ut, Taken(old(free), free))
    {
      var cur, level := root, 2;
      while level >= 0
        invariant -1 <= level <= 2
        invariant level == 2 ==> cur == root && Model() == old(Model())
        invariant level == 1 ==> Descend(old(Model()), root, Index(p, 2)) == Ok((Model(), cur))
        invariant level == 0 ==>
                    match Descend(old(Model()), root, Index(p, 2))
                    case Panic => false
                    case Ok((w1, t1)) => Descend(w1, t1, Index(p, 1)) == Ok((Model(), cur))
        invariant level == -1 ==> MapPage(old(Model()), root, p, e) == Ok(Model())
        invariant TakenFrom(old(free), free) && lists == Give(old(lists), ut, Taken(old(free), free))
      {
        if level == 0 {
          mem := SetWord(mem, cur, Index(p, 0), e);
        } else {
          ghost var free1, lists1 := free, lists;
          ok, cur := Level(cur, Index(p, level), ut);
          if !ok { return false; }
          TakenTwice(old(free), free1, free);
          GiveTwice(old(lists), ut, Taken(old(free), free1), Taken(free1, free));
        }
        level := level - 1;
      }
      return true;
    }

    /** The outer loop of do_vmmap, over page numbers. */
    method MapLoop(root: nat, start: nat, bound: nat, first: nat, attr: nat, ut: Option<nat>) returns (ok: bool)
      requires attr < 1024 && first < FRAMES
      modifies this
      ensures ok == MapRange(old(Model()), root, start, bound, first, 0, attr).Ok?
      ensures ok ==> MapRange(old(Model()), root, start, bound, first, 0, attr) == Ok(Model())
      ensures !ok ==> free == []
      ensures ok ==> TakenFrom(old(free), free) && lists == Give(old(lists), ut, Taken(old(free), free))
    {
      GiveNothing(lists, ut);
      NothingTaken(free);
      FrameStep(first, 0);
      hide *;
      var p: nat, frame: nat := start, first;
      ghost var n: nat := 0;
      while p < bound
        invariant p == start + n && frame == FrameAfter(first, n)
        invariant MapRange(Model(), root, p, bound, first, n, attr) == MapRange(old(Model()), root, start, bound, first, 0, attr)
        invariant TakenFrom(old(free), free) && lists == Give(old(lists), ut, Taken(old(free), free))
        decreases bound - p
      {
        ghost var free1 := free;
        MapRangeStep(Model(), root, p, bound, first, n, attr);
        ok := MapOne(root, p, Pte(frame, attr), ut);
        if !ok { return false; }
        TakenTwice(old(free), free1, free);
        GiveTwice(old(lists), ut, Taken(old(free), free1), Taken(free1, free));
        FrameStep(first, n);
        p, frame, n := p + 1, FrameAfter(frame, 1), n + 1;
      }
      MapRangeStep(Model(), root, p, bound, first, n, attr);
      return true;
    }

    /** do_vmmap at 4KB granularity, that is svmmap. */
    method MapPages(root: nat, va: nat, pa: nat, size: nat, attr: nat, ut: Option<nat>) returns (ok: bool)
      requires attr < 1024 && va < U64 && pa < U64 && size < U64
      modifies this
      ensures ok == Svmmap(old(Model()), root, va, pa, size, attr).Ok?
      ensures ok ==> Svmmap(old(Model()), root, va, pa, size, attr) == Ok(Model())
      ensures !ok <==> Refused(va, pa, size) || (free == [] && Svmmap(old(Model()), root, va, pa, size, attr).Panic?)
      ensures ok ==> TakenFrom(old(free), free) && lists == Give(old(lists), ut, Taken(old(free), free))
    {
      if va % PGSIZE != 0 || pa % PGSIZE != 0 { return false; }
      if (va + size) % U64 > VA_TOP || (pa + size) % U64 > PHY_TOP { return false; }
      ok := MapLoop(root, va / PGSIZE, Bound(va, size) / PGSIZE, pa / PGSIZE, attr, ut);
    }

    /** vmunmap. */
    method UnmapPages(root: nat, va: nat, size: nat) returns (ok: bool)
      requires va < U64 && size < U64
      modifies this`mem
      ensures ok == Vmunmap(old(mem), root, va, size).Ok?
      ensures ok ==> Vmunmap(old(mem), root, va, size) == Ok(mem)
      ensures !ok ==> mem == old(mem)
    {
      if va % PGSIZE != 0 || (va + size) % U64 > VA_TOP { return false; }
      var p, bound := va / PGSIZE, Bound(va, size) / PGSIZE;
      while p < bound
        invariant UnmapRange(mem, root, p, bound) == UnmapRange(old(mem), root, va / PGSIZE, bound)
        decreases bound - p
      {
        UnmapOne(root, p);
        p := p + 1;
      }
      return true;
    }

    method UnmapOne(root: nat, p: nat)
      modifies this`mem
      ensures mem == UnmapPage(old(mem), root, p)
    {
      var cur, level := root, 2;
      while level >= 0
        invariant 0 <= level <= 2 && mem == old(mem)
        invariant UnmapPage(mem, root, p) == UnmapFrom(mem, cur, p, level)
      {
        var pte := Word(mem, cur, Index(p, level));
        if !IsValid(pte) { return; }
        if level == 0 {
          mem := SetWord(mem, cur, Index(p, 0), 0);
          return;
        }
        cur := FrameOf(pte);
        level := level - 1;
      }
    }

    /** The entry get_pte finds and the address va_to_pa computes from it. */
    method Translate(root: nat, va: nat) returns (pa: nat, pte: Option<nat>)
      ensures pte == GetPte(mem, root, va) && pa == VaToPa(mem, root, va)
    {
      var cur, level := root, 2;
      while level >= 0
        invariant 0 <= level <= 2 && GetPte(mem, root, va) == GetPte(mem, cur, va, level)
      {
        var e := Word(mem, cur, Index(va / PGSIZE, level));
        if !IsValid(e) { return 0, None; }
        if IsLeaf(e) {
          return FrameOf(e) % PPN_MASK * PGSIZE + va % PGSIZE, Some(e);
        }
        if level == 0 { return 0, None; }
        cur, level := FrameOf(e), level - 1;
      }
    }
  }

  /** What is left of UnmapPage once the walk stands at `table` on `level`. */
  ghost function UnmapFrom(mem: Mem, table: nat, p: nat, level: nat): Mem
    requires level <= 2
    decreases level
  {
    var e := Word(mem, table, Index(p, level));
    if !IsValid(e) then mem
    else if level == 0 then SetWord(mem, table, Index(p, 0), 0)
    else UnmapFrom(mem, FrameOf(e), p, level - 1)
  }
}
