/** Three-level Sv39 page tables (kernel/mem/vm.c), over physical memory seen as frames of 512
    words.  A well-formed tree refines a flat map from virtual page numbers to leaf entries. */
module Sv39 {
  import opened Base

  const PGSIZE := 4096
  const ENTRIES := 512
  const PAGES := 0x800_0000        // 2^27 pages in the 39-bit space
  const VA_TOP := 0x40_0000_0000
  const PHY_TOP := 0xA000_0000
  const PPN_MASK := 0x1000_0000_0000     // 2^44
  const FRAMES := 0x10_0000_0000_0000    // 2^52 frames in a 64-bit physical address
  const PA_SPACE := 0x100_0000_0000_0000 // 2^56 addresses an entry can name

  const PTE_R := 2
  const PTE_W := 4
  const PTE_X := 8
  const PTE_U := 16

  // ---------------------------------------------------------------- entries

  /** An entry is a frame number above ten flag bits. */
  function FrameOf(e: nat): nat { e / 1024 }
  function Flags(e: nat): nat { e % 1024 }

  predicate IsValid(e: nat) { Flags(e) % 2 == 1 }

  /** Has one of the R, W, X bits. */
  predicate IsLeaf(e: nat) { Flags(e) / 2 % 8 != 0 }

  predicate HasBit(e: nat, bit: nat)
    requires bit > 0
  {
    Flags(e) / bit % 2 == 1
  }

  /** `((pa >> 12) << 10) | PTE_V | attr` for an attribute that fits the ten low bits. */
  function Pte(frame: nat, attr: nat): (e: nat)
    requires attr < 1024
    ensures FrameOf(e) == frame && Flags(e) == attr + (1 - attr % 2)
  {
    frame * 1024 + attr + (1 - attr % 2)
  }

  /** Setting V changes no other bit of the attribute. */
  lemma PteFlags(frame: nat, attr: nat)
    requires attr < 1024
    ensures IsValid(Pte(frame, attr)) && (IsLeaf(Pte(frame, attr)) <==> IsLeaf(attr))
    ensures HasBit(Pte(frame, attr), PTE_R) == HasBit(attr, PTE_R)
    ensures HasBit(Pte(frame, attr), PTE_W) == HasBit(attr, PTE_W)
    ensures HasBit(Pte(frame, attr), PTE_U) == HasBit(attr, PTE_U)
  {
    var b := attr + (1 - attr % 2);
    assert b / 2 == attr / 2;
    assert b / 4 == attr / 4;
    assert b / 16 == attr / 16;
  }

  function Pointer(frame: nat): (e: nat)
    ensures FrameOf(e) == frame && Flags(e) == 1
  {
    frame * 1024 + 1
  }

  // ---------------------------------------------------------------- physical memory

  type Mem = map<nat, seq<nat>>

  datatype Phys = Phys(mem: Mem, free: seq<nat>)

  function Zeros(): (z: seq<nat>)
    ensures |z| == ENTRIES && forall k :: 0 <= k < ENTRIES ==> z[k] == 0
  {
    seq(ENTRIES, _ => 0)
  }

  predicate IsTable(mem: Mem, f: nat) {
    f in mem && |mem[f]| == ENTRIES
  }

  function Word(mem: Mem, f: nat, k: nat): nat {
    if f in mem && k < |mem[f]| then mem[f][k] else 0
  }

  function SetWord(mem: Mem, f: nat, k: nat, v: nat): Mem {
    if f in mem && k < |mem[f]| then
      var row: seq<nat> := mem[f][k := v];
      mem[f := row]
    else mem
  }

  /** Fresh zeroed page f, pointed to from word k of table. */
  function Hang(mem: Mem, f: nat, table: nat, k: nat): Mem {
    SetWord(mem[f := Zeros()], table, k, Pointer(f))
  }

  function AlignUp(x: nat): (r: nat)
    ensures r % PGSIZE == 0 && x <= r < x + PGSIZE
  {
    (x + PGSIZE - 1) / PGSIZE * PGSIZE
  }

  /** `va_level(va, level)` in terms of the page number. */
  function Index(p: nat, level: nat): (i: nat)
    requires level <= 2
    ensures i < ENTRIES
  {
    (if level == 2 then p / 262144 else if level == 1 then p / 512 else p) % 512
  }

  // ---------------------------------------------------------------- what the code computes

  /** One non-leaf level of do_vmmap: follow the entry, or hang a fresh zeroed table there. */
  function Descend(w: Phys, table: nat, i: nat): Outcome<(Phys, nat)> {
    var e := Word(w.mem, table, i);
    if IsValid(e) then Ok((w, FrameOf(e)))
    else if w.free == [] then Panic
    else
      var f := w.free[0];
      Ok((Phys(Hang(w.mem, f, table, i), w.free[1..]), f))
  }

  function MapPage(w: Phys, root: nat, p: nat, e: nat): Outcome<Phys> {
    match Descend(w, root, Index(p, 2))
    case Panic => Panic
    case Ok((w1, t1)) =>
      match Descend(w1, t1, Index(p, 1))
      case Panic => Panic
      case Ok((w2, t0)) => Ok(Phys(SetWord(w2.mem, t0, Index(p, 0), e), w2.free))
  }

  function UnmapPage(mem: Mem, root: nat, p: nat): Mem {
    var e2 := Word(mem, root, Index(p, 2));
    if !IsValid(e2) then mem
    else
      var e1 := Word(mem, FrameOf(e2), Index(p, 1));
      if !IsValid(e1) then mem
      else
        var e0 := Word(mem, FrameOf(e1), Index(p, 0));
        if !IsValid(e0) then mem else SetWord(mem, FrameOf(e1), Index(p, 0), 0)
  }

  /** The entry get_pte returns a pointer to. */
  function GetPte(mem: Mem, root: nat, va: nat, level: nat := 2): Option<nat>
    requires level <= 2
    decreases level
  {
    var e := Word(mem, root, Index(va / PGSIZE, level));
    if !IsValid(e) then None
    else if IsLeaf(e) then Some(e)
    else if level == 0 then None
    else GetPte(mem, FrameOf(e), va, level - 1)
  }

  /** The physical address, 0 when there is no translation. */
  function VaToPa(mem: Mem, root: nat, va: nat): nat {
    match GetPte(mem, root, va)
    case None => 0
    case Some(e) => if !IsLeaf(e) then 0 else FrameOf(e) % PPN_MASK * PGSIZE + va % PGSIZE
  }

  /** The frame n pages further on; `pa += PGSIZE` wraps around 64 bits. */
  function FrameAfter(frame: nat, n: nat): (f: nat)
    ensures f < FRAMES
  {
    (frame + n) % FRAMES
  }

  /** The pages p, p + 1, ... below `bound`, mapped to consecutive frames from `first` on, the first n
      of which are used. */
  function MapRange(w: Phys, root: nat, p: nat, bound: nat, first: nat, n: nat, attr: nat): Outcome<Phys>
    requires attr < 1024
    decreases bound - p
  {
    if p >= bound then Ok(w)
    else
      match MapPage(w, root, p, Pte(FrameAfter(first, n), attr))
      case Panic => Panic
      case Ok(w') => MapRange(w', root, p + 1, bound, first, n + 1, attr)
  }

  function UnmapRange(mem: Mem, root: nat, p: nat, bound: nat): Mem
    decreases bound - p
  {
    if p >= bound then mem else UnmapRange(UnmapPage(mem, root, p), root, p + 1, bound)
  }

  /** Where the loop of do_vmmap and vmunmap stops; the sum is taken in 64 bits. */
  function Bound(va: nat, size: nat): nat {
    AlignUp((va + size) % U64)
  }

  function Svmmap(w: Phys, root: nat, va: nat, pa: nat, size: nat, attr: nat): Outcome<Phys>
    requires attr < 1024
  {
    if va % PGSIZE != 0 || pa % PGSIZE != 0 then Panic
    else if (va + size) % U64 > VA_TOP || (pa + size) % U64 > PHY_TOP then Panic
    else MapRange(w, root, va / PGSIZE, Bound(va, size) / PGSIZE, pa / PGSIZE, 0, attr)
  }

  function Vmunmap(mem: Mem, root: nat, va: nat, size: nat): Outcome<Mem> {
    if va % PGSIZE != 0 || (va + size) % U64 > VA_TOP then Panic
    else Ok(UnmapRange(mem, root, va / PGSIZE, Bound(va, size) / PGSIZE))
  }

  // ---------------------------------------------------------------- shape

  /** Which table sits at which place: l1 by top index, l0 by top and middle index. */
  datatype Tables = Tables(l1: map<nat, nat>, l0: map<(nat, nat), nat>)

  ghost predicate Level1Ok(mem: Mem, root: nat, t: Tables) {
    && IsTable(mem, root)
    && (forall i :: i in t.l1 ==> i < ENTRIES && IsTable(mem, t.l1[i]))
    && (forall i :: 0 <= i < ENTRIES ==>
          if i in t.l1 then mem[root][i] == Pointer(t.l1[i]) else !IsValid(mem[root][i]))
  }

  /** What the middle-level slot (i, j) must contain. */
  ghost predicate SlotOk(mem: Mem, t: Tables, i: nat, j: nat)
    requires i in t.l1 && IsTable(mem, t.l1[i]) && j < ENTRIES
  {
    if (i, j) in t.l0 then mem[t.l1[i]][j] == Pointer(t.l0[(i, j)]) else !IsValid(mem[t.l1[i]][j])
  }

  ghost predicate Level0Ok(mem: Mem, t: Tables)
    requires forall i :: i in t.l1 ==> IsTable(mem, t.l1[i])
  {
    && (forall q :: q in t.l0 ==> q.0 in t.l1 && q.1 < ENTRIES && IsTable(mem, t.l0[q]))
    && (forall i, j :: i in t.l1 && 0 <= j < ENTRIES ==> SlotOk(mem, t, i, j))
  }

  /** Each table is reached along one path only. */
  ghost predicate Separate(root: nat, t: Tables) {
    && (forall i, j :: i in t.l1 && j in t.l1 && t.l1[i] == t.l1[j] ==> i == j)
    && (forall q, r :: q in t.l0 && r in t.l0 && t.l0[q] == t.l0[r] ==> q == r)
    && (forall i, q :: i in t.l1 && q in t.l0 ==> t.l1[i] != t.l0[q])
    && (forall i :: i in t.l1 ==> t.l1[i] != root)
    && (forall q :: q in t.l0 ==> t.l0[q] != root)
  }

  ghost predicate IsTableOf(f: nat, root: nat, t: Tables) {
    f == root || f in t.l1.Values || f in t.l0.Values
  }

  /** The pages alloc_page hands out are different and none is a table already. */
  ghost predicate FreeApart(free: seq<nat>, root: nat, t: Tables) {
    && (forall a, b :: 0 <= a < b < |free| ==> free[a] != free[b])
    && (forall a :: 0 <= a < |free| ==> !IsTableOf(free[a], root, t))
  }

  ghost predicate Tree(w: Phys, root: nat, t: Tables) {
    && Level1Ok(w.mem, root, t) && Level0Ok(w.mem, t) && Separate(root, t) && FreeApart(w.free, root, t)
  }

  ghost predicate WellFormed(w: Phys, root: nat) {
    exists t :: Tree(w, root, t)
  }

  ghost function Entry(mem: Mem, t: Tables, i: nat, j: nat, k: nat): nat {
    if (i, j) in t.l0 then Word(mem, t.l0[(i, j)], k) else 0
  }

  /** The flat view: the leaf-level entry of page p, 0 where there is no table for it. */
  ghost function Flat(mem: Mem, t: Tables, p: nat): nat {
    Entry(mem, t, Index(p, 2), Index(p, 1), Index(p, 0))
  }

  ghost predicate SameEntries(m: Mem, t: Tables, m': Mem, t': Tables) {
    forall i, j, k :: i >= 0 && j >= 0 && 0 <= k < ENTRIES ==> Entry(m', t', i, j, k) == Entry(m, t, i, j, k)
  }

  // ---------------------------------------------------------------- index arithmetic

  lemma IndexSplit(p: nat)
    requires p < PAGES
    ensures p == Index(p, 2) * 262144 + Index(p, 1) * 512 + Index(p, 0)
  {
    var q := p / 512;
    assert q / 512 == p / 262144;
  }

  lemma IndexWraps1(p: nat)
    ensures Index(p % PAGES, 1) == Index(p, 1)
  {
    var m, a := p % PAGES, p / PAGES;
    assert p == a * PAGES + m;
    assert p / 512 == a * 262144 + m / 512;
    var x := m / 512;
    assert (a * 262144 + x) % 512 == x % 512;
  }

  lemma IndexWraps2(p: nat)
    ensures Index(p % PAGES, 2) == Index(p, 2)
  {
    var m, a := p % PAGES, p / PAGES;
    assert p == a * PAGES + m;
    assert p / 262144 == a * 512 + m / 262144;
    var x := m / 262144;
    assert (a * 512 + x) % 512 == x % 512;
  }

  lemma IndexWraps0(p: nat)
    ensures Index(p % PAGES, 0) == Index(p, 0)
  {
  }

  // ---------------------------------------------------------------- the walk

  lemma WalkTree(w: Phys, root: nat, t: Tables, va: nat)
    requires Tree(w, root, t)
    ensures var e := Flat(w.mem, t, va / PGSIZE);
      GetPte(w.mem, root, va) == if IsValid(e) && IsLeaf(e) then Some(e) else None
  {
    var p := va / PGSIZE;
    var i, j, k := Index(p, 2), Index(p, 1), Index(p, 0);
    if i in t.l1 {
      var t1 := t.l1[i];
      assert SlotOk(w.mem, t, i, j);
      assert GetPte(w.mem, root, va) == GetPte(w.mem, t1, va, 1);
      if (i, j) in t.l0 {
        assert GetPte(w.mem, t1, va, 1) == GetPte(w.mem, t.l0[(i, j)], va, 0);
      }
    }
  }

  /** va_to_pa of a well-formed tree reads exactly the flat map. */
  lemma VaToPaReadsFlat(w: Phys, root: nat, t: Tables, va: nat)
    requires Tree(w, root, t)
    ensures var e := Flat(w.mem, t, va / PGSIZE % PAGES);
      VaToPa(w.mem, root, va) ==
      if IsValid(e) && IsLeaf(e) then FrameOf(e) % PPN_MASK * PGSIZE + va % PGSIZE else 0
  {
    var p := va / PGSIZE;
    IndexWraps0(p);
    IndexWraps1(p);
    IndexWraps2(p);
    WalkTree(w, root, t, va);
  }

  // ---------------------------------------------------------------- one page

  /** A page off the free list is no table; hanging it at a new place keeps free pages apart. */
  lemma FreshPage(free: seq<nat>, root: nat, t: Tables)
    requires free != [] && FreeApart(free, root, t)
    ensures free[0] != root
    ensures forall a :: a in t.l1 ==> t.l1[a] != free[0]
    ensures forall q :: q in t.l0 ==> t.l0[q] != free[0]
  {
    assert !IsTableOf(free[0], root, t);
    forall a | a in t.l1 ensures t.l1[a] != free[0] {
      assert t.l1[a] in t.l1.Values;
    }
    forall q | q in t.l0 ensures t.l0[q] != free[0] {
      assert t.l0[q] in t.l0.Values;
    }
  }

  lemma FreeStaysApart(free: seq<nat>, root: nat, t: Tables, t': Tables)
    requires free != [] && FreeApart(free, root, t)
    requires t'.l1.Values <= t.l1.Values + {free[0]} && t'.l0.Values <= t.l0.Values + {free[0]}
    ensures FreeApart(free[1..], root, t')
  {
    forall a | 0 <= a < |free| - 1 ensures !IsTableOf(free[1..][a], root, t') {
      assert free[1..][a] == free[a + 1] && !IsTableOf(free[a + 1], root, t);
    }
  }

  ghost predicate Fresh(f: nat, root: nat, t: Tables) {
    f != root && (forall a :: a in t.l1 ==> t.l1[a] != f) && (forall q :: q in t.l0 ==> t.l0[q] != f)
  }

  lemma HangLevel1(mem: Mem, root: nat, t: Tables, i: nat, f: nat)
    requires Level1Ok(mem, root, t) && Level0Ok(mem, t) && Separate(root, t) && Fresh(f, root, t)
    requires i < ENTRIES && i !in t.l1
    ensures var t' := Tables(t.l1[i := f], t.l0);
      Level1Ok(Hang(mem, f, root, i), root, t') && Level0Ok(Hang(mem, f, root, i), t') && Separate(root, t')
  {
    var t' := Tables(t.l1[i := f], t.l0);
    var m := Hang(mem, f, root, i);
    forall a, j | a in t'.l1 && 0 <= j < ENTRIES ensures SlotOk(m, t', a, j) {
      if a != i { assert SlotOk(mem, t, a, j); }
    }
  }

  lemma HangLevel0(mem: Mem, root: nat, t: Tables, i: nat, j: nat, f: nat)
    requires Level1Ok(mem, root, t) && Level0Ok(mem, t) && Separate(root, t) && Fresh(f, root, t)
    requires i in t.l1 && j < ENTRIES && (i, j) !in t.l0
    ensures var t' := Tables(t.l1, t.l0[(i, j) := f]);
      var m := Hang(mem, f, t.l1[i], j);
      Level1Ok(m, root, t') && Level0Ok(m, t') && Separate(root, t')
  {
    var t' := Tables(t.l1, t.l0[(i, j) := f]);
    var m := Hang(mem, f, t.l1[i], j);
    forall a, b | a in t'.l1 && 0 <= b < ENTRIES ensures SlotOk(m, t', a, b) {
      assert SlotOk(mem, t, a, b);
    }
  }

  lemma GrowLevel1(w: Phys, root: nat, t: Tables, i: nat)
    requires Tree(w, root, t) && i < ENTRIES && i !in t.l1 && w.free != []
    ensures Descend(w, root, i).Ok?
    ensures var (w', f) := Descend(w, root, i).value;
      var t' := Tables(t.l1[i := f], t.l0);
      f == w.free[0] && w'.free == w.free[1..] && Tree(w', root, t') && SameEntries(w.mem, t, w'.mem, t')
  {
    FreshPage(w.free, root, t);
    FreeStaysApart(w.free, root, t, Tables(t.l1[i := w.free[0]], t.l0));
    HangLevel1(w.mem, root, t, i, w.free[0]);
    hide Separate;
    hide FreeApart;
  }

  lemma GrowLevel0(w: Phys, root: nat, t: Tables, i: nat, j: nat)
    requires Tree(w, root, t) && i in t.l1 && j < ENTRIES && (i, j) !in t.l0 && w.free != []
    ensures Descend(w, t.l1[i], j).Ok?
    ensures var (w', f) := Descend(w, t.l1[i], j).value;
      var t' := Tables(t.l1, t.l0[(i, j) := f]);
      f == w.free[0] && w'.free == w.free[1..] && Tree(w', root, t') && SameEntries(w.mem, t, w'.mem, t')
  {
    assert SlotOk(w.mem, t, i, j);
    var t' := Tables(t.l1, t.l0[(i, j) := w.free[0]]);
    FreshPage(w.free, root, t);
    FreeStaysApart(w.free, root, t, t');
    HangLevel0(w.mem, root, t, i, j, w.free[0]);
    HangKeepsEntries(w.mem, root, t, i, j, w.free[0]);
    hide Separate;
    hide FreeApart;
    hide SameEntries;
  }

  lemma HangKeepsEntries(mem: Mem, root: nat, t: Tables, i: nat, j: nat, f: nat)
    requires Separate(root, t) && Fresh(f, root, t) && i in t.l1 && (i, j) !in t.l0
    ensures SameEntries(mem, t, Hang(mem, f, t.l1[i], j), Tables(t.l1, t.l0[(i, j) := f]))
  {
  }

  lemma SetLeaf(w: Phys, root: nat, t: Tables, i: nat, j: nat, k: nat, v: nat)
    requires Tree(w, root, t) && (i, j) in t.l0 && k < ENTRIES
    ensures var m := SetWord(w.mem, t.l0[(i, j)], k, v);
      && Tree(Phys(m, w.free), root, t)
      && forall a, b, c :: a >= 0 && b >= 0 && 0 <= c < ENTRIES ==>
           Entry(m, t, a, b, c) == if (a, b, c) == (i, j, k) then v else Entry(w.mem, t, a, b, c)
  {
    var m := SetWord(w.mem, t.l0[(i, j)], k, v);
    forall a, b | a in t.l1 && 0 <= b < ENTRIES ensures SlotOk(m, t, a, b) {
      assert SlotOk(w.mem, t, a, b);
    }
  }

  // ---------------------------------------------------------------- what a mapping touches

  ghost function TableSet(root: nat, t: Tables): set<nat> {
    {root} + t.l1.Values + t.l0.Values
  }

  /** Outside s, m' is m. */
  ghost predicate Within(s: set<nat>, m: Mem, m': Mem) {
    forall f :: f !in s ==> (f in m' <==> f in m) && (f in m ==> m'[f] == m[f])
  }

  /** From w to w' the tree gains tables off the free list, and nothing but its tables is written. */
  ghost predicate Takes(w: Phys, w': Phys, root: nat, t: Tables, t': Tables) {
    && TableSet(root, t) <= TableSet(root, t') && Within(TableSet(root, t'), w.mem, w'.mem)
    && (forall f :: f in w'.free ==> f in w.free)
    && (forall f :: f in TableSet(root, t') ==> f in TableSet(root, t) || (f in w.free && f !in w'.free))
  }

  lemma TakesNothing(w: Phys, root: nat, t: Tables)
    ensures Takes(w, w, root, t, t)
  {
  }

  lemma TakesTwice(w: Phys, w1: Phys, w2: Phys, root: nat, t: Tables, t1: Tables, t2: Tables)
    requires Takes(w, w1, root, t, t1) && Takes(w1, w2, root, t1, t2)
    ensures Takes(w, w2, root, t, t2)
  {
    hide TableSet;
  }

  /** The first free page, off the list. */
  lemma TakenOff(free: seq<nat>, root: nat, t: Tables)
    requires free != [] && FreeApart(free, root, t)
    ensures free[0] in free && free[0] !in free[1..] && forall f :: f in free[1..] ==> f in free
  {
    forall f | f in free[1..] ensures f in free && f != free[0] {
      var i :| 0 <= i < |free[1..]| && free[1..][i] == f;
      assert free[i + 1] == f;
    }
  }

  lemma Takes1(w: Phys, root: nat, t: Tables, i: nat, f: nat)
    requires FreeApart(w.free, root, t) && w.free != [] && f == w.free[0] && i !in t.l1
    ensures Takes(w, Phys(Hang(w.mem, f, root, i), w.free[1..]), root, t, Tables(t.l1[i := f], t.l0))
  {
    TakenOff(w.free, root, t);
    MoreValues(t.l1, i, f);
  }

  lemma Takes0(w: Phys, root: nat, t: Tables, i: nat, j: nat, f: nat)
    requires FreeApart(w.free, root, t) && w.free != [] && f == w.free[0] && i in t.l1 && (i, j) !in t.l0
    ensures Takes(w, Phys(Hang(w.mem, f, t.l1[i], j), w.free[1..]), root, t, Tables(t.l1, t.l0[(i, j) := f]))
  {
    TakenOff(w.free, root, t);
    MoreValues(t.l0, (i, j), f);
    assert t.l1[i] in t.l1.Values;
  }

  lemma MoreValues<K>(m: map<K, nat>, k: K, f: nat)
    requires k !in m
    ensures m[k := f].Values == m.Values + {f}
  {
    var n := m[k := f];
    forall x | x in m.Values + {f} ensures x in n.Values {
      if x == f { assert n[k] == f; } else { var q :| q in m && m[q] == x; assert n[q] == x; }
    }
  }

  lemma ReachLevel1(w: Phys, root: nat, t: Tables, i: nat) returns (s: Tables)
    requires Tree(w, root, t) && i < ENTRIES && Descend(w, root, i).Ok?
    ensures var (w1, t1) := Descend(w, root, i).value;
      && Tree(w1, root, s) && SameEntries(w.mem, t, w1.mem, s)
      && i in s.l1 && s.l1[i] == t1 && s.l0 == t.l0 && Takes(w, w1, root, t, s)
      && (if i in t.l1 then w1 == w && s == t else w.free != [] && w1.free == w.free[1..])
  {
    s := t;
    if i !in t.l1 {
      GrowLevel1(w, root, t, i);
      s := Tables(t.l1[i := Descend(w, root, i).value.1], t.l0);
      Takes1(w, root, t, i, w.free[0]);
    } else {
      TakesNothing(w, root, t);
    }
    hide Takes;
  }

  lemma ReachLevel0(w: Phys, root: nat, t: Tables, i: nat, j: nat) returns (s: Tables)
    requires Tree(w, root, t) && i in t.l1 && j < ENTRIES && Descend(w, t.l1[i], j).Ok?
    ensures var (w1, t0) := Descend(w, t.l1[i], j).value;
      && Tree(w1, root, s) && SameEntries(w.mem, t, w1.mem, s)
      && (i, j) in s.l0 && s.l0[(i, j)] == t0 && Takes(w, w1, root, t, s)
      && (if (i, j) in t.l0 then w1 == w && s == t else w.free != [] && w1.free == w.free[1..])
  {
    assert SlotOk(w.mem, t, i, j);
    s := t;
    if (i, j) !in t.l0 {
      GrowLevel0(w, root, t, i, j);
      s := Tables(t.l1, t.l0[(i, j) := Descend(w, t.l1[i], j).value.1]);
      Takes0(w, root, t, i, j, w.free[0]);
    } else {
      TakesNothing(w, root, t);
    }
    hide Takes;
  }

  /** The walk of do_vmmap finds or creates the leaf table of page p and disturbs nothing else. */
  lemma ReachLeafTable(w: Phys, root: nat, t: Tables, i: nat, j: nat) returns (t': Tables)
    requires Tree(w, root, t) && i < ENTRIES && j < ENTRIES && Descend(w, root, i).Ok?
    requires var (w1, t1) := Descend(w, root, i).value; Descend(w1, t1, j).Ok?
    ensures var (w1, t1) := Descend(w, root, i).value;
      var (w2, t0) := Descend(w1, t1, j).value;
      && Tree(w2, root, t') && SameEntries(w.mem, t, w2.mem, t') && Takes(w, w2, root, t, t')
      && (i, j) in t'.l0 && t'.l0[(i, j)] == t0
      && ((i, j) in t.l0 ==> w2 == w && t' == t)
      && |w2.free| <= |w.free| <= |w2.free| + 2 && w2.free == w.free[|w.free| - |w2.free|..]
  {
    LeafTableHasParent(w, root, t, i, j);
    hide Tree;
    hide Entry;
    hide Descend;
    hide Takes;
    var s := ReachLevel1(w, root, t, i);
    var (w1, t1) := Descend(w, root, i).value;
    t' := ReachLevel0(w1, root, s, i, j);
    TakesTwice(w, w1, Descend(w1, t1, j).value.0, root, t, s, t');
  }

  lemma LeafTableHasParent(w: Phys, root: nat, t: Tables, i: nat, j: nat)
    requires Tree(w, root, t)
    ensures (i, j) in t.l0 ==> i in t.l1
  {
    if (i, j) in t.l0 { assert (i, j).0 in t.l1; }
  }

  ghost predicate FlatSet(m: Mem, t: Tables, m': Mem, t': Tables, p: nat, e: nat) {
    forall q :: 0 <= q < PAGES ==> Flat(m', t', q) == if q == p then e else Flat(m, t, q)
  }

  lemma EntrySetIsFlatSet(m: Mem, t: Tables, m': Mem, t': Tables, p: nat, e: nat)
    requires p < PAGES
    requires forall a, b, c :: a >= 0 && b >= 0 && 0 <= c < ENTRIES ==>
               Entry(m', t', a, b, c) ==
               if (a, b, c) == (Index(p, 2), Index(p, 1), Index(p, 0)) then e else Entry(m, t, a, b, c)
    ensures FlatSet(m, t, m', t', p, e)
  {
    forall q | 0 <= q < PAGES ensures Flat(m', t', q) == if q == p then e else Flat(m, t, q) {
      IndexSplit(p);
      IndexSplit(q);
    }
  }

  /** Mapping one page sets one point of the flat map and keeps the tree's shape. */
  lemma MapPageRefines(w: Phys, root: nat, t: Tables, p: nat, e: nat) returns (t': Tables)
    requires Tree(w, root, t) && p < PAGES && MapPage(w, root, p, e).Ok?
    ensures var w' := MapPage(w, root, p, e).value;
      && Tree(w', root, t') && FlatSet(w.mem, t, w'.mem, t', p, e) && Takes(w, w', root, t, t')
      && |w'.free| <= |w.free| <= |w'.free| + 2 && w'.free == w.free[|w.free| - |w'.free|..]
      && (Index(p, 2), Index(p, 1)) in t'.l0
      && ((Index(p, 2), Index(p, 1)) in t.l0 ==> w'.free == w.free)
  {
    var i, j, k := Index(p, 2), Index(p, 1), Index(p, 0);
    t' := ReachLeafTable(w, root, t, i, j);
    var (w1, t1) := Descend(w, root, i).value;
    var (w2, t0) := Descend(w1, t1, j).value;
    SetLeaf(w2, root, t', i, j, k, e);
    LeafTakes(w, w2, root, t, t', i, j, k, e);
    EntrySetIsFlatSet(w.mem, t, SetWord(w2.mem, t0, k, e), t', p, e);
    hide Takes;
  }

  lemma LeafTakes(w: Phys, w2: Phys, root: nat, t: Tables, t': Tables, i: nat, j: nat, k: nat, e: nat)
    requires Takes(w, w2, root, t, t') && (i, j) in t'.l0
    ensures Takes(w, Phys(SetWord(w2.mem, t'.l0[(i, j)], k, e), w2.free), root, t, t')
  {
    assert t'.l0[(i, j)] in t'.l0.Values;
  }

  /** A page whose leaf table exists can be mapped without memory. */
  lemma MapPageInPlace(w: Phys, root: nat, t: Tables, p: nat, e: nat)
    requires Tree(w, root, t) && p < PAGES && (Index(p, 2), Index(p, 1)) in t.l0
    ensures MapPage(w, root, p, e).Ok? && MapPage(w, root, p, e).value.free == w.free
  {
    assert SlotOk(w.mem, t, Index(p, 2), Index(p, 1));
  }

  /** The trampoline page shares its tables with the trapframe page below it, so mapping it with no
      owning task allocates nothing (kernel/task/task.c:100-106). */
  lemma TrampolineIsFree(w: Phys, root: nat, e: nat, e': nat)
    requires WellFormed(w, root) && MapPage(w, root, VA_TOP / PGSIZE - 2, e).Ok?
    ensures var w1 := MapPage(w, root, VA_TOP / PGSIZE - 2, e).value;
      && MapPage(w1, root, VA_TOP / PGSIZE - 1, e').Ok?
      && MapPage(w1, root, VA_TOP / PGSIZE - 1, e').value.free == w1.free
  {
    var t :| Tree(w, root, t);
    TrapframeBelowTrampoline();
    hide Tree;
    hide MapPage;
    hide Index;
    var t1 := MapPageRefines(w, root, t, VA_TOP / PGSIZE - 2, e);
    MapPageInPlace(MapPage(w, root, VA_TOP / PGSIZE - 2, e).value, root, t1, VA_TOP / PGSIZE - 1, e');
  }

  lemma TrapframeBelowTrampoline()
    ensures Index(VA_TOP / PGSIZE - 2, 2) == Index(VA_TOP / PGSIZE - 1, 2)
    ensures Index(VA_TOP / PGSIZE - 2, 1) == Index(VA_TOP / PGSIZE - 1, 1)
  {
  }

  // ---------------------------------------------------------------- ranges

  ghost predicate FlatRange(m: Mem, t: Tables, m': Mem, t': Tables, p: nat, bound: nat, first: nat, n: nat, attr: nat)
    requires attr < 1024
  {
    forall q :: 0 <= q < PAGES ==>
      Flat(m', t', q) == if p <= q < bound then Pte(FrameAfter(first, n + (q - p)), attr) else Flat(m, t, q)
  }

  lemma FlatRangeStep(m: Mem, t: Tables, m1: Mem, t1: Tables, m': Mem, t': Tables, p: nat, bound: nat,
                      first: nat, n: nat, attr: nat)
    requires attr < 1024 && p < bound
    requires FlatSet(m, t, m1, t1, p, Pte(FrameAfter(first, n), attr))
    requires FlatRange(m1, t1, m', t', p + 1, bound, first, n + 1, attr)
    ensures FlatRange(m, t, m', t', p, bound, first, n, attr)
  {
    hide Pte;
    hide Flat;
    hide FrameAfter;
    forall q | 0 <= q < PAGES
      ensures Flat(m', t', q) == if p <= q < bound then Pte(FrameAfter(first, n + (q - p)), attr) else Flat(m, t, q)
    {
      assert Flat(m1, t1, q) == if q == p then Pte(FrameAfter(first, n), attr) else Flat(m, t, q);
      if p < q < bound { assert n + 1 + (q - (p + 1)) == n + (q - p); }
    }
  }

  /** Adding a page size n times and once more. */
  lemma FrameStep(first: nat, n: nat)
    ensures FrameAfter(FrameAfter(first, n), 1) == FrameAfter(first, n + 1)
    ensures first < FRAMES ==> FrameAfter(first, 0) == first
  {
  }

  lemma {:induction false} MapRangeRefines(w: Phys, root: nat, t: Tables, p: nat, bound: nat, first: nat, n: nat, attr: nat)
    returns (t': Tables)
    requires Tree(w, root, t) && p <= bound <= PAGES && attr < 1024
    requires MapRange(w, root, p, bound, first, n, attr).Ok?
    ensures var w' := MapRange(w, root, p, bound, first, n, attr).value;
      && Tree(w', root, t') && FlatRange(w.mem, t, w'.mem, t', p, bound, first, n, attr) && Takes(w, w', root, t, t')
      && |w'.free| <= |w.free| && w'.free == w.free[|w.free| - |w'.free|..]
    decreases bound - p
  {
    hide Tree;
    hide Pte;
    hide MapPage;
    hide FlatSet;
    hide FrameAfter;
    if p == bound {
      t' := t;
      TakesNothing(w, root, t);
    } else {
      hide Takes;
      var e := Pte(FrameAfter(first, n), attr);
      var w1 := MapPage(w, root, p, e).value;
      var t1 := MapPageRefines(w, root, t, p, e);
      t' := MapRangeRefines(w1, root, t1, p + 1, bound, first, n + 1, attr);
      FlatRangeStep(w.mem, t, w1.mem, t1, MapRange(w, root, p, bound, first, n, attr).value.mem, t', p, bound, first, n, attr);
      TakesTwice(w, w1, MapRange(w, root, p, bound, first, n, attr).value, root, t, t1, t');
    }
  }

  /** The canonical 39-bit address of x. */
  function Canon(x: nat): nat {
    x / PGSIZE % PAGES * PGSIZE + x % PGSIZE
  }

  lemma CanonInRange(x: nat, va: nat, bound: nat)
    requires va % PGSIZE == 0 && bound % PGSIZE == 0
    ensures va <= Canon(x) < bound <==> va / PGSIZE <= x / PGSIZE % PAGES < bound / PGSIZE
  {
    var q := x / PGSIZE % PAGES;
    assert va == va / PGSIZE * PGSIZE && bound == bound / PGSIZE * PGSIZE;
  }

  lemma BoundFits(va: nat, size: nat)
    requires va % PGSIZE == 0 && va < U64 && size < U64 && (va + size) % U64 <= VA_TOP
    ensures Bound(va, size) <= VA_TOP
    ensures va + size >= U64 ==> Bound(va, size) <= va
    ensures va + size < U64 ==> va <= va + size <= Bound(va, size) < va + size + PGSIZE
  {
  }

  lemma MappedAddress(va: nat, pa: nat, x: nat)
    requires va % PGSIZE == 0 && pa % PGSIZE == 0 && va <= Canon(x)
    ensures var q := x / PGSIZE % PAGES;
      && q >= va / PGSIZE
      && FrameAfter(pa / PGSIZE, q - va / PGSIZE) % PPN_MASK * PGSIZE + x % PGSIZE == (pa + (Canon(x) - va)) % PA_SPACE
  {
    var q := x / PGSIZE % PAGES;
    var n := pa / PGSIZE + (q - va / PGSIZE);
    FramesMask(n);
    assert pa + (Canon(x) - va) == n * PGSIZE + x % PGSIZE;
    var a, m := n / PPN_MASK, n % PPN_MASK;
    assert n * PGSIZE + x % PGSIZE == a * PA_SPACE + (m * PGSIZE + x % PGSIZE);
  }

  lemma FramesMask(n: nat)
    ensures n % FRAMES % PPN_MASK == n % PPN_MASK
  {
    var a, m := n / FRAMES, n % FRAMES;
    assert n == a * FRAMES + m;
  }

  ghost predicate SvmmapAt(w: Phys, w': Phys, root: nat, va: nat, pa: nat, size: nat, attr: nat, x: nat) {
    VaToPa(w'.mem, root, x) ==
    if va <= Canon(x) < Bound(va, size) then (if IsLeaf(attr) then (pa + (Canon(x) - va)) % PA_SPACE else 0)
    else VaToPa(w.mem, root, x)
  }

  lemma SvmmapTranslates(w: Phys, t: Tables, w': Phys, t': Tables, root: nat, va: nat, pa: nat, size: nat, attr: nat, x: nat)
    requires Tree(w, root, t) && Tree(w', root, t') && attr < 1024
    requires va % PGSIZE == 0 && pa % PGSIZE == 0
    requires FlatRange(w.mem, t, w'.mem, t', va / PGSIZE, Bound(va, size) / PGSIZE, pa / PGSIZE, 0, attr)
    ensures SvmmapAt(w, w', root, va, pa, size, attr, x)
  {
    VaToPaReadsFlat(w, root, t, x);
    VaToPaReadsFlat(w', root, t', x);
    hide Tree;
    hide VaToPa;
    CanonInRange(x, va, Bound(va, size));
    var q := x / PGSIZE % PAGES;
    if va <= Canon(x) < Bound(va, size) {
      MappedAddress(va, pa, x);
      assert 0 + (q - va / PGSIZE) == q - va / PGSIZE;
      PteFlags(FrameAfter(pa / PGSIZE, q - va / PGSIZE), attr);
      hide FrameAfter;
      hide Pte;
    }
  }

  /** svmmap: inside the page-rounded range every address translates to pa + (x - va) (as an entry can
      name it, that is modulo 2^56), every other translation is unchanged, the tree stays well formed,
      and the pages it took came off the front of the free list. */
  lemma SvmmapRefines(w: Phys, root: nat, va: nat, pa: nat, size: nat, attr: nat, x: nat)
    requires WellFormed(w, root) && attr < 1024 && va < U64 && pa < U64 && size < U64
    requires Svmmap(w, root, va, pa, size, attr).Ok?
    ensures var w' := Svmmap(w, root, va, pa, size, attr).value;
      && WellFormed(w', root) && SvmmapAt(w, w', root, va, pa, size, attr, x)
      && |w'.free| <= |w.free| && w'.free == w.free[|w.free| - |w'.free|..]
  {
    var t :| Tree(w, root, t);
    hide Tree;
    var p, bound, frame := va / PGSIZE, Bound(va, size) / PGSIZE, pa / PGSIZE;
    var w' := Svmmap(w, root, va, pa, size, attr).value;
    BoundFits(va, size);
    if p <= bound {
      var t' := MapRangeRefines(w, root, t, p, bound, frame, 0, attr);
      SvmmapTranslates(w, t, w', t', root, va, pa, size, attr, x);
    }
  }

  /** Below 2^39 an address is its own canonical form. */
  lemma CanonBelow(x: nat)
    requires x < 2 * VA_TOP
    ensures Canon(x) == x && x / PGSIZE % PAGES == x / PGSIZE < PAGES
  {
  }

  /** The same in addresses: every one from va up to va + size is mapped, none before va and none in a
      page from va + size on changes; a range that wraps around 64 bits maps nothing. */
  lemma SvmmapMaps(w: Phys, root: nat, va: nat, pa: nat, size: nat, attr: nat, x: nat)
    requires WellFormed(w, root) && attr < 1024 && va < U64 && pa < U64 && size < U64 && x < 2 * VA_TOP
    requires Svmmap(w, root, va, pa, size, attr).Ok?
    ensures var w' := Svmmap(w, root, va, pa, size, attr).value;
      && (va <= x < va + size && va + size < U64 ==>
            VaToPa(w'.mem, root, x) == if attr / 2 % 8 != 0 then (pa + (x - va)) % PA_SPACE else 0)
      && (x < va || x - x % 4096 >= va + size || va + size >= U64 ==>
            VaToPa(w'.mem, root, x) == VaToPa(w.mem, root, x))
  {
    SvmmapChecks(w, root, va, pa, size, attr);
    SvmmapRefines(w, root, va, pa, size, attr, x);
    InRange(va, size, x);
    LeafBits(attr);
    hide *;
    AtAddress(w, Svmmap(w, root, va, pa, size, attr).value, root, va, pa, size, attr, x);
  }

  lemma AtAddress(w: Phys, w': Phys, root: nat, va: nat, pa: nat, size: nat, attr: nat, x: nat)
    requires SvmmapAt(w, w', root, va, pa, size, attr, x) && Canon(x) == x
    ensures va <= x < Bound(va, size) ==> VaToPa(w'.mem, root, x) == if IsLeaf(attr) then (pa + (x - va)) % PA_SPACE else 0
    ensures !(va <= x < Bound(va, size)) ==> VaToPa(w'.mem, root, x) == VaToPa(w.mem, root, x)
  {
    hide VaToPa;
    hide Bound;
    hide Canon;
    hide IsLeaf;
  }

  lemma LeafBits(attr: nat)
    requires attr < 1024
    ensures IsLeaf(attr) <==> attr / 2 % 8 != 0
  {
  }

  /** Which addresses the loops reach. */
  lemma InRange(va: nat, size: nat, x: nat)
    requires va % PGSIZE == 0 && va < U64 && size < U64 && (va + size) % U64 <= VA_TOP && x < 2 * VA_TOP
    ensures Canon(x) == x
    ensures va <= x < va + size && va + size < U64 ==> va <= x < Bound(va, size)
    ensures x < va || x - x % 4096 >= va + size || va + size >= U64 ==> !(va <= x < Bound(va, size))
  {
    CanonBelow(x);
    BoundFits(va, size);
    if va + size < U64 { BoundRounds(va, size); }
    hide Bound;
    hide Canon;
  }

  lemma BoundRounds(va: nat, size: nat)
    requires va + size < U64
    ensures Bound(va, size) == va + size + 4095 - (va + size + 4095) % 4096
  {
  }

  /** The entry behind such an address carries exactly the attributes asked for. */
  lemma SvmmapEntry(w: Phys, root: nat, va: nat, pa: nat, size: nat, attr: nat, x: nat)
    requires WellFormed(w, root) && attr < 1024 && IsLeaf(attr) && va < U64 && pa < U64 && size < U64
    requires Svmmap(w, root, va, pa, size, attr).Ok? && va <= x < va + size < U64 && x < 2 * VA_TOP
    ensures GetPte(Svmmap(w, root, va, pa, size, attr).value.mem, root, x)
         == Some(Pte(FrameAfter(pa / PGSIZE, x / PGSIZE - va / PGSIZE), attr))
  {
    SvmmapChecks(w, root, va, pa, size, attr);
    BoundFits(va, size);
    PageInRange(va, Bound(va, size), x);
    CanonBelow(x);
    var t' := SvmmapFlat(w, root, va, pa, size, attr);
    hide *;
    EntryInTree(Svmmap(w, root, va, pa, size, attr).value, root, t', FrameAfter(pa / PGSIZE, x / PGSIZE - va / PGSIZE), attr, x);
  }

  lemma SvmmapFlat(w: Phys, root: nat, va: nat, pa: nat, size: nat, attr: nat) returns (t': Tables)
    requires WellFormed(w, root) && attr < 1024 && va < U64 && pa < U64 && size < U64
    requires Svmmap(w, root, va, pa, size, attr).Ok? && va / PGSIZE <= Bound(va, size) / PGSIZE
    ensures Tree(Svmmap(w, root, va, pa, size, attr).value, root, t')
    ensures forall q :: va / PGSIZE <= q < Bound(va, size) / PGSIZE && q < PAGES ==>
      Flat(Svmmap(w, root, va, pa, size, attr).value.mem, t', q) == Pte(FrameAfter(pa / PGSIZE, q - va / PGSIZE), attr)
  {
    var t :| Tree(w, root, t);
    SvmmapChecks(w, root, va, pa, size, attr);
    BoundFits(va, size);
    hide Tree;
    t' := MapRangeRefines(w, root, t, va / PGSIZE, Bound(va, size) / PGSIZE, pa / PGSIZE, 0, attr);
    hide MapRange;
    hide Bound;
    hide Flat;
    hide Pte;
    hide FrameAfter;
    forall q | va / PGSIZE <= q < Bound(va, size) / PGSIZE && q < PAGES
      ensures Flat(Svmmap(w, root, va, pa, size, attr).value.mem, t', q) == Pte(FrameAfter(pa / PGSIZE, q - va / PGSIZE), attr)
    {
      assert 0 + (q - va / PGSIZE) == q - va / PGSIZE;
    }
  }

  lemma EntryInTree(w: Phys, root: nat, t: Tables, frame: nat, attr: nat, x: nat)
    requires Tree(w, root, t) && attr < 1024 && IsLeaf(attr) && Flat(w.mem, t, x / PGSIZE) == Pte(frame, attr)
    ensures GetPte(w.mem, root, x) == Some(Pte(frame, attr))
  {
    WalkTree(w, root, t, x);
    PteFlags(frame, attr);
    hide *;
  }

  lemma PageInRange(va: nat, bound: nat, x: nat)
    requires va % PGSIZE == 0 && bound % PGSIZE == 0 && va <= x < bound
    ensures va / PGSIZE <= x / PGSIZE < bound / PGSIZE && va / PGSIZE <= bound / PGSIZE
  {
  }

  /** svmmap panics on a range its check refuses, and otherwise only for want of pages: two for each page
      mapped are enough. */
  lemma SvmmapSucceeds(w: Phys, root: nat, va: nat, pa: nat, size: nat, attr: nat)
    requires WellFormed(w, root) && attr < 1024 && va < U64 && pa < U64 && size < U64
    requires |w.free| >= 2 * (size / PGSIZE + 1)
    ensures Svmmap(w, root, va, pa, size, attr).Ok? <==>
            va % 4096 == 0 && pa % 4096 == 0 && (va + size) % U64 <= VA_TOP && (pa + size) % U64 <= PHY_TOP
  {
    if va % PGSIZE == 0 && pa % PGSIZE == 0 && (va + size) % U64 <= VA_TOP && (pa + size) % U64 <= PHY_TOP {
      var t :| Tree(w, root, t);
      BoundFits(va, size);
      var p, bound := va / PGSIZE, Bound(va, size) / PGSIZE;
      if p < bound {
        PagesFor(va, size);
        hide Tree;
        hide Bound;
        MapRangeSucceeds(w, root, t, p, bound, pa / PGSIZE, 0, attr);
      }
    }
  }

  lemma PagesFor(va: nat, size: nat)
    requires va % PGSIZE == 0 && va + size < U64
    ensures Bound(va, size) / PGSIZE - va / PGSIZE <= size / PGSIZE + 1
  {
    BoundRounds(va, size);
  }

  lemma {:induction false} MapRangeSucceeds(w: Phys, root: nat, t: Tables, p: nat, bound: nat, first: nat, n: nat, attr: nat)
    requires Tree(w, root, t) && p <= bound <= PAGES && attr < 1024 && |w.free| >= 2 * (bound - p)
    ensures MapRange(w, root, p, bound, first, n, attr).Ok?
    decreases bound - p
  {
    if p < bound {
      hide *;
      var e := Pte(FrameAfter(first, n), attr);
      var t1 := MapPageNext(w, root, t, p, e);
      MapRangeSucceeds(MapPage(w, root, p, e).value, root, t1, p + 1, bound, first, n + 1, attr);
      MapRangeOne(w, root, p, bound, first, n, attr);
    } else {
      hide Tree;
    }
  }

  lemma MapRangeOne(w: Phys, root: nat, p: nat, bound: nat, first: nat, n: nat, attr: nat)
    requires attr < 1024 && p < bound && MapPage(w, root, p, Pte(FrameAfter(first, n), attr)).Ok?
    ensures MapRange(w, root, p, bound, first, n, attr)
         == MapRange(MapPage(w, root, p, Pte(FrameAfter(first, n), attr)).value, root, p + 1, bound, first, n + 1, attr)
  {
    hide MapPage;
    hide Pte;
    hide FrameAfter;
  }

  lemma MapPageNext(w: Phys, root: nat, t: Tables, p: nat, e: nat) returns (t1: Tables)
    requires Tree(w, root, t) && p < PAGES && |w.free| >= 2
    ensures MapPage(w, root, p, e).Ok?
    ensures Tree(MapPage(w, root, p, e).value, root, t1) && |MapPage(w, root, p, e).value.free| >= |w.free| - 2
  {
    MapPageSucceeds(w, root, p, e);
    hide *;
    t1 := MapPageRefines(w, root, t, p, e);
  }

  lemma MapPageSucceeds(w: Phys, root: nat, p: nat, e: nat)
    requires |w.free| >= 2
    ensures MapPage(w, root, p, e).Ok?
  {
  }

  /** The translation is exactly pa + (x - va) if and only if that address fits 56 bits, ... */
  lemma SvmmapExact(w: Phys, root: nat, va: nat, pa: nat, size: nat, attr: nat, x: nat)
    requires WellFormed(w, root) && attr < 1024 && IsLeaf(attr) && va < U64 && pa < U64 && size < U64
    requires Svmmap(w, root, va, pa, size, attr).Ok? && va <= Canon(x) < Bound(va, size)
    ensures VaToPa(Svmmap(w, root, va, pa, size, attr).value.mem, root, x) == pa + (Canon(x) - va)
            <==> pa + (Canon(x) - va) < PA_SPACE
  {
    SvmmapRefines(w, root, va, pa, size, attr, x);
    var y := pa + (Canon(x) - va);
    var r := VaToPa(Svmmap(w, root, va, pa, size, attr).value.mem, root, x);
    assert r == y % PA_SPACE by {
      hide Svmmap;
      hide VaToPa;
      hide WellFormed;
    }
    hide *;
    NamedExactly(y);
  }

  lemma NamedExactly(y: nat)
    ensures y % PA_SPACE == y <==> y < PA_SPACE
  {
  }

  /** ... which the range check guarantees as long as pa + size does not wrap around 64 bits; ... */
  lemma SvmmapInRange(va: nat, pa: nat, size: nat, x: nat)
    requires va % PGSIZE == 0 && va < U64 && pa + size < U64 && (va + size) % U64 <= VA_TOP && pa + size <= PHY_TOP
    requires va <= Canon(x) < Bound(va, size)
    ensures pa + (Canon(x) - va) < PA_SPACE
  {
    BoundFits(va, size);
  }

  /** ... so, for a call that passes the check and maps anything, every translation is exact if and only
      if pa + size stays below 2^64; ... */
  lemma SvmmapWhole(w: Phys, root: nat, va: nat, pa: nat, size: nat, attr: nat)
    requires WellFormed(w, root) && attr < 1024 && IsLeaf(attr) && va < U64 && pa < U64 && size < U64
    requires Svmmap(w, root, va, pa, size, attr).Ok? && 0 < size && va + size < U64
    ensures AllExact(Svmmap(w, root, va, pa, size, attr).value.mem, root, va, pa, size) <==> pa + size < U64
  {
    SvmmapChecks(w, root, va, pa, size, attr);
    BoundFits(va, size);
    hide *;
    if pa + size < U64 {
      AllInRange(w, root, va, pa, size, attr);
    } else {
      FirstIsHigh(va, pa, size);
      FirstIsWrong(w, root, va, pa, size, attr);
    }
  }

  lemma SvmmapChecks(w: Phys, root: nat, va: nat, pa: nat, size: nat, attr: nat)
    requires attr < 1024 && Svmmap(w, root, va, pa, size, attr).Ok?
    ensures va % PGSIZE == 0 && pa % PGSIZE == 0 && (va + size) % U64 <= VA_TOP && (pa + size) % U64 <= PHY_TOP
    ensures pa + size < U64 ==> pa + size <= PHY_TOP
  {
  }

  lemma AllInRange(w: Phys, root: nat, va: nat, pa: nat, size: nat, attr: nat)
    requires WellFormed(w, root) && attr < 1024 && IsLeaf(attr) && va < U64 && pa < U64 && size < U64
    requires Svmmap(w, root, va, pa, size, attr).Ok? && pa + size < U64 && va + size < U64
    requires va % PGSIZE == 0 && (va + size) % U64 <= VA_TOP && pa + size <= PHY_TOP
    ensures AllExact(Svmmap(w, root, va, pa, size, attr).value.mem, root, va, pa, size)
  {
    hide Svmmap;
    hide VaToPa;
    hide WellFormed;
    hide Canon;
    hide Bound;
    hide IsLeaf;
    BoundFits(va, size);
    var m := Svmmap(w, root, va, pa, size, attr).value.mem;
    forall x: nat | va <= Canon(x) < va + size ensures VaToPa(m, root, x) == pa + (Canon(x) - va) {
      SvmmapExact(w, root, va, pa, size, attr, x);
      SvmmapInRange(va, pa, size, x);
    }
  }

  lemma FirstIsHigh(va: nat, pa: nat, size: nat)
    requires va < va + size < U64 && pa + size >= U64 && va < U64 && size < U64
    requires va % PGSIZE == 0 && (va + size) % U64 <= VA_TOP
    ensures Canon(va) == va && pa >= PA_SPACE
  {
    assert va < VA_TOP;
    CanonOwn(va);
    hide *;
    WrappedIsHigh(va, pa, size);
  }

  lemma FirstIsWrong(w: Phys, root: nat, va: nat, pa: nat, size: nat, attr: nat)
    requires WellFormed(w, root) && attr < 1024 && IsLeaf(attr) && va < U64 && pa < U64 && size < U64
    requires Svmmap(w, root, va, pa, size, attr).Ok? && va < Bound(va, size)
    requires Canon(va) == va < va + size && pa >= PA_SPACE
    ensures !AllExact(Svmmap(w, root, va, pa, size, attr).value.mem, root, va, pa, size)
  {
    hide Svmmap;
    hide VaToPa;
    hide WellFormed;
    hide Canon;
    hide Bound;
    hide IsLeaf;
    SvmmapExact(w, root, va, pa, size, attr, va);
    assert VaToPa(Svmmap(w, root, va, pa, size, attr).value.mem, root, va) != pa + (Canon(va) - va);
  }

  ghost predicate AllExact(m: Mem, root: nat, va: nat, pa: nat, size: nat) {
    forall x: nat :: va <= Canon(x) < va + size ==> VaToPa(m, root, x) == pa + (Canon(x) - va)
  }

  lemma CanonOwn(va: nat)
    requires va % PGSIZE == 0 && va < VA_TOP
    ensures Canon(va) == va
  {
  }

  lemma WrappedIsHigh(va: nat, pa: nat, size: nat)
    requires va + size < U64 && (va + size) % U64 <= VA_TOP && pa + size >= U64
    ensures pa >= PA_SPACE
  {
  }

  /** ... and such a call exists: from any well-formed tree with two free pages, mapping two pages at the
      end of the 64-bit space passes the check, and the first translation is wrong. */
  lemma SvmmapWraps(w: Phys, root: nat)
    requires WellFormed(w, root) && |w.free| >= 2
    ensures Svmmap(w, root, 0, U64 - PGSIZE, 2 * PGSIZE, PTE_R).Ok?
    ensures VaToPa(Svmmap(w, root, 0, U64 - PGSIZE, 2 * PGSIZE, PTE_R).value.mem, root, 0) != U64 - PGSIZE
  {
    TwoPagesFit(w, root, U64 / PGSIZE - 1, PTE_R);
    WrapArguments(w, root);
    hide *;
    WrapRange();
    SvmmapExact(w, root, 0, U64 - PGSIZE, 2 * PGSIZE, PTE_R, 0);
  }

  lemma WrapRange()
    ensures Canon(0) == 0 < Bound(0, 2 * PGSIZE) && IsLeaf(PTE_R) && U64 - PGSIZE >= PA_SPACE
  {
  }

  lemma WrapArguments(w: Phys, root: nat)
    ensures Svmmap(w, root, 0, U64 - PGSIZE, 2 * PGSIZE, PTE_R) == MapRange(w, root, 0, 2, U64 / PGSIZE - 1, 0, PTE_R)
  {
    assert Bound(0, 2 * PGSIZE) / PGSIZE == 2 && (U64 - PGSIZE) / PGSIZE == U64 / PGSIZE - 1;
    hide MapRange;
  }

  /** Pages 0 and 1 need at most two tables. */
  lemma TwoPagesFit(w: Phys, root: nat, first: nat, attr: nat)
    requires WellFormed(w, root) && |w.free| >= 2 && attr < 1024
    ensures MapRange(w, root, 0, 2, first, 0, attr).Ok?
  {
    var t :| Tree(w, root, t);
    var e0, e1 := Pte(FrameAfter(first, 0), attr), Pte(FrameAfter(first, 1), attr);
    assert MapPage(w, root, 0, e0).Ok?;
    var w1 := MapPage(w, root, 0, e0).value;
    hide Tree;
    hide MapPage;
    hide Pte;
    hide FrameAfter;
    var t1 := MapPageRefines(w, root, t, 0, e0);
    assert Index(0, 2) == Index(1, 2) && Index(0, 1) == Index(1, 1);
    MapPageInPlace(w1, root, t1, 1, e1);
    var w2 := MapPage(w1, root, 1, e1).value;
    assert MapRange(w2, root, 2, 2, first, 2, attr) == Ok(w2);
    assert MapRange(w1, root, 1, 2, first, 1, attr) == Ok(w2);
  }

  // ---------------------------------------------------------------- unmapping

  lemma UnmapPageRefines(w: Phys, root: nat, t: Tables, p: nat)
    requires Tree(w, root, t) && p < PAGES
    ensures var m := UnmapPage(w.mem, root, p);
      && Tree(Phys(m, w.free), root, t)
      && FlatSet(w.mem, t, m, t, p, if IsValid(Flat(w.mem, t, p)) then 0 else Flat(w.mem, t, p))
  {
    var i, j, k := Index(p, 2), Index(p, 1), Index(p, 0);
    var m := UnmapPage(w.mem, root, p);
    if i in t.l1 {
      assert SlotOk(w.mem, t, i, j);
    }
    if (i, j) in t.l0 && IsValid(Flat(w.mem, t, p)) {
      SetLeaf(w, root, t, i, j, k, 0);
      EntrySetIsFlatSet(w.mem, t, m, t, p, 0);
    } else {
      assert m == w.mem;
    }
  }

  lemma {:induction false} UnmapRangeRefines(w: Phys, root: nat, t: Tables, p: nat, bound: nat)
    requires Tree(w, root, t) && p <= bound <= PAGES
    ensures var m := UnmapRange(w.mem, root, p, bound);
      && Tree(Phys(m, w.free), root, t)
      && forall q :: 0 <= q < PAGES ==>
           if p <= q < bound then !IsValid(Flat(m, t, q)) else Flat(m, t, q) == Flat(w.mem, t, q)
    decreases bound - p
  {
    hide Tree;
    hide Flat;
    hide UnmapPage;
    if p < bound {
      UnmapPageRefines(w, root, t, p);
      UnmapRangeRefines(Phys(UnmapPage(w.mem, root, p), w.free), root, t, p + 1, bound);
    }
  }

  /** vmunmap removes exactly the translations of its page-rounded range. */
  lemma VmunmapRefines(w: Phys, root: nat, va: nat, size: nat, x: nat)
    requires WellFormed(w, root) && va < U64 && size < U64 && Vmunmap(w.mem, root, va, size).Ok?
    ensures var m := Vmunmap(w.mem, root, va, size).value;
      && WellFormed(Phys(m, w.free), root)
      && VaToPa(m, root, x) == if va <= Canon(x) < Bound(va, size) then 0 else VaToPa(w.mem, root, x)
  {
    var t :| Tree(w, root, t);
    BoundFits(va, size);
    CanonInRange(x, va, Bound(va, size));
    var p, bound := va / PGSIZE, Bound(va, size) / PGSIZE;
    if p <= bound {
      UnmapRangeRefines(w, root, t, p, bound);
      VaToPaReadsFlat(w, root, t, x);
      VaToPaReadsFlat(Phys(Vmunmap(w.mem, root, va, size).value, w.free), root, t, x);
    }
  }

  /** The same in addresses. */
  lemma VmunmapRemoves(w: Phys, root: nat, va: nat, size: nat, x: nat)
    requires WellFormed(w, root) && va < U64 && size < U64 && Vmunmap(w.mem, root, va, size).Ok? && x < 2 * VA_TOP
    ensures var m := Vmunmap(w.mem, root, va, size).value;
      && (va <= x < va + size && va + size < U64 ==> VaToPa(m, root, x) == 0)
      && (x < va || x - x % 4096 >= va + size || va + size >= U64 ==>
            VaToPa(m, root, x) == VaToPa(w.mem, root, x))
  {
    VmunmapRefines(w, root, va, size, x);
    VmunmapAccepts(w.mem, root, va, size);
    InRange(va, size, x);
    hide *;
  }

  /** vmunmap refuses exactly a misaligned or too high range. */
  lemma VmunmapAccepts(mem: Mem, root: nat, va: nat, size: nat)
    ensures Vmunmap(mem, root, va, size).Ok? <==> va % 4096 == 0 && (va + size) % U64 <= VA_TOP
  {
  }

  /** Mapping a range that had no translations and unmapping it again restores every translation. */
  lemma MapThenUnmap(w: Phys, root: nat, va: nat, pa: nat, size: nat, attr: nat, x: nat)
    requires WellFormed(w, root) && attr < 1024 && va < U64 && pa < U64 && size < U64
    requires Svmmap(w, root, va, pa, size, attr).Ok?
    requires forall y: nat :: va <= Canon(y) < Bound(va, size) ==> VaToPa(w.mem, root, y) == 0
    ensures var w' := Svmmap(w, root, va, pa, size, attr).value;
      && Vmunmap(w'.mem, root, va, size).Ok?
      && VaToPa(Vmunmap(w'.mem, root, va, size).value, root, x) == VaToPa(w.mem, root, x)
  {
    SvmmapRefines(w, root, va, pa, size, attr, x);
    VmunmapRefines(Svmmap(w, root, va, pa, size, attr).value, root, va, size, x);
  }

  // ---------------------------------------------------------------- two trees

  /** A well-formed tree all of whose tables are in `own`. */
  ghost predicate TreeIn(w: Phys, root: nat, own: set<nat>) {
    exists t :: Tree(w, root, t) && TableSet(root, t) <= own
  }

  /** Pages handed out between w and w'. */
  ghost function Gone(w: Phys, w': Phys): set<nat> {
    set f | f in w.free && f !in w'.free
  }

  lemma TreeInIs(w: Phys, root: nat, own: set<nat>)
    requires TreeIn(w, root, own)
    ensures WellFormed(w, root) && root in own
  {
    var t :| Tree(w, root, t) && TableSet(root, t) <= own;
    assert root in TableSet(root, t);
  }

  lemma ToTables(root: nat, t: Tables, s: set<nat>)
    requires s !! TableSet(root, t)
    ensures root !in s && (forall i :: i in t.l1 ==> t.l1[i] !in s) && (forall q :: q in t.l0 ==> t.l0[q] !in s)
  {
    forall i | i in t.l1 ensures t.l1[i] !in s { assert t.l1[i] in t.l1.Values; }
    forall q | q in t.l0 ensures t.l0[q] !in s { assert t.l0[q] in t.l0.Values; }
  }

  /** What is written elsewhere leaves a tree as it is. */
  lemma SameTree(w: Phys, w': Phys, root: nat, t: Tables, s: set<nat>)
    requires Tree(w, root, t) && Within(s, w.mem, w'.mem) && s !! TableSet(root, t) && FreeApart(w'.free, root, t)
    ensures Tree(w', root, t)
    ensures forall i, j, k :: Entry(w'.mem, t, i, j, k) == Entry(w.mem, t, i, j, k)
  {
    ToTables(root, t, s);
    hide TableSet;
    hide FreeApart;
    hide Separate;
    assert Level1Ok(w'.mem, root, t);
    forall i, j | i in t.l1 && 0 <= j < ENTRIES ensures SlotOk(w'.mem, t, i, j) { assert SlotOk(w.mem, t, i, j); }
  }

  /** ... and so its translations. */
  lemma SameWalk(w: Phys, w': Phys, root: nat, t: Tables, s: set<nat>, x: nat)
    requires Tree(w, root, t) && Within(s, w.mem, w'.mem) && s !! TableSet(root, t) && FreeApart(w'.free, root, t)
    ensures VaToPa(w'.mem, root, x) == VaToPa(w.mem, root, x)
  {
    SameTree(w, w', root, t, s);
    hide Tree;
    VaToPaReadsFlat(w, root, t, x);
    VaToPaReadsFlat(w', root, t, x);
    hide VaToPa;
    hide IsValid;
    hide IsLeaf;
  }

  ghost predicate Different(free: seq<nat>) {
    forall a, b :: 0 <= a < b < |free| ==> free[a] != free[b]
  }

  /** A tree whose pages were neither written nor put on the free list. */
  lemma OtherTree(w: Phys, w': Phys, root: nat, own: set<nat>, s: set<nat>)
    requires TreeIn(w, root, own) && Within(s, w.mem, w'.mem) && s !! own
    requires Different(w'.free) && forall f :: f in w'.free ==> f !in own
    ensures TreeIn(w', root, own) && forall x: nat :: VaToPa(w'.mem, root, x) == VaToPa(w.mem, root, x)
  {
    var t :| Tree(w, root, t) && TableSet(root, t) <= own;
    forall a | 0 <= a < |w'.free| ensures !IsTableOf(w'.free[a], root, t) { assert w'.free[a] in w'.free; }
    assert FreeApart(w'.free, root, t);
    SameTree(w, w', root, t, s);
    forall x: nat ensures VaToPa(w'.mem, root, x) == VaToPa(w.mem, root, x) { SameWalk(w, w', root, t, s, x); }
  }

  /** svmmap writes nothing but tables of its tree, old ones and pages it takes off the free list. */
  lemma SvmmapTakes(w: Phys, root: nat, own: set<nat>, va: nat, pa: nat, size: nat, attr: nat)
    requires TreeIn(w, root, own) && attr < 1024 && va < U64 && pa < U64 && size < U64
    requires Svmmap(w, root, va, pa, size, attr).Ok?
    ensures var w' := Svmmap(w, root, va, pa, size, attr).value;
      && TreeIn(w', root, own + Gone(w, w')) && Within(own + Gone(w, w'), w.mem, w'.mem)
      && |w'.free| <= |w.free| && w'.free == w.free[|w.free| - |w'.free|..]
  {
    var t :| Tree(w, root, t) && TableSet(root, t) <= own;
    var p, bound, frame := va / PGSIZE, Bound(va, size) / PGSIZE, pa / PGSIZE;
    var w' := Svmmap(w, root, va, pa, size, attr).value;
    BoundFits(va, size);
    assert own + Gone(w, w) == own;
    if p <= bound {
      assert w' == MapRange(w, root, p, bound, frame, 0, attr).value && MapRange(w, root, p, bound, frame, 0, attr).Ok?;
      hide *;
      var t' := MapRangeRefines(w, root, t, p, bound, frame, 0, attr);
      TakesIn(w, w', root, t, t', own);
      TreeInFrom(w', root, t', own + Gone(w, w'));
    } else {
      assert w' == w;
    }
  }

  lemma TreeInFrom(w: Phys, root: nat, t: Tables, own: set<nat>)
    requires Tree(w, root, t) && TableSet(root, t) <= own
    ensures TreeIn(w, root, own)
  {
  }

  lemma TakesIn(w: Phys, w': Phys, root: nat, t: Tables, t': Tables, own: set<nat>)
    requires Takes(w, w', root, t, t') && TableSet(root, t) <= own
    ensures TableSet(root, t') <= own + Gone(w, w') && Within(own + Gone(w, w'), w.mem, w'.mem)
  {
    hide TableSet;
  }

  /** Two trees on different pages: mapping in one changes no translation of the other, and leaves the two
      on different pages. */
  lemma SvmmapIsolates(w: Phys, root: nat, own: set<nat>, other: nat, own': set<nat>,
                       va: nat, pa: nat, size: nat, attr: nat)
    requires TreeIn(w, root, own) && TreeIn(w, other, own') && own !! own' && forall f :: f in w.free ==> f !in own'
    requires attr < 1024 && va < U64 && pa < U64 && size < U64 && Different(w.free)
    requires Svmmap(w, root, va, pa, size, attr).Ok?
    ensures var w' := Svmmap(w, root, va, pa, size, attr).value;
      && TreeIn(w', root, own + Gone(w, w')) && TreeIn(w', other, own') && own + Gone(w, w') !! own'
      && forall x: nat :: VaToPa(w'.mem, other, x) == VaToPa(w.mem, other, x)
  {
    SvmmapTakes(w, root, own, va, pa, size, attr);
    var w' := Svmmap(w, root, va, pa, size, attr).value;
    hide Svmmap;
    hide TreeIn;
    assert forall f :: f in w'.free ==> f in w.free;
    OtherTree(w, w', other, own', own + Gone(w, w'));
  }

  lemma {:induction false} UnmapWithin(w: Phys, root: nat, t: Tables, p: nat, bound: nat)
    requires Tree(w, root, t) && p <= bound <= PAGES
    ensures Within(TableSet(root, t), w.mem, UnmapRange(w.mem, root, p, bound))
    decreases bound - p
  {
    if p < bound {
      UnmapPageRefines(w, root, t, p);
      UnmapPageWithin(w, root, t, p);
      hide Tree;
      hide TableSet;
      hide UnmapPage;
      hide FlatSet;
      UnmapWithin(Phys(UnmapPage(w.mem, root, p), w.free), root, t, p + 1, bound);
    }
  }

  lemma UnmapPageWithin(w: Phys, root: nat, t: Tables, p: nat)
    requires Tree(w, root, t)
    ensures Within(TableSet(root, t), w.mem, UnmapPage(w.mem, root, p))
  {
    var i, j := Index(p, 2), Index(p, 1);
    if i in t.l1 { assert SlotOk(w.mem, t, i, j); }
    if (i, j) in t.l0 { assert t.l0[(i, j)] in t.l0.Values; }
  }

  lemma VmunmapWithin(w: Phys, root: nat, own: set<nat>, va: nat, size: nat)
    requires TreeIn(w, root, own) && va < U64 && size < U64 && Vmunmap(w.mem, root, va, size).Ok?
    ensures var m := Vmunmap(w.mem, root, va, size).value; TreeIn(Phys(m, w.free), root, own) && Within(own, w.mem, m)
  {
    var t :| Tree(w, root, t) && TableSet(root, t) <= own;
    var p, bound := va / PGSIZE, Bound(va, size) / PGSIZE;
    VmunmapIs(w.mem, root, va, size);
    assert p > bound ==> Within(own, w.mem, w.mem) && Tree(Phys(w.mem, w.free), root, t);
    hide Tree;
    hide UnmapRange;
    hide Vmunmap;
    hide Flat;
    hide Bound;
    if p <= bound {
      UnmapWithin(w, root, t, p, bound);
      WithinMore(TableSet(root, t), own, w.mem, UnmapRange(w.mem, root, p, bound));
      hide Within;
      UnmapRangeRefines(w, root, t, p, bound);
    }
    hide TableSet;
  }

  lemma VmunmapIs(mem: Mem, root: nat, va: nat, size: nat)
    requires va < U64 && size < U64 && Vmunmap(mem, root, va, size).Ok?
    ensures Vmunmap(mem, root, va, size).value == UnmapRange(mem, root, va / PGSIZE, Bound(va, size) / PGSIZE)
    ensures Bound(va, size) / PGSIZE <= PAGES
    ensures va / PGSIZE > Bound(va, size) / PGSIZE ==> Vmunmap(mem, root, va, size).value == mem
  {
    BoundFits(va, size);
  }

  lemma WithinMore(s: set<nat>, own: set<nat>, m: Mem, m': Mem)
    requires Within(s, m, m') && s <= own
    ensures Within(own, m, m')
  {
  }

  /** The same for unmapping. */
  lemma VmunmapIsolates(w: Phys, root: nat, own: set<nat>, other: nat, own': set<nat>, va: nat, size: nat)
    requires TreeIn(w, root, own) && TreeIn(w, other, own') && own !! own' && forall f :: f in w.free ==> f !in own'
    requires va < U64 && size < U64 && Vmunmap(w.mem, root, va, size).Ok? && Different(w.free)
    ensures var w' := Phys(Vmunmap(w.mem, root, va, size).value, w.free);
      && TreeIn(w', root, own) && TreeIn(w', other, own')
      && forall x: nat :: VaToPa(w'.mem, other, x) == VaToPa(w.mem, other, x)
  {
    VmunmapWithin(w, root, own, va, size);
    hide *;
    OtherTree(w, Phys(Vmunmap(w.mem, root, va, size).value, w.free), other, own', own);
  }
}
