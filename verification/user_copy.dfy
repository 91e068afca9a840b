/** copy_to_user and copy_from_user (kernel/mem/vm.c), page chunk by page chunk, and the memcpy
    they use (kernel/util/string.c).  RAM is byte addressed; translations come from `Sv39`. */
module UserCopy {
  import opened Base
  import opened Sv39

  type Ram = map<nat, int>

  function At(ram: Ram, a: nat): int {
    if a in ram then ram[a] else 0
  }

  /** `ram` with n bytes at dst replaced by the n bytes of `from` at src. */
  function Put(ram: Ram, from: Ram, dst: nat, src: nat, n: nat): Ram {
    if n == 0 then ram else Put(ram, from, dst, src, n - 1)[dst + n - 1 := At(from, src + n - 1)]
  }

  lemma {:induction false} PutAt(ram: Ram, from: Ram, dst: nat, src: nat, n: nat, a: nat)
    ensures a in Put(ram, from, dst, src, n) <==> a in ram || dst <= a < dst + n
    ensures At(Put(ram, from, dst, src, n), a) == if dst <= a < dst + n then At(from, src + (a - dst)) else At(ram, a)
  {
    if n > 0 { PutAt(ram, from, dst, src, n - 1, a); }
  }

  datatype Direction = ToUser | FromUser

  /** The bits the loop tests: W and U to write user memory, R and U to read it. */
  predicate Permitted(dir: Direction, pte: nat) {
    HasBit(pte, PTE_U) && if dir == ToUser then HasBit(pte, PTE_W) else HasBit(pte, PTE_R)
  }

  predicate Allowed(mem: Mem, root: nat, dir: Direction, x: nat) {
    VaToPa(mem, root, x) != 0 && match GetPte(mem, root, x) case None => false case Some(e) => Permitted(dir, e)
  }

  function Page(x: nat): nat { x / PGSIZE }

  /** The bytes from x on that the loop handles together. */
  function Chunk(x: nat, n: nat): (len: nat)
    ensures len <= n && (n > 0 ==> len > 0)
  {
    Min(AlignUp(x + 1) - x, n)
  }

  /** A chunk stays in one page, and the next one starts a page. */
  lemma ChunkInPage(x: nat, n: nat, y: nat)
    requires x <= y
    ensures y < x + Chunk(x, n) ==> Page(y) == Page(x)
    ensures Chunk(x, n) < n ==> x + Chunk(x, n) == (Page(x) + 1) * PGSIZE
  {
    var q := x / PGSIZE;
    assert AlignUp(x + 1) == (q + 1) * PGSIZE;
  }

  function MoveChunk(ram: Ram, dir: Direction, k: nat, pa: nat, len: nat): Ram {
    if dir == ToUser then Put(ram, ram, pa, k, len) else Put(ram, ram, k, pa, len)
  }

  /** The loop: the memory it leaves and how many bytes it moved before finishing or `kill`. */
  function Copy(ram: Ram, mem: Mem, root: nat, dir: Direction, u: nat, k: nat, n: nat): (r: (Ram, nat))
    ensures r.1 <= n
    decreases n
  {
    if n == 0 || !Allowed(mem, root, dir, u) then (ram, 0)
    else
      var len := Chunk(u, n);
      var ram1 := MoveChunk(ram, dir, k, VaToPa(mem, root, u), len);
      var (ram', done) := Copy(ram1, mem, root, dir, u + len, k + len, n - len);
      (ram', len + done)
  }

  // ---------------------------------------------------------------- byte by byte

  /** Where the byte for user address x and kernel address c is written, and read from. */
  function Dst(mem: Mem, root: nat, dir: Direction, x: nat, c: nat): nat {
    if dir == ToUser then VaToPa(mem, root, x) else c
  }

  function Src(mem: Mem, root: nat, dir: Direction, x: nat, c: nat): nat {
    if dir == ToUser then c else VaToPa(mem, root, x)
  }

  /** The address whose permission decides x: the start of its page, or the start u of the copy. */
  function Gate(u: nat, x: nat): nat {
    if Page(x) == Page(u) then u else Page(x) * PGSIZE
  }

  /** No two of the n user bytes from u on share a physical byte, and none lies in the kernel buffer. */
  ghost predicate NoAlias(mem: Mem, root: nat, u: nat, k: nat, n: nat) {
    && (forall x, y :: u <= x < y < u + n ==> VaToPa(mem, root, x) != VaToPa(mem, root, y))
    && (forall x :: u <= x < u + n ==> !(k <= VaToPa(mem, root, x) < k + n))
  }

  lemma SamePage(mem: Mem, root: nat, x: nat, y: nat, level: nat)
    requires level <= 2 && Page(x) == Page(y)
    ensures GetPte(mem, root, x, level) == GetPte(mem, root, y, level)
    decreases level
  {
    var e := Word(mem, root, Index(x / PGSIZE, level));
    if IsValid(e) && !IsLeaf(e) && level > 0 {
      SamePage(mem, FrameOf(e), x, y, level - 1);
    }
  }

  /** Inside a page the translation is an offset. */
  lemma PageOffset(mem: Mem, root: nat, x: nat, y: nat)
    requires VaToPa(mem, root, x) != 0 && x <= y && Page(y) == Page(x)
    ensures VaToPa(mem, root, y) == VaToPa(mem, root, x) + (y - x)
  {
    SamePage(mem, root, x, y, 2);
    assert y % PGSIZE == x % PGSIZE + (y - x);
  }

  lemma ChunkMoves(ram: Ram, mem: Mem, root: nat, dir: Direction, u: nat, k: nat, n: nat, x: nat)
    requires Allowed(mem, root, dir, u) && u <= x < u + Chunk(u, n)
    ensures At(MoveChunk(ram, dir, k, VaToPa(mem, root, u), Chunk(u, n)), Dst(mem, root, dir, x, k + (x - u))) ==
            At(ram, Src(mem, root, dir, x, k + (x - u)))
  {
    ChunkInPage(u, n, x);
    PageOffset(mem, root, u, x);
    hide VaToPa;
    hide Chunk;
    PutAt(ram, ram, VaToPa(mem, root, u), k, Chunk(u, n), VaToPa(mem, root, x));
    PutAt(ram, ram, k, VaToPa(mem, root, u), Chunk(u, n), k + (x - u));
  }

  /** a is not written by the bytes for user addresses u .. u + n. */
  ghost predicate Untouched(mem: Mem, root: nat, dir: Direction, u: nat, k: nat, n: nat, a: nat) {
    if dir == ToUser then forall x :: u <= x < u + n ==> VaToPa(mem, root, x) != a else !(k <= a < k + n)
  }

  lemma ChunkElsewhere(ram: Ram, mem: Mem, root: nat, dir: Direction, u: nat, k: nat, n: nat, a: nat)
    requires Allowed(mem, root, dir, u) && Untouched(mem, root, dir, u, k, Chunk(u, n), a)
    ensures At(MoveChunk(ram, dir, k, VaToPa(mem, root, u), Chunk(u, n)), a) == At(ram, a)
  {
    var base := if dir == ToUser then VaToPa(mem, root, u) else k;
    if base <= a < base + Chunk(u, n) {
      var x := u + (a - base);
      ChunkInPage(u, n, x);
      PageOffset(mem, root, u, x);
    }
    hide VaToPa;
    hide Chunk;
    PutAt(ram, ram, VaToPa(mem, root, u), k, Chunk(u, n), a);
    PutAt(ram, ram, k, VaToPa(mem, root, u), Chunk(u, n), a);
  }

  /** A copy that moves anything is one chunk and the copy of the rest. */
  lemma CopyFirst(ram: Ram, mem: Mem, root: nat, dir: Direction, u: nat, k: nat, n: nat)
    ensures n == 0 || !Allowed(mem, root, dir, u) ==> Copy(ram, mem, root, dir, u, k, n) == (ram, 0)
    ensures n > 0 && Allowed(mem, root, dir, u) ==>
      var len := Chunk(u, n);
      var rest := Copy(MoveChunk(ram, dir, k, VaToPa(mem, root, u), len), mem, root, dir, u + len, k + len, n - len);
      0 < len <= n && Copy(ram, mem, root, dir, u, k, n) == (rest.0, len + rest.1)
  {
    hide Allowed;
    hide VaToPa;
    hide MoveChunk;
    hide Chunk;
  }

  /** Every byte before the stopping point is the byte it was copied from; ... */
  lemma {:induction false} CopyMoves(ram: Ram, mem: Mem, root: nat, dir: Direction, u: nat, k: nat, n: nat, x: nat)
    requires NoAlias(mem, root, u, k, Copy(ram, mem, root, dir, u, k, n).1)
    requires u <= x < u + Copy(ram, mem, root, dir, u, k, n).1
    ensures At(Copy(ram, mem, root, dir, u, k, n).0, Dst(mem, root, dir, x, k + (x - u))) ==
            At(ram, Src(mem, root, dir, x, k + (x - u)))
    decreases n
  {
    hide VaToPa;
    hide Allowed;
    hide MoveChunk;
    hide Chunk;
    hide Copy;
    CopyFirst(ram, mem, root, dir, u, k, n);
    var len := Chunk(u, n);
    var c := k + (x - u);
    var ram1 := MoveChunk(ram, dir, k, VaToPa(mem, root, u), len);
    if x < u + len {
      ChunkMoves(ram, mem, root, dir, u, k, n, x);
      CopyElsewhere(ram1, mem, root, dir, u + len, k + len, n - len, Dst(mem, root, dir, x, c));
    } else {
      CopyMoves(ram1, mem, root, dir, u + len, k + len, n - len, x);
      assert k + len + (x - (u + len)) == c;
      ChunkElsewhere(ram, mem, root, dir, u, k, n, Src(mem, root, dir, x, c));
    }
  }

  /** ... every byte of memory that none of these was written to is as it was, those the rest of the
      request would have gone to included; ... */
  lemma {:induction false} CopyElsewhere(ram: Ram, mem: Mem, root: nat, dir: Direction, u: nat, k: nat, n: nat, a: nat)
    requires Untouched(mem, root, dir, u, k, Copy(ram, mem, root, dir, u, k, n).1, a)
    ensures At(Copy(ram, mem, root, dir, u, k, n).0, a) == At(ram, a)
    decreases n
  {
    hide VaToPa;
    hide Chunk;
    hide MoveChunk;
    hide Allowed;
    hide Copy;
    CopyFirst(ram, mem, root, dir, u, k, n);
    if n > 0 && Allowed(mem, root, dir, u) {
      var len := Chunk(u, n);
      ChunkElsewhere(ram, mem, root, dir, u, k, n, a);
      CopyElsewhere(MoveChunk(ram, dir, k, VaToPa(mem, root, u), len), mem, root, dir, u + len, k + len, n - len, a);
    }
  }

  ghost predicate AllowedUpTo(mem: Mem, root: nat, dir: Direction, u: nat, stop: nat) {
    forall x :: u <= x < stop ==> Allowed(mem, root, dir, Gate(u, x))
  }

  lemma AllowedNextPage(mem: Mem, root: nat, dir: Direction, u: nat, n: nat, stop: nat)
    requires n > 0 && Allowed(mem, root, dir, u) && u + Chunk(u, n) <= stop <= u + n
    requires AllowedUpTo(mem, root, dir, u + Chunk(u, n), stop)
    ensures AllowedUpTo(mem, root, dir, u, stop)
  {
    var len := Chunk(u, n);
    ChunkInPage(u, n, u);
    hide Allowed;
    forall x | u <= x < stop ensures Allowed(mem, root, dir, Gate(u, x)) {
      if x < u + len {
        ChunkInPage(u, n, x);
      } else {
        GateRest(u, len, x);
      }
    }
  }

  /** ... and it stops at the first address whose page is not permitted, or at the end. */
  lemma {:induction false} CopyStops(ram: Ram, mem: Mem, root: nat, dir: Direction, u: nat, k: nat, n: nat)
    ensures var stop := u + Copy(ram, mem, root, dir, u, k, n).1;
      && AllowedUpTo(mem, root, dir, u, stop)
      && (stop < u + n ==> Gate(u, stop) == stop && !Allowed(mem, root, dir, stop))
    decreases n
  {
    hide Allowed;
    hide VaToPa;
    hide MoveChunk;
    hide Chunk;
    if n > 0 && Allowed(mem, root, dir, u) {
      var len := Chunk(u, n);
      var ram1 := MoveChunk(ram, dir, k, VaToPa(mem, root, u), len);
      var rest := Copy(ram1, mem, root, dir, u + len, k + len, n - len).1;
      assert Copy(ram, mem, root, dir, u, k, n).1 == len + rest;
      CopyStops(ram1, mem, root, dir, u + len, k + len, n - len);
      AllowedNextPage(mem, root, dir, u, n, u + len + rest);
      GateCarries(mem, root, dir, u, n, u + len + rest);
    }
  }

  lemma GateCarries(mem: Mem, root: nat, dir: Direction, u: nat, n: nat, stop: nat)
    requires u + Chunk(u, n) <= stop < u + n ==> Gate(u + Chunk(u, n), stop) == stop
    ensures u + Chunk(u, n) <= stop < u + n ==> Gate(u, stop) == stop
  {
    ChunkInPage(u, n, u);
    if u + Chunk(u, n) <= stop < u + n {
      GateRest(u, Chunk(u, n), stop);
    }
  }

  lemma GateRest(u: nat, len: nat, x: nat)
    requires u + len == (Page(u) + 1) * PGSIZE && x >= u + len
    ensures Gate(u, x) == Gate(u + len, x)
  {
  }

  // ---------------------------------------------------------------- copies into mapped memory

  /** A page mapped with U and W may be written, one with U and R read: bits 4, 2 and 1 of the attributes. */
  predicate MayCopy(dir: Direction, attr: nat) {
    attr / 16 % 2 == 1 && if dir == ToUser then attr / 4 % 2 == 1 else attr / 2 % 2 == 1
  }

  lemma MayCopyIs(dir: Direction, attr: nat)
    ensures MayCopy(dir, attr) <==> attr / 16 % 2 == 1 && if dir == ToUser then attr / 4 % 2 == 1 else attr / 2 % 2 == 1
  {
  }

  lemma EntryPermits(frame: nat, attr: nat, dir: Direction)
    requires attr < 1024
    ensures Permitted(dir, Pte(frame, attr)) <==> MayCopy(dir, attr)
  {
    PteFlags(frame, attr);
    hide Pte;
  }

  lemma MappedAllows(w: Phys, root: nat, va: nat, pa: nat, size: nat, attr: nat, dir: Direction, x: nat)
    requires WellFormed(w, root) && attr < 1024 && IsLeaf(attr) && va < U64 && 0 < pa && pa + size <= PHY_TOP && size < U64
    requires Svmmap(w, root, va, pa, size, attr).Ok? && va <= x < va + size < U64 && x < 2 * VA_TOP
    ensures Allowed(Svmmap(w, root, va, pa, size, attr).value.mem, root, dir, x) <==> MayCopy(dir, attr)
  {
    SvmmapMaps(w, root, va, pa, size, attr, x);
    LeafBits(attr);
    SvmmapEntry(w, root, va, pa, size, attr, x);
    NamedExactly(pa + (x - va));
    EntryPermits(FrameAfter(pa / PGSIZE, x / PGSIZE - va / PGSIZE), attr, dir);
    hide Svmmap;
    hide VaToPa;
    hide GetPte;
    hide Permitted;
    hide MayCopy;
    hide Pte;
    hide FrameAfter;
  }

  lemma MappedCopy(w: Phys, root: nat, va: nat, pa: nat, size: nat, attr: nat,
                   ram: Ram, dir: Direction, u: nat, k: nat, n: nat)
    requires WellFormed(w, root) && attr < 1024 && IsLeaf(attr) && va < U64 && 0 < pa && pa + size <= PHY_TOP && size < U64
    requires Svmmap(w, root, va, pa, size, attr).Ok? && va <= u && u + n <= va + size <= VA_TOP
    ensures Copy(ram, Svmmap(w, root, va, pa, size, attr).value.mem, root, dir, u, k, n).1 == if MayCopy(dir, attr) then n else 0
  {
    var mem := Svmmap(w, root, va, pa, size, attr).value.mem;
    hide *;
    CopyFirst(ram, mem, root, dir, u, k, n);
    var stop := u + Copy(ram, mem, root, dir, u, k, n).1;
    if n > 0 {
      MappedAllows(w, root, va, pa, size, attr, dir, u);
      CopyStops(ram, mem, root, dir, u, k, n);
      if stop < u + n { MappedAllows(w, root, va, pa, size, attr, dir, stop); }
    }
  }

  lemma BelowTop(w: Phys, root: nat, va: nat, pa: nat, size: nat, attr: nat)
    requires attr < 1024 && Svmmap(w, root, va, pa, size, attr).Ok? && va + size < U64
    ensures va + size <= VA_TOP
  {
  }

  /** After svmmap of a range, a copy within it moves all bytes if the attributes permit, else none. */
  lemma SvmmapThenCopy(w: Phys, root: nat, va: nat, pa: nat, size: nat, attr: nat,
                       ram: Ram, dir: Direction, u: nat, k: nat, n: nat)
    requires WellFormed(w, root) && attr < 1024 && attr / 2 % 8 != 0 && va < U64 && 0 < pa && pa + size <= PHY_TOP && size < U64
    requires Svmmap(w, root, va, pa, size, attr).Ok? && va <= u && u + n <= va + size < U64
    ensures Copy(ram, Svmmap(w, root, va, pa, size, attr).value.mem, root, dir, u, k, n).1 ==
            if attr / 16 % 2 == 1 && (if dir == ToUser then attr / 4 % 2 == 1 else attr / 2 % 2 == 1) then n else 0
  {
    LeafBits(attr);
    MayCopyIs(dir, attr);
    BelowTop(w, root, va, pa, size, attr);
    hide *;
    MappedCopy(w, root, va, pa, size, attr, ram, dir, u, k, n);
  }

  lemma MappedNoAlias(w: Phys, root: nat, va: nat, pa: nat, size: nat, attr: nat, u: nat, k: nat, n: nat)
    requires WellFormed(w, root) && attr < 1024 && IsLeaf(attr) && va < U64 && pa + size <= PHY_TOP && size < U64
    requires Svmmap(w, root, va, pa, size, attr).Ok? && va <= u && u + n <= va + size <= VA_TOP
    requires k + n <= pa || pa + size <= k
    ensures NoAlias(Svmmap(w, root, va, pa, size, attr).value.mem, root, u, k, n)
    ensures forall x :: u <= x < u + n ==> VaToPa(Svmmap(w, root, va, pa, size, attr).value.mem, root, x) == pa + (x - va)
  {
    LeafBits(attr);
    hide Svmmap;
    hide VaToPa;
    hide IsLeaf;
    forall x | u <= x < u + n ensures VaToPa(Svmmap(w, root, va, pa, size, attr).value.mem, root, x) == pa + (x - va) {
      SvmmapMaps(w, root, va, pa, size, attr, x);
      NamedExactly(pa + (x - va));
    }
  }

  /** What is copied out to mapped user memory lies where svmmap put it, and is copied back as it was. */
  lemma CopyRoundTrip(w: Phys, root: nat, va: nat, pa: nat, size: nat, attr: nat,
                      ram: Ram, u: nat, k: nat, k': nat, n: nat, i: nat)
    requires WellFormed(w, root) && attr < 1024 && va < U64 && 0 < pa && pa + size <= PHY_TOP && size < U64
    requires attr / 16 % 2 == attr / 4 % 2 == attr / 2 % 2 == 1
    requires Svmmap(w, root, va, pa, size, attr).Ok? && va <= u && u + n <= va + size < U64 && i < n
    requires (k + n <= pa || pa + size <= k) && (k' + n <= pa || pa + size <= k')
    ensures var mem := Svmmap(w, root, va, pa, size, attr).value.mem;
      var out := Copy(ram, mem, root, ToUser, u, k, n);
      var back := Copy(out.0, mem, root, FromUser, u, k', n);
      && out.1 == back.1 == n && At(out.0, pa + (u - va) + i) == At(ram, k + i) && At(back.0, k' + i) == At(ram, k + i)
  {
    var mem := Svmmap(w, root, va, pa, size, attr).value.mem;
    ReadWriteBits(attr);
    BelowTop(w, root, va, pa, size, attr);
    hide *;
    OneWay(w, root, va, pa, size, attr, ram, ToUser, u, k, n, i);
    OneWay(w, root, va, pa, size, attr, Copy(ram, mem, root, ToUser, u, k, n).0, FromUser, u, k', n, i);
  }

  /** One direction: byte i of the kernel buffer and the byte of the frame. */
  lemma OneWay(w: Phys, root: nat, va: nat, pa: nat, size: nat, attr: nat,
               ram: Ram, dir: Direction, u: nat, k: nat, n: nat, i: nat)
    requires WellFormed(w, root) && attr < 1024 && va < U64 && 0 < pa && pa + size <= PHY_TOP && size < U64
    requires IsLeaf(attr) && MayCopy(dir, attr)
    requires Svmmap(w, root, va, pa, size, attr).Ok? && va <= u && u + n <= va + size <= VA_TOP && i < n
    requires k + n <= pa || pa + size <= k
    ensures var r := Copy(ram, Svmmap(w, root, va, pa, size, attr).value.mem, root, dir, u, k, n);
      var a := pa + (u - va) + i;
      r.1 == n && At(r.0, if dir == ToUser then a else k + i) == At(ram, if dir == ToUser then k + i else a)
  {
    var mem := Svmmap(w, root, va, pa, size, attr).value.mem;
    hide *;
    MappedCopy(w, root, va, pa, size, attr, ram, dir, u, k, n);
    MappedByte(w, root, va, pa, size, attr, u, k, n, i);
    Moved(ram, mem, root, dir, u, k, n, i, pa + (u - va) + i);
  }

  lemma MappedByte(w: Phys, root: nat, va: nat, pa: nat, size: nat, attr: nat, u: nat, k: nat, n: nat, i: nat)
    requires WellFormed(w, root) && attr < 1024 && IsLeaf(attr) && va < U64 && pa + size <= PHY_TOP && size < U64
    requires Svmmap(w, root, va, pa, size, attr).Ok? && va <= u && u + n <= va + size <= VA_TOP && i < n
    requires k + n <= pa || pa + size <= k
    ensures var mem := Svmmap(w, root, va, pa, size, attr).value.mem;
      NoAlias(mem, root, u, k, n) && VaToPa(mem, root, u + i) == pa + (u - va) + i
  {
    hide *;
    MappedNoAlias(w, root, va, pa, size, attr, u, k, n);
    assert VaToPa(Svmmap(w, root, va, pa, size, attr).value.mem, root, u + i) == pa + (u + i - va);
  }

  lemma Moved(ram: Ram, mem: Mem, root: nat, dir: Direction, u: nat, k: nat, n: nat, i: nat, a: nat)
    requires Copy(ram, mem, root, dir, u, k, n).1 == n && NoAlias(mem, root, u, k, n) && i < n && VaToPa(mem, root, u + i) == a
    ensures var r := Copy(ram, mem, root, dir, u, k, n).0;
      At(r, if dir == ToUser then a else k + i) == At(ram, if dir == ToUser then k + i else a)
  {
    hide *;
    CopyMoves(ram, mem, root, dir, u, k, n, u + i);
    EndsOf(mem, root, dir, u + i, k + i);
    assert k + (u + i - u) == k + i;
  }

  lemma EndsOf(mem: Mem, root: nat, dir: Direction, x: nat, c: nat)
    ensures Dst(mem, root, dir, x, c) == if dir == ToUser then VaToPa(mem, root, x) else c
    ensures Src(mem, root, dir, x, c) == if dir == ToUser then c else VaToPa(mem, root, x)
  {
  }

  lemma ReadWriteBits(attr: nat)
    requires attr < 1024 && attr / 16 % 2 == attr / 4 % 2 == attr / 2 % 2 == 1
    ensures IsLeaf(attr) && MayCopy(ToUser, attr) && MayCopy(FromUser, attr)
  {
  }

  /** After vmunmap no byte of the range can be copied. */
  lemma VmunmapThenCopy(w: Phys, root: nat, va: nat, size: nat, ram: Ram, dir: Direction, u: nat, k: nat, n: nat)
    requires WellFormed(w, root) && va < U64 && size < U64 && Vmunmap(w.mem, root, va, size).Ok?
    requires va <= u < va + size < U64
    ensures Copy(ram, Vmunmap(w.mem, root, va, size).value, root, dir, u, k, n) == (ram, 0)
  {
    VmunmapAccepts(w.mem, root, va, size);
    VmunmapRemoves(w, root, va, size, u);
    hide Vmunmap;
  }

  class UserSpace {
    const mem: Mem   // the tables; user data never overlays them
    const root: nat
    var ram: Ram

    constructor (mem: Mem, root: nat, ram: Ram)
      ensures this.mem == mem && this.root == root && this.ram == ram
    {
      this.mem, this.root, this.ram := mem, root, ram;
    }

    /** Right for every overlap of source and destination: backwards when copying upwards. */
    method Memcpy(dst: nat, src: nat, n: nat)
      modifies this
      ensures ram == Put(old(ram), old(ram), dst, src, n)
    {
      ghost var was := ram;
      if src < dst && src + n > dst {
        var i: nat := n;
        while i > 0
          invariant i <= n && HoldsMoved(was, ram, dst, src, i, n)
        {
          i := i - 1;
          assert At(ram, src + i) == At(was, src + i);
          ram := ram[dst + i := At(ram, src + i)];
        }
      } else {
        var i: nat := 0;
        while i < n
          invariant i <= n && HoldsMoved(was, ram, dst, src, 0, i)
        {
          assert At(ram, src + i) == At(was, src + i);
          ram := ram[dst + i := At(ram, src + i)];
          i := i + 1;
        }
      }
      SameRam(was, dst, src, n, ram);
    }

    /** Returns the bytes copied; less than asked for means the task was killed. */
    method CopyToUser(udst: nat, ksrc: nat, bytes: nat) returns (done: nat)
      modifies this
      ensures (ram, done) == Copy(old(ram), mem, root, ToUser, udst, ksrc, bytes)
    {
      hide Allowed;
      hide VaToPa;
      hide Chunk;
      hide Put;
      var pend: nat, ud: nat, kd: nat := bytes, udst, ksrc;
      done := 0;
      while pend > 0
        invariant done + pend == bytes
        invariant Copy(old(ram), mem, root, ToUser, udst, ksrc, bytes) == Later(ram, mem, root, ToUser, ud, kd, pend, done)
      {
        if !Allowed(mem, root, ToUser, ud) { return; }
        var len := Chunk(ud, pend);
        CopyUnfolds(ram, mem, root, ToUser, ud, kd, pend, done);
        hide *;
        Memcpy(VaToPa(mem, root, ud), kd, len);
        ud, kd, pend, done := ud + len, kd + len, pend - len, done + len;
      }
    }

    method CopyFromUser(kdst: nat, usrc: nat, bytes: nat) returns (done: nat)
      modifies this
      ensures (ram, done) == Copy(old(ram), mem, root, FromUser, usrc, kdst, bytes)
    {
      hide Allowed;
      hide VaToPa;
      hide Chunk;
      hide Put;
      var pend: nat, us: nat, kd: nat := bytes, usrc, kdst;
      done := 0;
      while pend > 0
        invariant done + pend == bytes
        invariant Copy(old(ram), mem, root, FromUser, usrc, kdst, bytes) == Later(ram, mem, root, FromUser, us, kd, pend, done)
      {
        if !Allowed(mem, root, FromUser, us) { return; }
        var len := Chunk(us, pend);
        CopyUnfolds(ram, mem, root, FromUser, us, kd, pend, done);
        hide *;
        Memcpy(kd, VaToPa(mem, root, us), len);
        us, kd, pend, done := us + len, kd + len, pend - len, done + len;
      }
    }
  }

  /** The rest of a copy that has moved `done` bytes already. */
  ghost function Later(ram: Ram, mem: Mem, root: nat, dir: Direction, u: nat, k: nat, n: nat, done: nat): (Ram, nat) {
    (Copy(ram, mem, root, dir, u, k, n).0, done + Copy(ram, mem, root, dir, u, k, n).1)
  }

  lemma CopyUnfolds(ram: Ram, mem: Mem, root: nat, dir: Direction, u: nat, k: nat, n: nat, done: nat)
    requires n > 0 && Allowed(mem, root, dir, u)
    ensures var len, pa := Chunk(u, n), VaToPa(mem, root, u);
      var ram' := if dir == ToUser then Put(ram, ram, pa, k, len) else Put(ram, ram, k, pa, len);
      Later(ram, mem, root, dir, u, k, n, done) == Later(ram', mem, root, dir, u + len, k + len, n - len, done + len)
  {
  }

  /** Bytes lo .. hi of the destination hold the source's original bytes; the rest is untouched. */
  ghost predicate HoldsMoved(was: Ram, ram: Ram, dst: nat, src: nat, lo: nat, hi: nat) {
    forall a {:trigger a in ram} {:trigger At(ram, a)} :: a >= 0 ==>
      && (a in ram <==> a in was || dst + lo <= a < dst + hi)
      && At(ram, a) == if dst + lo <= a < dst + hi then At(was, src + (a - dst)) else At(was, a)
  }

  lemma SameRam(was: Ram, dst: nat, src: nat, n: nat, ram: Ram)
    requires HoldsMoved(was, ram, dst, src, 0, n)
    ensures ram == Put(was, was, dst, src, n)
  {
    var p := Put(was, was, dst, src, n);
    forall a: nat ensures (a in ram <==> a in p) && At(ram, a) == At(p, a) {
      PutAt(was, was, dst, src, n, a);
    }
    forall a | a in p ensures ram[a] == p[a] {
      assert At(ram, a) == At(p, a);
    }
  }
}
