/** The block bitmap: the kernel's 64-bit word scan (kernel/fs/fs.c) and mkfs's byte-wise writer
    (mkfs/mkfs.cc), which must agree on which blocks are in use. */
module Bitmap {
  import opened Base

  const WORD_MAX := U64 - 1
  const WORDS := 128       // 64-bit words per block
  const BITS := 8192       // bits per block

  // ---------------------------------------------------------------- bits of a number

  function Bit(w: nat, k: nat): bool {
    if k == 0 then w % 2 == 1 else Bit(w / 2, k - 1)
  }

  /** w | 1 << k. */
  function SetBit(w: nat, k: nat): nat {
    if k == 0 then w / 2 * 2 + 1 else SetBit(w / 2, k - 1) * 2 + w % 2
  }

  /** w & ~(1 << k). */
  function ClearBit(w: nat, k: nat): nat {
    if k == 0 then w / 2 * 2 else ClearBit(w / 2, k - 1) * 2 + w % 2
  }

  function Pow2(n: nat): nat {
    if n == 0 then 1 else 2 * Pow2(n - 1)
  }

  lemma {:induction false} BitOfSet(w: nat, k: nat, j: nat)
    ensures Bit(SetBit(w, k), j) == (j == k || Bit(w, j))
  {
    if k > 0 && j > 0 {
      assert SetBit(w, k) / 2 == SetBit(w / 2, k - 1);
      BitOfSet(w / 2, k - 1, j - 1);
    } else if k == 0 && j > 0 {
      assert SetBit(w, k) / 2 == w / 2;
    }
  }

  lemma {:induction false} BitOfClear(w: nat, k: nat, j: nat)
    ensures Bit(ClearBit(w, k), j) == (j != k && Bit(w, j))
  {
    if k > 0 && j > 0 {
      assert ClearBit(w, k) / 2 == ClearBit(w / 2, k - 1);
      BitOfClear(w / 2, k - 1, j - 1);
    } else if k == 0 && j > 0 {
      assert ClearBit(w, k) / 2 == w / 2;
    }
  }

  lemma {:induction false} BitsFit(w: nat, k: nat, n: nat)
    requires k < n && w < Pow2(n)
    ensures SetBit(w, k) < Pow2(n) && ClearBit(w, k) < Pow2(n)
  {
    assert Pow2(n) == 2 * Pow2(n - 1);
    if k > 0 { BitsFit(w / 2, k - 1, n - 1); }
  }

  ghost predicate Ones(w: nat, n: nat) {
    forall k :: 0 <= k < n ==> Bit(w, k)
  }

  /** A word is all ones exactly when each of its bits is set. */
  lemma {:induction false} AllOnes(w: nat, n: nat)
    requires w < Pow2(n)
    ensures w == Pow2(n) - 1 <==> Ones(w, n)
  {
    if n > 0 {
      AllOnes(w / 2, n - 1);
      assert Pow2(n) == 2 * Pow2(n - 1) && w == 2 * (w / 2) + w % 2;
      if Ones(w, n) {
        assert Bit(w, 0);
        forall k | 0 <= k < n - 1 ensures Bit(w / 2, k) { assert Bit(w, k + 1); }
        assert Ones(w / 2, n - 1);
      }
      if w == Pow2(n) - 1 {
        assert w / 2 == Pow2(n - 1) - 1 && Ones(w / 2, n - 1);
        forall k | 0 <= k < n ensures Bit(w, k) { if k > 0 { assert Bit(w / 2, k - 1); } }
      }
    }
  }

  /** Bits of the low and the high part of a number. */
  lemma {:induction false} BitSplit(x: nat, y: nat, m: nat, k: nat)
    requires x < Pow2(m)
    ensures Bit(x + Pow2(m) * y, k) == if k < m then Bit(x, k) else Bit(y, k - m)
  {
    if m > 0 {
      var w := x + Pow2(m) * y;
      assert w == x + 2 * (Pow2(m - 1) * y);
      assert w % 2 == x % 2 && w / 2 == x / 2 + Pow2(m - 1) * y;
      if k > 0 { BitSplit(x / 2, y, m - 1, k - 1); }
    }
  }

  lemma Powers()
    ensures Pow2(8) == 256 && Pow2(64) == U64
  {
    PowAdd(8, 8);
    PowAdd(16, 16);
    PowAdd(32, 32);
  }

  lemma {:induction false} PowAdd(a: nat, b: nat)
    ensures Pow2(a + b) == Pow2(a) * Pow2(b)
  {
    if a > 0 {
      PowAdd(a - 1, b);
      assert Pow2(a + b) == 2 * Pow2(a - 1 + b);
      assert 2 * (Pow2(a - 1) * Pow2(b)) == Pow2(a) * Pow2(b);
    }
  }

  // ---------------------------------------------------------------- little-endian words

  /** The 64-bit word a little-endian load reads from eight bytes. */
  function Word(b: seq<nat>): nat {
    if b == [] then 0 else b[0] + 256 * Word(b[1..])
  }

  lemma {:induction false} WordBits(b: seq<nat>, k: nat)
    requires forall i :: 0 <= i < |b| ==> b[i] < 256
    ensures Bit(Word(b), k) == (k / 8 < |b| && Bit(b[k / 8], k % 8))
  {
    Powers();
    if b == [] {
      ZeroBits(k);
    } else {
      BitSplit(b[0], Word(b[1..]), 8, k);
      if k >= 8 { WordBits(b[1..], k - 8); assert k / 8 == 1 + (k - 8) / 8 && k % 8 == (k - 8) % 8; }
    }
  }

  lemma {:induction false} ZeroBits(k: nat)
    ensures !Bit(0, k)
  {
    if k > 0 { ZeroBits(k - 1); }
  }

  lemma {:induction false} WordFits(b: seq<nat>)
    requires forall i :: 0 <= i < |b| ==> b[i] < 256
    ensures Word(b) < Pow2(8 * |b|)
  {
    if b != [] {
      WordFits(b[1..]);
      Powers();
      PowAdd(8, 8 * |b[1..]|);
      assert 256 * Word(b[1..]) <= 256 * (Pow2(8 * |b[1..]|) - 1);
    }
  }

  // ---------------------------------------------------------------- the map as a set

  predicate Used(ws: seq<nat>, n: nat) {
    n / 64 < |ws| && Bit(ws[n / 64], n % 64)
  }

  ghost predicate Valid(ws: seq<nat>) {
    |ws| % WORDS == 0 && forall i :: 0 <= i < |ws| ==> ws[i] < U64
  }

  /** The same for mkfs's bytes. */
  predicate UsedByte(bs: seq<nat>, n: nat) {
    n / 8 < |bs| && Bit(bs[n / 8], n % 8)
  }

  /** What the kernel loads from the bytes mkfs wrote. */
  function Load(bs: seq<nat>): seq<nat>
    requires |bs| % 8 == 0
  {
    seq(|bs| / 8, i requires 0 <= i < |bs| / 8 => Word(bs[8 * i..8 * i + 8]))
  }

  /** Bytes and words describe the same set of blocks. */
  lemma SameSet(bs: seq<nat>, n: nat)
    requires |bs| % 8 == 0 && forall i :: 0 <= i < |bs| ==> bs[i] < 256
    ensures Used(Load(bs), n) <==> UsedByte(bs, n)
  {
    if n / 64 < |bs| / 8 {
      var i := n / 64;
      WordBits(bs[8 * i..8 * i + 8], n % 64);
      assert n % 64 / 8 == n / 8 - 8 * i && n % 64 % 8 == n % 8;
    }
  }

  lemma LoadValid(bs: seq<nat>)
    requires |bs| % BSIZE == 0 && forall i :: 0 <= i < |bs| ==> bs[i] < 256
    ensures Valid(Load(bs))
  {
    Powers();
    forall i | 0 <= i < |Load(bs)| ensures Load(bs)[i] < U64 { WordFits(bs[8 * i..8 * i + 8]); }
  }

  // ---------------------------------------------------------------- balloc and bfree

  function NextFree(ws: seq<nat>, n: nat): nat
    decreases 64 * |ws| - n
  {
    if n >= 64 * |ws| then 64 * |ws| else if !Used(ws, n) then n else NextFree(ws, n + 1)
  }

  function Take(ws: seq<nat>, n: nat): seq<nat>
    requires n < 64 * |ws|
  {
    ws[n / 64 := SetBit(ws[n / 64], n % 64)]
  }

  function Release(ws: seq<nat>, n: nat): seq<nat>
    requires n < 64 * |ws|
  {
    ws[n / 64 := ClearBit(ws[n / 64], n % 64)]
  }

  /** balloc, with `blocks` the first data block. */
  function Balloc(ws: seq<nat>, blocks: nat): Outcome<(nat, seq<nat>)> {
    var n := NextFree(ws, 0);
    if n >= 64 * |ws| then Panic else Ok(((blocks + n) % U32, Take(ws, n)))
  }

  function Bfree(ws: seq<nat>, blocks: nat, b: nat): Outcome<seq<nat>> {
    var n := (b - blocks) % U32;
    if n / BITS >= |ws| / WORDS || n >= 64 * |ws| || !Used(ws, n) then Panic else Ok(Release(ws, n))
  }

  lemma {:induction false} NextFreeIs(ws: seq<nat>, n: nat)
    requires n <= 64 * |ws|
    ensures n <= NextFree(ws, n) <= 64 * |ws|
    ensures forall m :: n <= m < NextFree(ws, n) ==> Used(ws, m)
    ensures NextFree(ws, n) < 64 * |ws| ==> !Used(ws, NextFree(ws, n))
    decreases 64 * |ws| - n
  {
    if n < 64 * |ws| && Used(ws, n) { NextFreeIs(ws, n + 1); }
  }

  lemma {:induction false} NextFreeFrom(ws: seq<nat>, n: nat, m: nat)
    requires n <= m <= 64 * |ws| && forall i :: n <= i < m ==> Used(ws, i)
    ensures NextFree(ws, n) == NextFree(ws, m)
    decreases m - n
  {
    if n < m {
      assert Used(ws, n);
      NextFreeFrom(ws, n + 1, m);
    }
  }

  lemma TakeIs(ws: seq<nat>, n: nat, m: nat)
    requires n < 64 * |ws|
    ensures Used(Take(ws, n), m) <==> Used(ws, m) || m == n
    ensures Used(Release(ws, n), m) <==> Used(ws, m) && m != n
  {
    if m / 64 == n / 64 {
      BitOfSet(ws[n / 64], n % 64, m % 64);
      BitOfClear(ws[n / 64], n % 64, m % 64);
    }
  }

  lemma TakeValid(ws: seq<nat>, n: nat)
    requires Valid(ws) && n < 64 * |ws|
    ensures Valid(Take(ws, n)) && Valid(Release(ws, n))
  {
    Powers();
    BitsFit(ws[n / 64], n % 64, 64);
  }

  lemma {:induction false} ClearAfterSet(w: nat, k: nat)
    requires !Bit(w, k)
    ensures ClearBit(SetBit(w, k), k) == w
  {
    if k > 0 {
      ClearAfterSet(w / 2, k - 1);
      assert SetBit(w, k) / 2 == SetBit(w / 2, k - 1) && SetBit(w, k) % 2 == w % 2;
    }
  }

  ghost predicate InRange(ws: seq<nat>, blocks: nat) {
    Valid(ws) && blocks + 64 * |ws| <= U32
  }

  /** balloc hands out the lowest block not in use and marks only it; it panics only when all are. */
  lemma BallocLowest(ws: seq<nat>, blocks: nat)
    requires InRange(ws, blocks)
    ensures Balloc(ws, blocks).Panic? <==> forall n :: 0 <= n < 64 * |ws| ==> Used(ws, n)
    ensures Balloc(ws, blocks).Ok? ==>
      var r, ws' := Balloc(ws, blocks).value.0, Balloc(ws, blocks).value.1;
      && blocks <= r < blocks + 64 * |ws| && !Used(ws, r - blocks) && InRange(ws', blocks) && |ws'| == |ws|
      && (forall n :: 0 <= n < r - blocks ==> Used(ws, n))
      && (forall n: nat :: Used(ws', n) <==> Used(ws, n) || n == r - blocks)
  {
    NextFreeIs(ws, 0);
    var n := NextFree(ws, 0);
    if n < 64 * |ws| {
      TakeValid(ws, n);
      forall m: nat ensures Used(Take(ws, n), m) <==> Used(ws, m) || m == n { TakeIs(ws, n, m); }
    }
  }

  /** bfree accepts exactly the blocks in use and clears only the one named. */
  lemma BfreeExact(ws: seq<nat>, blocks: nat, b: nat)
    requires InRange(ws, blocks) && b < U32
    ensures Bfree(ws, blocks, b).Ok? <==> blocks <= b < blocks + 64 * |ws| && Used(ws, b - blocks)
    ensures Bfree(ws, blocks, b).Ok? ==>
      var ws' := Bfree(ws, blocks, b).value;
      InRange(ws', blocks) && |ws'| == |ws| && forall n: nat :: Used(ws', n) <==> Used(ws, n) && n != b - blocks
  {
    var n := (b - blocks) % U32;
    assert b >= blocks ==> n == b - blocks;
    assert b < blocks ==> n == b - blocks + U32;
    if Bfree(ws, blocks, b).Ok? {
      TakeValid(ws, n);
      forall m: nat ensures Used(Release(ws, n), m) <==> Used(ws, m) && m != n { TakeIs(ws, n, m); }
    }
  }

  /** bfree undoes balloc, word for word. */
  lemma BfreeInverts(ws: seq<nat>, blocks: nat)
    requires InRange(ws, blocks) && Balloc(ws, blocks).Ok?
    ensures Bfree(Balloc(ws, blocks).value.1, blocks, Balloc(ws, blocks).value.0) == Ok(ws)
  {
    var n := NextFree(ws, 0);
    NextFreeIs(ws, 0);
    TakeIs(ws, n, n);
    ClearAfterSet(ws[n / 64], n % 64);
    var w := ws[n / 64];
    assert Take(ws, n)[n / 64 := w] == ws;
    assert ((blocks + n) % U32 - blocks) % U32 == n;
  }

  // ---------------------------------------------------------------- mkfs

  const DATA_BLOCKS := 1048576
  const MIN_DATA := 1393
  const MAX_DATA := MIN_DATA + DATA_BLOCKS
  const BMAP_SIZE := DATA_BLOCKS / 8

  /** Refused: the program gives up.  Overrun: it writes past the end of bmap. */
  datatype BlockAlloc = Refused | Overrun | Given(bmap: seq<nat>, next: nat)

  /** block_alloc for the next block number. */
  function MkfsAlloc(bmap: seq<nat>, next: nat): BlockAlloc
    requires next >= MIN_DATA
  {
    if next > MAX_DATA then Refused
    else
      var n := next - MIN_DATA;
      if n / 8 >= |bmap| then Overrun else Given(bmap[n / 8 := SetBit(bmap[n / 8], n % 8)], next + 1)
  }

  /** The bound is off by one: block_alloc is right exactly below MAX_DATA, refuses above it, and at
      MAX_DATA itself passes its check and leaves the map. */
  lemma MkfsAllocBound(bmap: seq<nat>, next: nat)
    requires |bmap| == BMAP_SIZE && next >= MIN_DATA
    ensures MkfsAlloc(bmap, next).Given? <==> next < MAX_DATA
    ensures MkfsAlloc(bmap, next).Overrun? <==> next == MAX_DATA
  {
  }

  /** mkfs after c calls of block_alloc: it hands out the data blocks in order, all of them, and the
      call after the last leaves the map. */
  function MkfsAfter(c: nat): (r: BlockAlloc)
    ensures r.Given? <==> c <= DATA_BLOCKS
    ensures r.Overrun? <==> c > DATA_BLOCKS
    ensures r.Given? ==> r.next == MIN_DATA + c && |r.bmap| == BMAP_SIZE
  {
    if c == 0 then Given(seq(BMAP_SIZE, _ => 0), MIN_DATA)
    else
      var r := MkfsAfter(c - 1);
      if r.Given? then MkfsAlloc(r.bmap, r.next) else r
  }

  function MkfsMap(c: nat): (bmap: seq<nat>)
    requires c <= DATA_BLOCKS
    ensures |bmap| == BMAP_SIZE
  {
    MkfsAfter(c).bmap
  }

  /** It has marked the first c blocks and no other, in bytes and as the kernel loads them. */
  lemma {:induction false} MkfsMarks(c: nat)
    requires c <= DATA_BLOCKS
    ensures forall n: nat :: UsedByte(MkfsMap(c), n) <==> n < c
    ensures forall i :: 0 <= i < BMAP_SIZE ==> MkfsMap(c)[i] < 256
  {
    if c == 0 {
      forall n: nat ensures !UsedByte(MkfsMap(0), n) { ZeroBits(n % 8); }
    } else {
      MkfsMarks(c - 1);
      var b, k := MkfsMap(c - 1), c - 1;
      assert MkfsMap(c) == b[k / 8 := SetBit(b[k / 8], k % 8)];
      Powers();
      BitsFit(b[k / 8], k % 8, 8);
      forall n: nat ensures UsedByte(MkfsMap(c), n) <==> n < c {
        assert UsedByte(b, n) <==> n < c - 1;
        if n / 8 == k / 8 { BitOfSet(b[k / 8], k % 8, n % 8); }
      }
    }
  }

  lemma MkfsSeenByKernel(c: nat)
    requires c <= DATA_BLOCKS
    ensures InRange(Load(MkfsMap(c)), MIN_DATA) && 64 * |Load(MkfsMap(c))| == DATA_BLOCKS
    ensures forall n: nat :: Used(Load(MkfsMap(c)), n) <==> n < c
  {
    MkfsMarks(c);
    LoadValid(MkfsMap(c));
    forall n: nat ensures Used(Load(MkfsMap(c)), n) <==> n < c { SameSet(MkfsMap(c), n); }
  }

  // ---------------------------------------------------------------- runs

  datatype Op = Alloc | Free(b: nat)

  /** live: the block numbers handed out and not freed since. */
  datatype State = State(ws: seq<nat>, live: set<nat>)

  function Do(s: State, op: Op): Outcome<State> {
    match op
    case Alloc =>
      var r := Balloc(s.ws, MIN_DATA);
      if r.Panic? then Panic else Ok(State(r.value.1, s.live + {r.value.0}))
    case Free(b) =>
      var r := Bfree(s.ws, MIN_DATA, b);
      if r.Panic? then Panic else Ok(State(r.value, s.live - {b}))
  }

  function MkfsLive(c: nat): (r: set<nat>)
    ensures forall b :: b in r <==> MIN_DATA <= b < MIN_DATA + c
  {
    if c == 0 then {} else MkfsLive(c - 1) + {MIN_DATA + c - 1}
  }

  /** Any sequence of kernel calls on an image in which mkfs used c blocks. */
  function Run(c: nat, ops: seq<Op>): Outcome<State>
    requires c <= DATA_BLOCKS
  {
    if ops == [] then Ok(State(Load(MkfsMap(c)), MkfsLive(c)))
    else
      var r := Run(c, ops[..|ops| - 1]);
      if r.Panic? then Panic else Do(r.value, ops[|ops| - 1])
  }

  ghost predicate Agree(s: State) {
    && InRange(s.ws, MIN_DATA) && 64 * |s.ws| == DATA_BLOCKS
    && (forall b :: b in s.live ==> MIN_DATA <= b < MAX_DATA)
    && (forall n: nat :: n < DATA_BLOCKS ==> (Used(s.ws, n) <==> MIN_DATA + n in s.live))
  }

  lemma DoAgrees(s: State, op: Op)
    requires Agree(s) && Do(s, op).Ok? && (op.Free? ==> op.b < U32)
    ensures Agree(Do(s, op).value)
  {
    if op.Alloc? { BallocLowest(s.ws, MIN_DATA); } else { BfreeExact(s.ws, MIN_DATA, op.b); }
  }

  lemma {:induction false} RunAgrees(c: nat, ops: seq<Op>)
    requires c <= DATA_BLOCKS && Run(c, ops).Ok? && forall i :: 0 <= i < |ops| && ops[i].Free? ==> ops[i].b < U32
    ensures Agree(Run(c, ops).value)
  {
    if ops == [] {
      MkfsSeenByKernel(c);
    } else {
      RunAgrees(c, ops[..|ops| - 1]);
      DoAgrees(Run(c, ops[..|ops| - 1]).value, ops[|ops| - 1]);
    }
  }

  /** In every run the next balloc returns the least data block that is not live, failing only when
      all are, and bfree panics exactly on blocks that are not. */
  lemma EveryRun(c: nat, ops: seq<Op>, op: Op)
    requires c <= DATA_BLOCKS && Run(c, ops).Ok? && forall i :: 0 <= i < |ops| && ops[i].Free? ==> ops[i].b < U32
    requires op.Free? ==> op.b < U32
    ensures var s := Run(c, ops).value;
      && (op.Alloc? && Do(s, op).Panic? ==> forall b :: MIN_DATA <= b < MAX_DATA ==> b in s.live)
      && (op.Alloc? && Do(s, op).Ok? ==>
            var r := Balloc(s.ws, MIN_DATA).value.0;
            && r !in s.live && MIN_DATA <= r < MAX_DATA && Do(s, op).value.live == s.live + {r}
            && forall b :: MIN_DATA <= b < r ==> b in s.live)
      && (op.Free? ==> (Do(s, op).Panic? <==> op.b !in s.live))
  {
    RunAgrees(c, ops);
    var s := Run(c, ops).value;
    if op.Alloc? {
      BallocLowest(s.ws, MIN_DATA);
      if Do(s, op).Panic? {
        forall b | MIN_DATA <= b < MAX_DATA ensures b in s.live { assert Used(s.ws, b - MIN_DATA); }
      } else {
        var r := Balloc(s.ws, MIN_DATA).value.0;
        forall b | MIN_DATA <= b < r ensures b in s.live { assert Used(s.ws, b - MIN_DATA); }
      }
    } else {
      BfreeExact(s.ws, MIN_DATA, op.b);
    }
  }

  // ---------------------------------------------------------------- the scans in place

  /** Word by word: a full word has no free bit. */
  lemma FullWord(ws: seq<nat>, q: nat)
    requires Valid(ws) && q < |ws| && ws[q] == WORD_MAX
    ensures forall n :: 64 * q <= n < 64 * q + 64 ==> Used(ws, n)
  {
    Powers();
    AllOnes(ws[q], 64);
    forall n | 64 * q <= n < 64 * q + 64 ensures Used(ws, n) { assert n / 64 == q && Bit(ws[q], n % 64); }
  }

  lemma RoomInWord(ws: seq<nat>, q: nat) returns (k: nat)
    requires Valid(ws) && q < |ws| && ws[q] != WORD_MAX
    ensures k < 64 && !Bit(ws[q], k)
  {
    Powers();
    AllOnes(ws[q], 64);
    k :| 0 <= k < 64 && !Bit(ws[q], k);
  }

  class Map {
    var words: array<nat>
    const blocks: nat

    ghost predicate Valid()
      reads this, words
    {
      InRange(words[..], blocks)
    }

    /** balloc: block by block, first a word that is not all ones, then its lowest clear bit. */
    method AllocBlock() returns (r: Option<nat>)
      requires Valid()
      modifies words
      ensures Valid() && words.Length == old(words.Length)
      ensures r.None? <==> Balloc(old(words[..]), blocks).Panic?
      ensures r.None? ==> words[..] == old(words[..])
      ensures r.Some? ==> Balloc(old(words[..]), blocks) == Ok((r.value, words[..]))
    {
      ghost var ws := words[..];
      var i := 0;
      while i < words.Length / WORDS
        invariant i <= words.Length / WORDS && words[..] == ws
        invariant forall n :: 0 <= n < BITS * i ==> Used(ws, n)
      {
        var j := FullWords(i);
        if j < WORDS {
          var q := i * WORDS + j;
          ghost var room := RoomInWord(ws, q);
          var k := 0;
          while k < 64
            invariant k <= 64 && k <= room && words[..] == ws
            invariant forall n :: 0 <= n < 64 * q + k ==> Used(ws, n)
          {
            if !Bit(words[q], k) {
              ghost var n := 64 * q + k;
              NextFreeFrom(ws, 0, n);
              assert n / 64 == q && n % 64 == k && NextFree(ws, n) == n;
              TakeValid(ws, n);
              words[q] := SetBit(words[q], k);
              assert words[..] == Take(ws, n);
              return Some((i * BITS + j * 64 + k + blocks) % U32);
            }
            assert (64 * q + k) / 64 == q && (64 * q + k) % 64 == k;
            k := k + 1;
          }
        }
        i := i + 1;
      }
      NextFreeFrom(ws, 0, 64 * |ws|);
      return None;
    }

    /** The first word of block i that is not all ones. */
    method FullWords(i: nat) returns (j: nat)
      requires Valid() && i < words.Length / WORDS
      ensures j <= WORDS && (j < WORDS ==> words[i * WORDS + j] != WORD_MAX)
      ensures forall n :: BITS * i <= n < BITS * i + 64 * j ==> Used(words[..], n)
    {
      j := 0;
      while j < WORDS && words[i * WORDS + j] == WORD_MAX
        invariant j <= WORDS && forall n :: BITS * i <= n < BITS * i + 64 * j ==> Used(words[..], n)
      {
        FullWord(words[..], i * WORDS + j);
        j := j + 1;
      }
    }

    /** bfree: block i, word k / 64, bit k % 64. */
    method FreeBlock(b: nat) returns (ok: bool)
      requires Valid() && b < U32
      modifies words
      ensures Valid()
      ensures ok <==> Bfree(old(words[..]), blocks, b).Ok?
      ensures words[..] == if ok then Bfree(old(words[..]), blocks, b).value else old(words[..])
    {
      ghost var ws := words[..];
      BfreeExact(ws, blocks, b);
      var d := (b - blocks) % U32;
      var i, k := d / BITS, d % BITS;
      if words.Length / WORDS <= i { return false; }
      var q := i * WORDS + k / 64;
      SplitIndex(d);
      assert q == d / 64 && k % 64 == d % 64;
      if !Bit(words[q], k % 64) { return false; }
      words[q] := ClearBit(words[q], k % 64);
      assert words[..] == Release(ws, d);
      return true;
    }
  }

  lemma SplitIndex(d: nat)
    ensures d / BITS * WORDS + d % BITS / 64 == d / 64 && d % BITS % 64 == d % 64
  {
  }
}
