/** itrunc (kernel/fs/inode.c): frees and zeroes every block of a file. */
module Truncate {
  import opened Base
  import opened Files

  /** The data area: block contents, and the blocks the bitmap says are in use. */
  datatype Store = Store(disk: Disk, used: set<nat>)

  /** bzero and bfree of one block; freeing a block that is not in use panics. */
  function FreeOne(s: Store, b: nat): Outcome<Store> {
    if b !in s.used then Panic else Ok(Store(s.disk[b := Zeros()], s.used - {b}))
  }

  function FreeAll(s: Store, bs: seq<nat>): Outcome<Store>
    decreases |bs|
  {
    if bs == [] then Ok(s)
    else
      var r := FreeOne(s, bs[0]);
      if r.Panic? then Panic else FreeAll(r.value, bs[1..])
  }

  /** The inner loop of itrunc over the numbers of an index block. */
  function TruncIndex(s: Store, idx: seq<nat>, j: nat): Outcome<Store>
    decreases |idx| - j
  {
    if j >= |idx| || idx[j] == 0 then Ok(s)
    else
      var r := FreeOne(s, idx[j]);
      if r.Panic? then Panic else TruncIndex(r.value, idx, j + 1)
  }

  /** One turn of the outer loop, for pointer i. */
  function TruncAt(s: Store, i: nat, b: nat): Outcome<Store> {
    if i < NDIRECT then FreeOne(s, b)
    else if b !in s.disk || |s.disk[b]| != BSIZE then Panic
    else
      var r := TruncIndex(s, Decode(s.disk[b]), 0);
      if r.Panic? then Panic else FreeOne(r.value, b)
  }

  /** itrunc from pointer i on. */
  function Trunc(s: Store, iblock: seq<nat>, i: nat): Outcome<(Store, seq<nat>)>
    requires |iblock| == NDIRECT + NINDIRECT
    decreases |iblock| - i
  {
    if i >= |iblock| || iblock[i] == 0 then Ok((s, iblock))
    else
      var r := TruncAt(s, i, iblock[i]);
      if r.Panic? then Panic else Trunc(r.value, iblock[i := 0], i + 1)
  }

  /** The numbers of an index block over which the inner loop runs. */
  function Listed(idx: seq<nat>): seq<nat> {
    if idx == [] || idx[0] == 0 then [] else [idx[0]] + Listed(idx[1..])
  }

  /** The blocks under pointer i, the pointer's own last. */
  function Under(disk: Disk, i: nat, b: nat): seq<nat> {
    if i < NDIRECT then [b]
    else if b !in disk || |disk[b]| != BSIZE then [b] else Listed(Decode(disk[b])) + [b]
  }

  /** Every block of the file, in the order itrunc meets them. */
  function AllBlocks(disk: Disk, iblock: seq<nat>, i: nat): seq<nat>
    decreases |iblock| - i
  {
    if i >= |iblock| || iblock[i] == 0 then [] else Under(disk, i, iblock[i]) + AllBlocks(disk, iblock, i + 1)
  }

  predicate Distinct(s: seq<nat>) {
    forall i, j :: 0 <= i < j < |s| ==> s[i] != s[j]
  }

  /** Every block of the file is in use, on the disk, and reached by one pointer only; the inode has no
      pointer after its first null one. */
  ghost predicate Dense(s: Store, iblock: seq<nat>) {
    && |iblock| == NDIRECT + NINDIRECT
    && Distinct(AllBlocks(s.disk, iblock, 0))
    && (forall b :: b in AllBlocks(s.disk, iblock, 0) ==> b in s.used && b in s.disk && |s.disk[b]| == BSIZE)
    && (forall i, j :: 0 <= i < j < |iblock| && iblock[i] == 0 ==> iblock[j] == 0)
  }

  lemma {:induction false} FreeAllIs(s: Store, bs: seq<nat>)
    requires Distinct(bs) && forall b :: b in bs ==> b in s.used
    ensures FreeAll(s, bs).Ok?
    ensures var r := FreeAll(s, bs).value;
      && (forall b :: b in r.used <==> b in s.used && b !in bs)
      && (forall b :: b in bs ==> b in r.disk && r.disk[b] == Zeros())
      && (forall b :: b !in bs ==> (b in r.disk <==> b in s.disk) && (b in s.disk ==> r.disk[b] == s.disk[b]))
    decreases |bs|
  {
    if bs != [] {
      var r := FreeOne(s, bs[0]).value;
      forall b | b in bs[1..] ensures b in r.used && b != bs[0] {
        var k :| 0 <= k < |bs[1..]| && bs[1..][k] == b;
        assert bs[k + 1] == b;
      }
      FreeAllIs(r, bs[1..]);
      assert forall b :: b in bs <==> b == bs[0] || b in bs[1..];
    }
  }

  lemma {:induction false} FreeAllSplit(s: Store, xs: seq<nat>, ys: seq<nat>)
    ensures FreeAll(s, xs + ys) == (var r := FreeAll(s, xs); if r.Panic? then Panic else FreeAll(r.value, ys))
    decreases |xs|
  {
    if xs == [] {
      assert xs + ys == ys;
    } else {
      var r := FreeOne(s, xs[0]);
      assert (xs + ys)[1..] == xs[1..] + ys;
      if r.Ok? { FreeAllSplit(r.value, xs[1..], ys); }
    }
  }

  lemma {:induction false} TruncIndexIs(s: Store, idx: seq<nat>, j: nat)
    requires j <= |idx|
    ensures TruncIndex(s, idx, j) == FreeAll(s, Listed(idx[j..]))
    decreases |idx| - j
  {
    if j < |idx| && idx[j] != 0 {
      var r := FreeOne(s, idx[j]);
      assert idx[j..][1..] == idx[j + 1..];
      assert Listed(idx[j..])[1..] == Listed(idx[j + 1..]);
      if r.Ok? { TruncIndexIs(r.value, idx, j + 1); }
    }
  }

  lemma TruncAtIs(s: Store, i: nat, b: nat)
    requires i >= NDIRECT ==> b in s.disk && |s.disk[b]| == BSIZE
    ensures TruncAt(s, i, b) == FreeAll(s, Under(s.disk, i, b))
  {
    assert forall t: Store :: FreeAll(t, [b]) == FreeOne(t, b) by {
      forall t: Store ensures FreeAll(t, [b]) == FreeOne(t, b) { assert [b][1..] == []; }
    }
    if i >= NDIRECT {
      var idx := Decode(s.disk[b]);
      assert idx[0..] == idx;
      TruncIndexIs(s, idx, 0);
      FreeAllSplit(s, Listed(idx), [b]);
    }
  }

  /** Freeing what is under one pointer changes nothing under the later ones. */
  lemma {:induction false} LaterUnchanged(disk: Disk, disk': Disk, iblock: seq<nat>, i: nat)
    requires forall k :: i <= k < |iblock| && iblock[k] != 0 ==>
               (iblock[k] in disk <==> iblock[k] in disk') && (iblock[k] in disk ==> disk[iblock[k]] == disk'[iblock[k]])
    ensures AllBlocks(disk', iblock, i) == AllBlocks(disk, iblock, i)
    decreases |iblock| - i
  {
    if i < |iblock| && iblock[i] != 0 { LaterUnchanged(disk, disk', iblock, i + 1); }
  }

  lemma DistinctParts(xs: seq<nat>, ys: seq<nat>)
    requires Distinct(xs + ys)
    ensures Distinct(xs) && Distinct(ys) && forall b :: b in xs ==> b !in ys
  {
    forall i, j | 0 <= i < j < |xs| ensures xs[i] != xs[j] { assert (xs + ys)[i] != (xs + ys)[j]; }
    forall i, j | 0 <= i < j < |ys| ensures ys[i] != ys[j] { assert (xs + ys)[|xs| + i] != (xs + ys)[|xs| + j]; }
    forall i, j | 0 <= i < |xs| && 0 <= j < |ys| ensures xs[i] != ys[j] { assert (xs + ys)[i] != (xs + ys)[|xs| + j]; }
  }

  /** Pointers below i are already null; the blocks from i on are as Dense says. */
  ghost predicate DenseFrom(s: Store, iblock: seq<nat>, i: nat) {
    && |iblock| == NDIRECT + NINDIRECT && i <= |iblock|
    && Distinct(AllBlocks(s.disk, iblock, i))
    && (forall b :: b in AllBlocks(s.disk, iblock, i) ==> b in s.used && b in s.disk && |s.disk[b]| == BSIZE)
    && (forall k :: i <= k < |iblock| && iblock[k] != 0 ==> iblock[k] in AllBlocks(s.disk, iblock, i))
    && (forall a, c :: i <= a < c < |iblock| && iblock[a] == 0 ==> iblock[c] == 0)
    && (forall k :: 0 <= k < i ==> iblock[k] == 0)
  }

  /** The blocks under pointer i are freed, the later ones are not among them. */
  lemma FreesUnder(s: Store, iblock: seq<nat>, i: nat)
    requires DenseFrom(s, iblock, i) && i < |iblock| && iblock[i] != 0
    ensures var bs, rest := Under(s.disk, i, iblock[i]), AllBlocks(s.disk, iblock, i + 1);
      && AllBlocks(s.disk, iblock, i) == bs + rest && Distinct(bs) && Distinct(rest)
      && (forall b :: b in bs ==> b in s.used && b !in rest)
      && (forall b :: b in rest ==> b in s.used && b in s.disk && |s.disk[b]| == BSIZE)
      && TruncAt(s, i, iblock[i]) == FreeAll(s, bs)
      && (forall k :: i + 1 <= k < |iblock| && iblock[k] != 0 ==> iblock[k] in rest)
  {
    var bs, rest := Under(s.disk, i, iblock[i]), AllBlocks(s.disk, iblock, i + 1);
    assert AllBlocks(s.disk, iblock, i) == bs + rest;
    PointerUnder(s.disk, i, iblock[i]);
    RestListed(s, iblock, i);
    hide Under;
    hide AllBlocks;
    assert iblock[i] in bs + rest;
    TruncAtIs(s, i, iblock[i]);
    hide TruncAt;
    hide FreeAll;
    DistinctParts(bs, rest);
    hide Distinct;
    forall b | b in bs ensures b in s.used { assert b in bs + rest; }
    forall b | b in rest ensures b in s.used && b in s.disk && |s.disk[b]| == BSIZE { assert b in bs + rest; }
  }

  lemma RestListed(s: Store, iblock: seq<nat>, i: nat)
    requires DenseFrom(s, iblock, i) && i < |iblock| && iblock[i] != 0
    ensures forall k :: i + 1 <= k < |iblock| && iblock[k] != 0 ==> iblock[k] in AllBlocks(s.disk, iblock, i + 1)
  {
    hide AllBlocks;
    hide Distinct;
    forall k | i + 1 <= k < |iblock| && iblock[k] != 0 ensures iblock[k] in AllBlocks(s.disk, iblock, i + 1) {
      TailListed(s.disk, iblock, i + 1, k);
    }
  }

  lemma DenseStep(s: Store, iblock: seq<nat>, i: nat)
    requires DenseFrom(s, iblock, i) && i < |iblock| && iblock[i] != 0
    ensures TruncAt(s, i, iblock[i]).Ok?
    ensures var r, bs := TruncAt(s, i, iblock[i]).value, Under(s.disk, i, iblock[i]);
      && DenseFrom(r, iblock[i := 0], i + 1)
      && AllBlocks(s.disk, iblock, i) == bs + AllBlocks(r.disk, iblock[i := 0], i + 1)
      && FreeAll(s, bs) == Ok(r)
  {
    hide Under;
    hide TruncAt;
    hide FreeAll;
    hide AllBlocks;
    FreesUnder(s, iblock, i);
    FreeAllIs(s, Under(s.disk, i, iblock[i]));
    var r, ib := TruncAt(s, i, iblock[i]).value, iblock[i := 0];
    SameTail(s.disk, iblock, ib, i + 1);
    LaterUnchanged(s.disk, r.disk, ib, i + 1);
  }

  lemma {:induction false} SameTail(disk: Disk, x: seq<nat>, y: seq<nat>, i: nat)
    requires |x| == |y| && forall k :: i <= k < |x| ==> x[k] == y[k]
    ensures AllBlocks(disk, x, i) == AllBlocks(disk, y, i)
    decreases |x| - i
  {
    if i < |x| { SameTail(disk, x, y, i + 1); }
  }

  lemma {:induction false} TailListed(disk: Disk, iblock: seq<nat>, i: nat, k: nat)
    requires i <= k < |iblock| && iblock[k] != 0 && forall a, c :: i <= a < c < |iblock| && iblock[a] == 0 ==> iblock[c] == 0
    ensures iblock[k] in AllBlocks(disk, iblock, i)
    decreases k - i
  {
    PointerUnder(disk, i, iblock[i]);
    assert AllBlocks(disk, iblock, i) == Under(disk, i, iblock[i]) + AllBlocks(disk, iblock, i + 1);
    hide Under;
    hide AllBlocks;
    if i < k { TailListed(disk, iblock, i + 1, k); }
  }

  lemma PointerUnder(disk: Disk, i: nat, b: nat)
    ensures b in Under(disk, i, b)
  {
    var u := Under(disk, i, b);
    assert u[|u| - 1] == b;
  }

  /** itrunc frees every block of the file exactly once and leaves the inode without pointers. */
  lemma {:induction false} TruncIs(s: Store, iblock: seq<nat>, i: nat)
    requires DenseFrom(s, iblock, i)
    ensures Trunc(s, iblock, i).Ok? && FreeAll(s, AllBlocks(s.disk, iblock, i)) == Ok(Trunc(s, iblock, i).value.0)
    ensures |Trunc(s, iblock, i).value.1| == |iblock| && forall k :: 0 <= k < |iblock| ==> Trunc(s, iblock, i).value.1[k] == 0
    decreases |iblock| - i
  {
    if i < |iblock| && iblock[i] != 0 {
      DenseStep(s, iblock, i);
      var r, bs := TruncAt(s, i, iblock[i]).value, Under(s.disk, i, iblock[i]);
      TruncIs(r, iblock[i := 0], i + 1);
      FreeAllSplit(s, bs, AllBlocks(r.disk, iblock[i := 0], i + 1));
    }
  }

  /** The invariant fresh directory and index blocks rely on: a block not in use is all zero. */
  ghost predicate FreeIsZero(s: Store) {
    forall b :: b in s.disk && b !in s.used ==> s.disk[b] == Zeros()
  }

  /** Truncating a dense inode never reaches the double-free panic; it frees exactly the file's data
      and index blocks, zeroes them, clears every pointer, touches no other block, and keeps every
      free block zero. */
  lemma Truncates(s: Store, iblock: seq<nat>)
    requires Dense(s, iblock)
    ensures Trunc(s, iblock, 0).Ok?
    ensures var r, ib, bs := Trunc(s, iblock, 0).value.0, Trunc(s, iblock, 0).value.1, AllBlocks(s.disk, iblock, 0);
      && (forall b :: b in r.used <==> b in s.used && b !in bs)
      && (forall b :: b in bs ==> b in r.disk && r.disk[b] == Zeros())
      && (forall b :: b !in bs ==> (b in r.disk <==> b in s.disk) && (b in s.disk ==> r.disk[b] == s.disk[b]))
      && |ib| == |iblock| && (forall k :: 0 <= k < |ib| ==> ib[k] == 0)
      && (FreeIsZero(s) ==> FreeIsZero(r))
  {
    forall k | 0 <= k < |iblock| && iblock[k] != 0 ensures iblock[k] in AllBlocks(s.disk, iblock, 0) {
      TailListed(s.disk, iblock, 0, k);
    }
    TruncIs(s, iblock, 0);
    FreeAllIs(s, AllBlocks(s.disk, iblock, 0));
  }

  lemma {:induction false} ListedPrefix(idx: seq<nat>, n: nat)
    requires n <= |idx| && (forall j :: 0 <= j < n ==> idx[j] > 0) && (n < |idx| ==> idx[n] == 0)
    ensures Listed(idx) == idx[..n]
  {
    if n > 0 {
      ListedPrefix(idx[1..], n - 1);
      assert idx[..n] == [idx[0]] + idx[1..][..n - 1];
    }
  }

  /** The lowest block under pointer i of a file laid out by mkfs. */
  function Low(b: nat, i: nat): nat {
    if i < NDIRECT then b + i else IndexAt(b, i - NDIRECT)
  }

  ghost predicate Within(s: seq<nat>, lo: nat, hi: nat) {
    Distinct(s) && forall b :: b in s ==> lo <= b < hi
  }

  lemma WithinAppend(xs: seq<nat>, ys: seq<nat>, lo: nat, mid: nat, hi: nat)
    requires Within(xs, lo, mid) && Within(ys, mid, hi) && lo <= mid <= hi
    ensures Within(xs + ys, lo, hi)
  {
    forall i, j | 0 <= i < j < |xs + ys| ensures (xs + ys)[i] != (xs + ys)[j] {
      if i < |xs| <= j { assert xs[i] in xs && ys[j - |xs|] in ys; }
    }
  }

  lemma WithinWider(s: seq<nat>, lo: nat, hi: nat, hi': nat)
    requires Within(s, lo, hi) && hi <= hi'
    ensures Within(s, lo, hi')
  {
  }

  /** An index block's numbers and the index block itself. */
  lemma GroupWithin(disk: Disk, b: nat, nb: nat, g: nat)
    requires 0 < b && b + nb + Groups(nb) < U32 && NDIRECT + IDX * g < nb <= MAX_BLOCKS
    requires IndexAt(b, g) in disk && disk[IndexAt(b, g)] == Encode(IdxOf(b, nb, g))
    ensures Within(Under(disk, NDIRECT + g, IndexAt(b, g)), IndexAt(b, g), Min(IndexAt(b, g + 1), b + nb + Groups(nb)))
  {
    var idx, first, at := Decode(disk[IndexAt(b, g)]), NDIRECT + IDX * g, IndexAt(b, g);
    EntriesAre(idx, b, nb, g, first);
    var n := Min(IDX, nb - first);
    forall j | 0 <= j < n ensures idx[j] == at + 1 + j {
      InGroup(b, g, j);
    }
    ListedPrefix(idx, n);
    assert Under(disk, NDIRECT + g, at) == idx[..n] + [at];
    GroupEnd(b, nb, g);
  }

  lemma InGroup(b: nat, g: nat, j: nat)
    requires j < IDX
    ensures DataAt(b, NDIRECT + IDX * g + j) == IndexAt(b, g) + 1 + j
  {
  }

  lemma GroupEnd(b: nat, nb: nat, g: nat)
    requires NDIRECT + IDX * g < nb
    ensures IndexAt(b, g) + 1 + Min(IDX, nb - NDIRECT - IDX * g) <= Min(IndexAt(b, g + 1), b + nb + Groups(nb))
  {
  }

  lemma {:induction false} LaidWithin(disk: Disk, iblock: seq<nat>, b: nat, nb: nat, i: nat)
    requires Laid(disk, iblock, b, nb) && i <= NDIRECT + NINDIRECT
    ensures Within(AllBlocks(disk, iblock, i), Low(b, i), b + nb + Groups(nb))
    decreases NDIRECT + NINDIRECT - i
  {
    if i < |iblock| && iblock[i] != 0 {
      LaidWithin(disk, iblock, b, nb, i + 1);
      var u, rest, hi := Under(disk, i, iblock[i]), AllBlocks(disk, iblock, i + 1), b + nb + Groups(nb);
      assert iblock[i] == IblockOf(b, nb, i) == Low(b, i);
      UnderWithin(disk, iblock, b, nb, i);
      if rest == [] {
        WithinWider(u, Low(b, i), Min(Low(b, i + 1), hi), hi);
        assert u + rest == u;
      } else {
        assert rest[0] in rest;
        WithinAppend(u, rest, Low(b, i), Low(b, i + 1), hi);
      }
    }
  }

  lemma UnderWithin(disk: Disk, iblock: seq<nat>, b: nat, nb: nat, i: nat)
    requires Laid(disk, iblock, b, nb) && i < NDIRECT + NINDIRECT && iblock[i] != 0
    ensures iblock[i] == Low(b, i)
    ensures Within(Under(disk, i, iblock[i]), Low(b, i), Min(Low(b, i + 1), b + nb + Groups(nb)))
  {
    assert iblock[i] == IblockOf(b, nb, i);
    hide Encode;
    hide IdxOf;
    hide Decode;
    if i >= NDIRECT {
      GroupExists(nb, i - NDIRECT);
      assert NDIRECT + (i - NDIRECT) == i;
      GroupWithin(disk, b, nb, i - NDIRECT);
    }
  }

  /** Every file mkfs lays out can be truncated: its blocks are distinct and reached once. */
  lemma MkfsIsDense(s: Store, iblock: seq<nat>, b: nat, nb: nat)
    requires Laid(s.disk, iblock, b, nb)
    requires forall k :: b <= k < b + nb + Groups(nb) ==> k in s.used && k in s.disk && |s.disk[k]| == BSIZE
    ensures Dense(s, iblock)
  {
    LaidWithin(s.disk, iblock, b, nb, 0);
    assert forall i :: 0 <= i < |iblock| ==> iblock[i] == IblockOf(b, nb, i);
  }

  // ---------------------------------------------------------------- files the kernel grew

  /** Block number k of the index block at b. */
  function EntryAt(disk: Disk, b: nat, k: nat): nat
    requires k < IDX
  {
    if b in disk && |disk[b]| == BSIZE then ReadIdx(disk[b], k) else 0
  }

  /** Whether a file of n blocks needs pointer k. */
  predicate Points(k: nat, n: nat) {
    if k < NDIRECT then k < n else k - NDIRECT < Groups(n)
  }

  /** Number j of the index block under pointer k is block number ... of the file. */
  function BlockNumber(k: nat, j: nat): int {
    NDIRECT + IDX * (k - NDIRECT) + j
  }

  /** The inode points to exactly n blocks, through no more index blocks than that takes. */
  ghost predicate Shaped(disk: Disk, iblock: seq<nat>, n: nat) {
    && |iblock| == NDIRECT + NINDIRECT && n <= MAX_BLOCKS
    && (forall k :: 0 <= k < |iblock| ==> (iblock[k] > 0 <==> Points(k, n)))
    && (forall k, j :: NDIRECT <= k < |iblock| && Points(k, n) && 0 <= j < IDX ==>
          (EntryAt(disk, iblock[k], j) > 0 <==> BlockNumber(k, j) < n))
  }

  ghost predicate Filled(s: Store, iblock: seq<nat>, n: nat) {
    Dense(s, iblock) && Shaped(s.disk, iblock, n)
  }

  /** A block balloc may return. */
  ghost predicate Unused(s: Store, b: nat) {
    0 < b < U32 && b in s.disk && |s.disk[b]| == BSIZE && b !in s.used
  }

  /** The pointer data_block_alloc works on, and the blocks it takes from the bitmap. */
  function PointerOf(n: nat): nat {
    if n < NDIRECT then n else NDIRECT + (n - NDIRECT) / IDX
  }

  function Took(n: nat, data: nat, index: nat): set<nat> {
    if n >= NDIRECT && (n - NDIRECT) % IDX == 0 then {data, index} else {data}
  }

  /** The blocks under pointers i up to k. */
  function Upto(disk: Disk, iblock: seq<nat>, i: nat, k: nat): seq<nat>
    requires k <= |iblock|
    decreases k - i
  {
    if i >= k then [] else Under(disk, i, iblock[i]) + Upto(disk, iblock, i + 1, k)
  }

  lemma BlocksStep(disk: Disk, iblock: seq<nat>, i: nat, k: nat)
    requires i <= k <= |iblock|
    ensures i == k ==> Upto(disk, iblock, i, k) == []
    ensures i < k ==> Upto(disk, iblock, i, k) == Under(disk, i, iblock[i]) + Upto(disk, iblock, i + 1, k)
    ensures i < k && iblock[i] != 0 ==> AllBlocks(disk, iblock, i) == Under(disk, i, iblock[i]) + AllBlocks(disk, iblock, i + 1)
  {
    hide Under;
  }

  lemma {:induction false} SplitAt(disk: Disk, iblock: seq<nat>, i: nat, k: nat)
    requires i <= k <= |iblock| && forall a :: i <= a < k ==> iblock[a] != 0
    ensures AllBlocks(disk, iblock, i) == Upto(disk, iblock, i, k) + AllBlocks(disk, iblock, k)
    decreases k - i
  {
    hide *;
    BlocksStep(disk, iblock, i, k);
    if i < k {
      var u, v, w := Under(disk, i, iblock[i]), Upto(disk, iblock, i + 1, k), AllBlocks(disk, iblock, k);
      SplitAt(disk, iblock, i + 1, k);
      assert u + (v + w) == u + v + w;
    } else {
      assert [] + AllBlocks(disk, iblock, i) == AllBlocks(disk, iblock, i);
    }
  }

  lemma {:induction false} UptoSame(disk: Disk, x: seq<nat>, disk': Disk, y: seq<nat>, i: nat, k: nat)
    requires k <= |x| == |y|
    requires forall a :: i <= a < k ==>
               x[a] == y[a] && (x[a] in disk <==> x[a] in disk') && (x[a] in disk ==> disk[x[a]] == disk'[x[a]])
    ensures Upto(disk', y, i, k) == Upto(disk, x, i, k)
    decreases k - i
  {
    if i < k { UptoSame(disk, x, disk', y, i + 1, k); }
  }

  /** Nothing follows the pointer data_block_alloc works on. */
  lemma LastPointer(n: nat)
    requires n < MAX_BLOCKS
    ensures PointerOf(n) < NDIRECT + NINDIRECT
    ensures forall k: nat :: k != PointerOf(n) ==> (Points(k, n + 1) <==> Points(k, n))
    ensures forall k: nat :: k < PointerOf(n) ==> Points(k, n)
    ensures forall k: nat :: k > PointerOf(n) ==> !Points(k, n)
    ensures Points(PointerOf(n), n + 1) && (Points(PointerOf(n), n) <==> n > NDIRECT && (n - NDIRECT) % IDX > 0)
  {
    GroupsNext(n);
  }

  /** The numbers of that index block before and after. */
  lemma LastNumbers(n: nat, j: nat)
    requires NDIRECT <= n < MAX_BLOCKS && j < IDX
    ensures BlockNumber(PointerOf(n), j) < n <==> j < (n - NDIRECT) % IDX
    ensures BlockNumber(PointerOf(n), j) < n + 1 <==> j <= (n - NDIRECT) % IDX
  {
  }

  lemma FullNumbers(n: nat, k: nat, j: nat)
    requires NDIRECT <= k < PointerOf(n) && j < IDX
    ensures BlockNumber(k, j) < n
  {
  }

  /** The blocks under that pointer: the numbers listed so far, and the index block. */
  lemma UnderLast(disk: Disk, b: nat, i: nat, j: nat)
    requires i >= NDIRECT && b in disk && |disk[b]| == BSIZE && j <= IDX
    requires forall k :: 0 <= k < IDX ==> (EntryAt(disk, b, k) > 0 <==> k < j)
    ensures Under(disk, i, b) == Decode(disk[b])[..j] + [b]
  {
    var idx := Decode(disk[b]);
    forall k | 0 <= k < IDX ensures idx[k] > 0 <==> k < j { assert EntryAt(disk, b, k) == idx[k]; }
    ListedPrefix(idx, j);
  }

  lemma PokedIs(block: seq<nat>, j: nat, x: nat)
    requires |block| == BSIZE && j < IDX && x < U32
    ensures |Poke(block, j, x)| == BSIZE && Decode(Poke(block, j, x))[..j + 1] == Decode(block)[..j] + [x]
  {
    forall k | 0 <= k < IDX ensures ReadIdx(Poke(block, j, x), k) == if k == j then x else ReadIdx(block, k) {
      PokeIs(block, j, x, k);
    }
  }

  ghost function Elems(bs: seq<nat>): set<nat> {
    set b | b in bs
  }

  lemma InsertOne(xs: seq<nat>, d: nat, ys: seq<nat>)
    requires Distinct(xs + ys) && d !in xs + ys
    ensures Distinct(xs + [d] + ys) && Elems(xs + [d] + ys) == Elems(xs + ys) + {d}
  {
    var s, t := xs + [d] + ys, xs + ys;
    forall i, j | 0 <= i < j < |s| ensures s[i] != s[j] {
      var a, b := if i <= |xs| then i else i - 1, if j < |xs| then j else j - 1;
      if i != |xs| && j != |xs| {
        assert s[i] == t[a] && s[j] == t[b];
      } else if i == |xs| {
        assert s[j] == t[b];
      } else {
        assert s[i] == t[a];
      }
    }
    forall b | b in t ensures b in s {
      var i :| 0 <= i < |t| && t[i] == b;
      assert s[if i < |xs| then i else i + 1] == b;
    }
    assert s[|xs|] == d;
  }

  /** Inserting d, or d and e, into a list of different blocks. */
  lemma Inserted(pre: seq<nat>, l: seq<nat>, d: nat, rest: seq<nat>)
    requires Distinct(pre + (l + rest)) && d !in pre + (l + rest)
    ensures Distinct(pre + (l + [d] + rest)) && Elems(pre + (l + [d] + rest)) == Elems(pre + (l + rest)) + {d}
  {
    assert pre + (l + rest) == pre + l + rest;
    InsertOne(pre + l, d, rest);
    assert pre + (l + [d] + rest) == pre + l + [d] + rest;
  }

  lemma InsertedPair(pre: seq<nat>, d: nat, e: nat)
    requires Distinct(pre + []) && d !in pre && e !in pre && d != e
    ensures Distinct(pre + ([d] + [e])) && Elems(pre + ([d] + [e])) == Elems(pre + []) + {d, e}
  {
    var none: seq<nat> := [];
    assert none + [e] + none == none + [e] == [e] && none + none == none && none + [d] + [e] == [d] + [e];
    Inserted(pre, none, e, none);
    Inserted(pre, none, d, [e]);
  }

  /** What Append changes: one pointer, and one block, which that pointer names. */
  lemma AppendForm(s: Store, iblock: seq<nat>, n: nat, data: nat, index: nat)
    requires Filled(s, iblock, n) && n < MAX_BLOCKS && n != LIMIT && Unused(s, data) && Unused(s, index)
    ensures Append(iblock, s.disk, n, data, index).Ok?
    ensures var r, p := Append(iblock, s.disk, n, data, index).value, PointerOf(n);
      && p < |iblock| == |r.0|
      && (n < NDIRECT ==> r == (iblock[p := data], s.disk))
      && (n >= NDIRECT ==>
            var j, at := (n - NDIRECT) % IDX, if (n - NDIRECT) % IDX == 0 then index else iblock[p];
            at in s.disk && |s.disk[at]| == BSIZE && r == (iblock[p := at], s.disk[at := Poke(s.disk[at], j, data)]))
  {
    LastPointer(n);
    var p := PointerOf(n);
    if n >= NDIRECT && (n - NDIRECT) % IDX > 0 {
      TailListed(s.disk, iblock, 0, p);
      assert iblock[p := iblock[p]] == iblock;
    }
  }

  lemma {:induction false} UptoHas(disk: Disk, iblock: seq<nat>, i: nat, k: nat, a: nat)
    requires i <= a < k <= |iblock|
    ensures iblock[a] in Upto(disk, iblock, i, k)
    decreases k - i
  {
    PointerUnder(disk, i, iblock[i]);
    hide Under;
    if i < a { UptoHas(disk, iblock, i + 1, k, a); }
  }

  /** The blocks before the last pointer, and those under it. */
  lemma FilledSplit(s: Store, iblock: seq<nat>, n: nat)
    requires Filled(s, iblock, n) && n < MAX_BLOCKS
    ensures var p := PointerOf(n);
      && p < |iblock| && AllBlocks(s.disk, iblock, 0) == Upto(s.disk, iblock, 0, p) + AllBlocks(s.disk, iblock, p)
      && (forall k :: 0 <= k < p ==> iblock[k] in Upto(s.disk, iblock, 0, p))
      && (forall k :: p < k < |iblock| ==> iblock[k] == 0)
      && AllBlocks(s.disk, iblock, p) == if iblock[p] == 0 then [] else Under(s.disk, p, iblock[p])
  {
    var p := PointerOf(n);
    LastPointer(n);
    SplitAt(s.disk, iblock, 0, p);
    forall k | 0 <= k < p ensures iblock[k] in Upto(s.disk, iblock, 0, p) { UptoHas(s.disk, iblock, 0, p, k); }
  }

  /** Where the new blocks come in the order of the file's blocks. */
  lemma AppendBlocks(s: Store, iblock: seq<nat>, n: nat, data: nat, index: nat)
    requires Filled(s, iblock, n) && FreeIsZero(s) && n < MAX_BLOCKS && n != LIMIT
    requires Unused(s, data) && Unused(s, index) && data != index
    ensures Append(iblock, s.disk, n, data, index).Ok?
    ensures var r, p := Append(iblock, s.disk, n, data, index).value, PointerOf(n);
      var pre := Upto(s.disk, iblock, 0, p);
      && AllBlocks(s.disk, iblock, 0) == pre + AllBlocks(s.disk, iblock, p)
      && AllBlocks(r.1, r.0, 0) == pre + AllBlocks(r.1, r.0, p)
      && if n < NDIRECT then AllBlocks(s.disk, iblock, p) == [] && AllBlocks(r.1, r.0, p) == [data]
      else if (n - NDIRECT) % IDX == 0 then AllBlocks(s.disk, iblock, p) == [] && AllBlocks(r.1, r.0, p) == [data] + [index]
      else
        var l := Decode(s.disk[iblock[p]])[..(n - NDIRECT) % IDX];
        AllBlocks(s.disk, iblock, p) == l + [iblock[p]] && AllBlocks(r.1, r.0, p) == l + [data] + [iblock[p]]
  {
    AppendPre(s, iblock, n, data, index);
    NewTail(s, iblock, n, data, index);
    FilledSplit(s, iblock, n);
    if n >= NDIRECT { LastTail(s, iblock, n, data, index); }
    hide *;
  }

  /** What is under the last pointer afterwards, and whether anything was before. */
  lemma NewTail(s: Store, iblock: seq<nat>, n: nat, data: nat, index: nat)
    requires Filled(s, iblock, n) && n < MAX_BLOCKS && n != LIMIT && Unused(s, data) && Unused(s, index)
    ensures Append(iblock, s.disk, n, data, index).Ok?
    ensures var r, p := Append(iblock, s.disk, n, data, index).value, PointerOf(n);
      && p < |iblock| == |r.0| && AllBlocks(r.1, r.0, p) == Under(r.1, p, r.0[p])
      && (n < NDIRECT ==> Under(r.1, p, r.0[p]) == [data])
      && (iblock[p] == 0 <==> n < NDIRECT || (n - NDIRECT) % IDX == 0)
  {
    AppendForm(s, iblock, n, data, index);
    var r, p := Append(iblock, s.disk, n, data, index).value, PointerOf(n);
    hide Append;
    hide Dense;
    LastPointer(n);
    assert p + 1 < |iblock| ==> !Points(p + 1, n) && iblock[p + 1] == 0;
    assert AllBlocks(r.1, r.0, p + 1) == [];
    hide Under;
    hide Shaped;
  }

  /** The blocks before the last pointer stay. */
  lemma AppendPre(s: Store, iblock: seq<nat>, n: nat, data: nat, index: nat)
    requires Filled(s, iblock, n) && n < MAX_BLOCKS && n != LIMIT && Unused(s, data) && Unused(s, index)
    ensures Append(iblock, s.disk, n, data, index).Ok? && PointerOf(n) < |iblock|
    ensures var r, p := Append(iblock, s.disk, n, data, index).value, PointerOf(n);
      AllBlocks(r.1, r.0, 0) == Upto(s.disk, iblock, 0, p) + AllBlocks(r.1, r.0, p)
  {
    AppendForm(s, iblock, n, data, index);
    var r, p := Append(iblock, s.disk, n, data, index).value, PointerOf(n);
    hide *;
    forall k | 0 <= k < p ensures PreKept(s.disk, iblock, r.1, r.0, k) { AppendKept(s, iblock, n, data, index, k); }
    PreSame(s.disk, iblock, r.1, r.0, p);
    SplitAt(r.1, r.0, 0, p);
  }

  /** Pointer k and what it points to have not changed. */
  ghost predicate PreKept(disk: Disk, x: seq<nat>, disk': Disk, y: seq<nat>, k: nat) {
    && k < |x| == |y| && x[k] == y[k] != 0
    && (x[k] in disk <==> x[k] in disk') && (x[k] in disk ==> disk[x[k]] == disk'[x[k]])
  }

  lemma PreSame(disk: Disk, x: seq<nat>, disk': Disk, y: seq<nat>, p: nat)
    requires p <= |x| == |y| && forall k :: 0 <= k < p ==> PreKept(disk, x, disk', y, k)
    ensures Upto(disk', y, 0, p) == Upto(disk, x, 0, p) && forall k :: 0 <= k < p ==> y[k] != 0
  {
    forall a | 0 <= a < p
      ensures x[a] == y[a] != 0 && (x[a] in disk <==> x[a] in disk') && (x[a] in disk ==> disk[x[a]] == disk'[x[a]])
    {
      assert PreKept(disk, x, disk', y, a);
    }
    UptoSame(disk, x, disk', y, 0, p);
  }

  lemma AppendKept(s: Store, iblock: seq<nat>, n: nat, data: nat, index: nat, k: nat)
    requires Filled(s, iblock, n) && n < MAX_BLOCKS && n != LIMIT && Unused(s, data) && Unused(s, index)
    requires k < PointerOf(n)
    ensures Append(iblock, s.disk, n, data, index).Ok?
    ensures var r := Append(iblock, s.disk, n, data, index).value; PreKept(s.disk, iblock, r.1, r.0, k)
  {
    AppendForm(s, iblock, n, data, index);
    hide Append;
    LastPointer(n);
    assert Points(k, n) && iblock[k] != 0;
    OtherPointer(s, iblock, n, k);
    hide Filled;
  }

  /** The index block of the last pointer, before and after. */
  lemma LastTail(s: Store, iblock: seq<nat>, n: nat, data: nat, index: nat)
    requires Filled(s, iblock, n) && FreeIsZero(s) && NDIRECT <= n < MAX_BLOCKS && n != LIMIT
    requires Unused(s, data) && Unused(s, index)
    ensures Append(iblock, s.disk, n, data, index).Ok?
    ensures var r, p, j := Append(iblock, s.disk, n, data, index).value, PointerOf(n), (n - NDIRECT) % IDX;
      && p < |iblock| == |r.0| && r.0[p] > 0
      && (j == 0 ==> Under(r.1, p, r.0[p]) == [data] + [index])
      && (j > 0 ==> iblock[p] in s.disk && |s.disk[iblock[p]]| == BSIZE && r.0 == iblock)
      && (j > 0 ==> Under(s.disk, p, iblock[p]) == Decode(s.disk[iblock[p]])[..j] + [iblock[p]])
      && (j > 0 ==> Under(r.1, p, r.0[p]) == Decode(s.disk[iblock[p]])[..j] + [data] + [iblock[p]])
  {
    AppendForm(s, iblock, n, data, index);
    LastPointer(n);
    var r, p, j := Append(iblock, s.disk, n, data, index).value, PointerOf(n), (n - NDIRECT) % IDX;
    hide Append;
    var at := r.0[p];
    LastEntries(s, iblock, n, at);
    hide Filled;
    hide Under;
    hide Decode;
    PokedIs(s.disk[at], j, data);
    forall k | 0 <= k < IDX ensures EntryAt(r.1, at, k) > 0 <==> k < j + 1 {
      PokeIs(s.disk[at], j, data, k);
      assert EntryAt(s.disk, at, k) > 0 <==> k < j;
    }
    UnderLast(r.1, at, p, j + 1);
    UnderLast(s.disk, at, p, j);
    if j > 0 { assert iblock[p := iblock[p]] == iblock; }
  }

  lemma LastEntries(s: Store, iblock: seq<nat>, n: nat, at: nat)
    requires Filled(s, iblock, n) && FreeIsZero(s) && NDIRECT <= n < MAX_BLOCKS && PointerOf(n) < |iblock|
    requires at in s.disk && |s.disk[at]| == BSIZE
    requires if (n - NDIRECT) % IDX == 0 then at !in s.used else at == iblock[PointerOf(n)]
    ensures forall k :: 0 <= k < IDX ==> (EntryAt(s.disk, at, k) > 0 <==> k < (n - NDIRECT) % IDX)
  {
    LastPointer(n);
    forall k | 0 <= k < IDX ensures EntryAt(s.disk, at, k) > 0 <==> k < (n - NDIRECT) % IDX {
      LastNumbers(n, k);
    }
  }

  /** data_block_alloc with the bitmap: what it changes, and the blocks that are now in use. */
  function AppendTo(s: Store, iblock: seq<nat>, n: nat, data: nat, index: nat): (r: Outcome<(Store, seq<nat>)>)
    requires |iblock| == NDIRECT + NINDIRECT && n < MAX_BLOCKS
    ensures r.Ok? ==> |r.value.1| == |iblock|
  {
    var r := Append(iblock, s.disk, n, data, index);
    if r.Panic? then Panic else Ok((Store(r.value.1, s.used + Took(n, data, index)), r.value.0))
  }

  /** One block more, taken from the unused ones, keeps the inode dense and free blocks zero, and is itself
      all zero, as dentry_add expects of it. */
  lemma AppendKeeps(s: Store, iblock: seq<nat>, n: nat, data: nat, index: nat)
    requires Filled(s, iblock, n) && FreeIsZero(s) && n < MAX_BLOCKS && n != LIMIT
    requires Unused(s, data) && Unused(s, index) && data != index
    ensures AppendTo(s, iblock, n, data, index).Ok?
    ensures var (s', ib) := AppendTo(s, iblock, n, data, index).value;
      && Filled(s', ib, n + 1) && FreeIsZero(s') && data in s'.disk && s'.disk[data] == Zeros()
      && Elems(AllBlocks(s'.disk, ib, 0)) == Elems(AllBlocks(s.disk, iblock, 0)) + Took(n, data, index)
  {
    AppendDistinct(s, iblock, n, data, index);
    AppendShape(s, iblock, n, data, index);
    AppendUses(s, iblock, n, data, index);
    hide Append;
    hide Shaped;
    hide AllBlocks;
    var (s', ib) := AppendTo(s, iblock, n, data, index).value;
    forall b | b in AllBlocks(s'.disk, ib, 0) ensures b in s'.used && b in s'.disk && |s'.disk[b]| == BSIZE {
      assert b in Elems(AllBlocks(s'.disk, ib, 0));
    }
  }

  lemma AppendDistinct(s: Store, iblock: seq<nat>, n: nat, data: nat, index: nat)
    requires Filled(s, iblock, n) && FreeIsZero(s) && n < MAX_BLOCKS && n != LIMIT
    requires Unused(s, data) && Unused(s, index) && data != index
    ensures AppendTo(s, iblock, n, data, index).Ok?
    ensures var (s', ib) := AppendTo(s, iblock, n, data, index).value;
      && Distinct(AllBlocks(s'.disk, ib, 0))
      && Elems(AllBlocks(s'.disk, ib, 0)) == Elems(AllBlocks(s.disk, iblock, 0)) + Took(n, data, index)
  {
    AppendBlocks(s, iblock, n, data, index);
    var p := PointerOf(n);
    var pre, tail := Upto(s.disk, iblock, 0, p), AllBlocks(s.disk, iblock, p);
    assert data !in pre + tail && index !in pre + tail && Distinct(pre + tail);
    hide *;
    if n < NDIRECT {
      var none: seq<nat> := [];
      Inserted(pre, none, data, none);
      assert none + [data] + none == [data] && none + none == none;
      TookOne(n, data, index);
    } else if (n - NDIRECT) % IDX == 0 {
      assert data !in pre && index !in pre by { assert pre + [] == pre; }
      InsertedPair(pre, data, index);
      TookOne(n, data, index);
    } else {
      Inserted(pre, Decode(s.disk[iblock[p]])[..(n - NDIRECT) % IDX], data, [iblock[p]]);
      TookOne(n, data, index);
    }
    AppendToIs(s, iblock, n, data, index);
  }

  lemma TookOne(n: nat, data: nat, index: nat)
    ensures Took(n, data, index) == if n >= NDIRECT && (n - NDIRECT) % IDX == 0 then {data, index} else {data}
  {
  }

  lemma AppendToIs(s: Store, iblock: seq<nat>, n: nat, data: nat, index: nat)
    requires |iblock| == NDIRECT + NINDIRECT && n < MAX_BLOCKS
    ensures var r, q := AppendTo(s, iblock, n, data, index), Append(iblock, s.disk, n, data, index);
      && (r.Panic? <==> q.Panic?)
      && (r.Ok? ==> r.value == (Store(q.value.1, s.used + Took(n, data, index)), q.value.0))
  {
  }

  lemma AppendShape(s: Store, iblock: seq<nat>, n: nat, data: nat, index: nat)
    requires Filled(s, iblock, n) && FreeIsZero(s) && n < MAX_BLOCKS && n != LIMIT
    requires Unused(s, data) && Unused(s, index) && data != index
    ensures AppendTo(s, iblock, n, data, index).Ok?
    ensures var (s', ib) := AppendTo(s, iblock, n, data, index).value; Shaped(s'.disk, ib, n + 1)
  {
    AppendForm(s, iblock, n, data, index);
    LastPointer(n);
    var (s', ib) := AppendTo(s, iblock, n, data, index).value;
    hide Append;
    forall k, j | NDIRECT <= k < |ib| && Points(k, n + 1) && 0 <= j < IDX
      ensures EntryAt(s'.disk, ib[k], j) > 0 <==> BlockNumber(k, j) < n + 1
    {
      if k == PointerOf(n) {
        LastEntries(s, iblock, n, ib[k]);
        LastNumbers(n, j);
        PokeIs(s.disk[ib[k]], (n - NDIRECT) % IDX, data, j);
      } else {
        FullNumbers(n, k, j);
        OtherPointer(s, iblock, n, k);
        assert EntryAt(s.disk, iblock[k], j) > 0 <==> BlockNumber(k, j) < n;
      }
    }
  }

  lemma OtherPointer(s: Store, iblock: seq<nat>, n: nat, k: nat)
    requires Filled(s, iblock, n) && n < MAX_BLOCKS && k < PointerOf(n) < |iblock|
    ensures iblock[k] in s.used && iblock[k] != iblock[PointerOf(n)]
  {
    var p := PointerOf(n);
    FilledSplit(s, iblock, n);
    var pre, tail := Upto(s.disk, iblock, 0, p), AllBlocks(s.disk, iblock, p);
    assert iblock[k] in pre + tail;
    if iblock[p] != 0 {
      DistinctParts(pre, tail);
      TailListed(s.disk, iblock, p, p);
    } else {
      LastPointer(n);
    }
  }

  lemma AppendUses(s: Store, iblock: seq<nat>, n: nat, data: nat, index: nat)
    requires Filled(s, iblock, n) && FreeIsZero(s) && n < MAX_BLOCKS && n != LIMIT
    requires Unused(s, data) && Unused(s, index) && data != index
    ensures AppendTo(s, iblock, n, data, index).Ok?
    ensures var (s', ib) := AppendTo(s, iblock, n, data, index).value;
      && FreeIsZero(s') && data in s'.disk && s'.disk[data] == Zeros()
      && (forall b :: b in s.disk ==> b in s'.disk && |s'.disk[b]| == |s.disk[b]|)
      && (forall i, j :: 0 <= i < j < |ib| && ib[i] == 0 ==> ib[j] == 0)
  {
    AppendForm(s, iblock, n, data, index);
    LastPointer(n);
    if (n >= NDIRECT && (n - NDIRECT) % IDX > 0) { TailListed(s.disk, iblock, 0, PointerOf(n)); }
    hide Append;
    hide AllBlocks;
  }

  /** One data_block_alloc after another on a file of n blocks. */
  function GrowTo(s: Store, iblock: seq<nat>, n: nat, news: seq<(nat, nat)>): (r: Outcome<(Store, seq<nat>)>)
    requires |iblock| == NDIRECT + NINDIRECT && n + |news| <= MAX_BLOCKS
    ensures r.Ok? ==> |r.value.1| == |iblock|
    decreases |news|
  {
    if news == [] then Ok((s, iblock))
    else
      var r := AppendTo(s, iblock, n, news[0].0, news[0].1);
      if r.Panic? then Panic else GrowTo(r.value.0, r.value.1, n + 1, news[1..])
  }

  /** It is the growth of a file whose size is n blocks. */
  lemma {:induction false} GrowToIs(s: Store, iblock: seq<nat>, n: nat, news: seq<(nat, nat)>)
    requires |iblock| == NDIRECT + NINDIRECT && n + |news| <= MAX_BLOCKS
    ensures var r, q := GrowTo(s, iblock, n, news), Grow(iblock, s.disk, BSIZE * n, news);
      (r.Panic? <==> q.Panic?) && (r.Ok? ==> q.value == Some((r.value.1, r.value.0.disk)))
    decreases |news|
  {
    hide Append;
    hide BlockCount;
    if news != [] {
      GrowStep(iblock, s.disk, n, news);
      var r := AppendTo(s, iblock, n, news[0].0, news[0].1);
      hide Grow;
      if r.Ok? { GrowToIs(r.value.0, r.value.1, n + 1, news[1..]); }
    }
  }

  /** Different blocks, none in use. */
  ghost predicate AllUnused(s: Store, news: seq<(nat, nat)>) {
    && (forall m :: 0 <= m < |news| ==> Unused(s, news[m].0) && Unused(s, news[m].1) && news[m].0 != news[m].1)
    && (forall m, l :: 0 <= m < l < |news| ==>
          news[m].0 != news[l].0 && news[m].0 != news[l].1 && news[m].1 != news[l].0 && news[m].1 != news[l].1)
  }

  lemma StillUnused(s: Store, iblock: seq<nat>, n: nat, news: seq<(nat, nat)>)
    requires Filled(s, iblock, n) && FreeIsZero(s) && n < MAX_BLOCKS && n != LIMIT && news != [] && AllUnused(s, news)
    ensures AppendTo(s, iblock, n, news[0].0, news[0].1).Ok?
    ensures AllUnused(AppendTo(s, iblock, n, news[0].0, news[0].1).value.0, news[1..])
  {
    AppendUses(s, iblock, n, news[0].0, news[0].1);
    hide Append;
    hide Filled;
    var s' := AppendTo(s, iblock, n, news[0].0, news[0].1).value.0;
    forall m | 0 <= m < |news[1..]| ensures Unused(s', news[1..][m].0) && Unused(s', news[1..][m].1) {
      assert news[1..][m] == news[m + 1];
      assert news[0].0 != news[m + 1].0 && news[0].1 != news[m + 1].0;
      assert news[0].0 != news[m + 1].1 && news[0].1 != news[m + 1].1;
    }
  }

  /** Exactly the blocks the file gained have come into use. */
  ghost predicate Accounted(s: Store, iblock: seq<nat>, s': Store, ib: seq<nat>) {
    && s'.used == s.used + Elems(AllBlocks(s'.disk, ib, 0))
    && Elems(AllBlocks(s'.disk, ib, 0)) * s.used == Elems(AllBlocks(s.disk, iblock, 0))
  }

  lemma AccountedTwice(s: Store, ib: seq<nat>, s1: Store, ib1: seq<nat>, s2: Store, ib2: seq<nat>)
    requires Accounted(s, ib, s1, ib1) && Accounted(s1, ib1, s2, ib2)
    ensures Accounted(s, ib, s2, ib2)
  {
    var b1, b2 := Elems(AllBlocks(s1.disk, ib1, 0)), Elems(AllBlocks(s2.disk, ib2, 0));
    hide AllBlocks;
    hide Elems;
    assert b1 <= b2;
  }

  /** Growing by `news` panics exactly when it passes through 24 blocks; otherwise the file is dense, free
      blocks are zero, and exactly the blocks it took have come into use. */
  ghost predicate GrowsWell(s: Store, iblock: seq<nat>, n: nat, news: seq<(nat, nat)>)
    requires |iblock| == NDIRECT + NINDIRECT && n + |news| <= MAX_BLOCKS
  {
    var r := GrowTo(s, iblock, n, news);
    && (r.Panic? <==> n <= LIMIT < n + |news|)
    && (r.Ok? ==> Filled(r.value.0, r.value.1, n + |news|) && FreeIsZero(r.value.0) && Accounted(s, iblock, r.value.0, r.value.1))
  }

  /** However far the kernel grows a file. */
  lemma {:induction false} GrowKeeps(s: Store, iblock: seq<nat>, n: nat, news: seq<(nat, nat)>)
    requires |iblock| == NDIRECT + NINDIRECT && n + |news| <= MAX_BLOCKS
    requires Filled(s, iblock, n) && FreeIsZero(s) && AllUnused(s, news)
    ensures GrowsWell(s, iblock, n, news)
    decreases |news|
  {
    hide *;
    if news == [] || n == LIMIT {
      GrowsNone(s, iblock, n, news);
    } else {
      GrowOnce(s, iblock, n, news);
      var (s1, ib1) := AppendTo(s, iblock, n, news[0].0, news[0].1).value;
      GrowKeeps(s1, ib1, n + 1, news[1..]);
      GrowsMore(s, iblock, n, news, s1, ib1);
    }
  }

  lemma GrowsNone(s: Store, iblock: seq<nat>, n: nat, news: seq<(nat, nat)>)
    requires |iblock| == NDIRECT + NINDIRECT && n + |news| <= MAX_BLOCKS && (news == [] || n == LIMIT)
    requires Filled(s, iblock, n) && FreeIsZero(s)
    ensures GrowsWell(s, iblock, n, news)
  {
    FileInUse(s, iblock, n);
    GrowNone(s, iblock, n, news);
    hide Filled;
    hide FreeIsZero;
    hide Accounted;
    hide GrowTo;
  }

  lemma GrowsMore(s: Store, iblock: seq<nat>, n: nat, news: seq<(nat, nat)>, s1: Store, ib1: seq<nat>)
    requires |iblock| == |ib1| == NDIRECT + NINDIRECT && n + |news| <= MAX_BLOCKS && news != [] && n != LIMIT
    requires GrowTo(s, iblock, n, news) == GrowTo(s1, ib1, n + 1, news[1..])
    requires Accounted(s, iblock, s1, ib1) && GrowsWell(s1, ib1, n + 1, news[1..])
    ensures GrowsWell(s, iblock, n, news)
  {
    hide Filled;
    hide FreeIsZero;
    hide Accounted;
    hide GrowTo;
    var r := GrowTo(s, iblock, n, news);
    if r.Ok? { AccountedTwice(s, iblock, s1, ib1, r.value.0, r.value.1); }
  }

  lemma GrowNone(s: Store, iblock: seq<nat>, n: nat, news: seq<(nat, nat)>)
    requires |iblock| == NDIRECT + NINDIRECT && n + |news| <= MAX_BLOCKS
    ensures news == [] ==> GrowTo(s, iblock, n, news) == Ok((s, iblock))
    ensures news != [] && n == LIMIT ==> GrowTo(s, iblock, n, news).Panic?
  {
  }

  lemma GrowOnce(s: Store, iblock: seq<nat>, n: nat, news: seq<(nat, nat)>)
    requires Filled(s, iblock, n) && FreeIsZero(s) && n + |news| <= MAX_BLOCKS && AllUnused(s, news) && news != [] && n != LIMIT
    ensures AppendTo(s, iblock, n, news[0].0, news[0].1).Ok?
    ensures var (s1, ib1) := AppendTo(s, iblock, n, news[0].0, news[0].1).value;
      && |ib1| == NDIRECT + NINDIRECT && GrowTo(s, iblock, n, news) == GrowTo(s1, ib1, n + 1, news[1..])
      && Filled(s1, ib1, n + 1) && FreeIsZero(s1) && AllUnused(s1, news[1..]) && Accounted(s, iblock, s1, ib1)
  {
    var data, index := news[0].0, news[0].1;
    StillUnused(s, iblock, n, news);
    AppendKeeps(s, iblock, n, data, index);
    AppendToIs(s, iblock, n, data, index);
    assert Unused(s, data) && Unused(s, index);
    assert Took(n, data, index) !! s.used;
    FileInUse(s, iblock, n);
    hide AppendTo;
    hide Filled;
    hide FreeIsZero;
    hide AllUnused;
    hide AllBlocks;
    hide Elems;
    hide Took;
  }

  lemma FileInUse(s: Store, iblock: seq<nat>, n: nat)
    requires Filled(s, iblock, n)
    ensures Elems(AllBlocks(s.disk, iblock, 0)) <= s.used && Accounted(s, iblock, s, iblock)
  {
  }

  predicate NoPointers(iblock: seq<nat>) {
    |iblock| == NDIRECT + NINDIRECT && forall k :: 0 <= k < |iblock| ==> iblock[k] == 0
  }

  /** Growing an empty file to any size the kernel can reach and truncating it gives back every block and
      leaves the free ones zero. */
  lemma GrowThenTruncate(s: Store, iblock: seq<nat>, news: seq<(nat, nat)>)
    requires NoPointers(iblock) && FreeIsZero(s) && AllUnused(s, news) && |news| <= LIMIT
    ensures GrowTo(s, iblock, 0, news).Ok?
    ensures var (s', ib) := GrowTo(s, iblock, 0, news).value;
      && Trunc(s', ib, 0).Ok?
      && Trunc(s', ib, 0).value.0.used == s.used && FreeIsZero(Trunc(s', ib, 0).value.0) && Trunc(s', ib, 0).value.1 == iblock
  {
    EmptyFilled(s, iblock);
    GrowKeeps(s, iblock, 0, news);
    var (s', ib) := GrowTo(s, iblock, 0, news).value;
    Truncates(s', ib);
    hide GrowTo;
    hide Trunc;
    hide AllBlocks;
    var r := Trunc(s', ib, 0).value;
    forall b ensures b in r.0.used <==> b in s.used {
      assert b in AllBlocks(s'.disk, ib, 0) <==> b in Elems(AllBlocks(s'.disk, ib, 0));
      assert b !in Elems(AllBlocks(s'.disk, ib, 0)) * s.used;
    }
  }

  lemma EmptyFilled(s: Store, iblock: seq<nat>)
    requires NoPointers(iblock)
    ensures Filled(s, iblock, 0) && Elems(AllBlocks(s.disk, iblock, 0)) == {}
  {
  }

  // ---------------------------------------------------------------- the loops in place

  method Itrunc(s: Store, iblock: array<nat>) returns (r: Outcome<Store>)
    requires iblock.Length == NDIRECT + NINDIRECT
    modifies iblock
    ensures r.Panic? <==> Trunc(s, old(iblock[..]), 0).Panic?
    ensures r.Ok? ==> Trunc(s, old(iblock[..]), 0) == Ok((r.value, iblock[..]))
  {
    ghost var ib := iblock[..];
    var st := s;
    var i := 0;
    while i < NDIRECT + NINDIRECT && iblock[i] != 0
      invariant i <= NDIRECT + NINDIRECT && Trunc(s, ib, 0) == Trunc(st, iblock[..], i)
    {
      var b := iblock[i];
      if i >= NDIRECT {
        if b !in st.disk || |st.disk[b]| != BSIZE { return Panic; }
        var q := TruncListed(st, Decode(st.disk[b]));
        if q.Panic? { return Panic; }
        st := q.value;
      }
      if b !in st.used { return Panic; }
      st := Store(st.disk[b := Zeros()], st.used - {b});
      ghost var before := iblock[..];
      iblock[i] := 0;
      assert iblock[..] == before[i := 0];
      i := i + 1;
    }
    r := Ok(st);
  }

  method TruncListed(s: Store, idx: seq<nat>) returns (r: Outcome<Store>)
    ensures r == TruncIndex(s, idx, 0)
  {
    var st := s;
    var j := 0;
    while j < |idx| && idx[j] != 0
      invariant j <= |idx| && TruncIndex(s, idx, 0) == TruncIndex(st, idx, j)
    {
      if idx[j] !in st.used { return Panic; }
      st := Store(st.disk[idx[j] := Zeros()], st.used - {idx[j]});
      j := j + 1;
    }
    r := Ok(st);
  }
}
