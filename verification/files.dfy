/** Regular files: mkfs lays them out and copies them in (mkfs/mkfs.cc), the kernel finds their blocks
    (kernel/fs/inode.c) and reads them (kernel/fs/file.c).

    A disk maps block numbers to their 1024 bytes. */
module Files {
  import opened Base

  const NDIRECT := 12
  const NINDIRECT := 3
  const IDX := 256          // block numbers in an index block
  const MAX_BLOCKS := 780   // NDIRECT + NINDIRECT * IDX

  type Disk = map<nat, seq<nat>>

  // ---------------------------------------------------------------- index blocks

  function Zeros(): seq<nat> {
    seq(BSIZE, _ => 0)
  }

  /** Byte k of an index block that holds the u32 numbers idx, little-endian. */
  function IdxByte(idx: seq<int>, k: nat): nat
    requires k / 4 < |idx|
  {
    var x := idx[k / 4];
    if k % 4 == 0 then x % 256 else if k % 4 == 1 then x / 256 % 256 else if k % 4 == 2 then x / 65536 % 256 else x / 16777216 % 256
  }

  function Encode(idx: seq<int>): seq<nat>
    requires |idx| == IDX
  {
    seq(BSIZE, k requires 0 <= k < BSIZE => IdxByte(idx, k))
  }

  function ReadIdx(block: seq<nat>, j: nat): nat
    requires |block| == BSIZE && j < IDX
  {
    block[4 * j] + 256 * block[4 * j + 1] + 65536 * block[4 * j + 2] + 16777216 * block[4 * j + 3]
  }

  /** The whole index block as mkfs reads it back. */
  function Decode(block: seq<nat>): (idx: seq<nat>)
    requires |block| == BSIZE
    ensures |idx| == IDX && forall j :: 0 <= j < IDX ==> idx[j] == ReadIdx(block, j)
  {
    seq(IDX, j requires 0 <= j < IDX => ReadIdx(block, j))
  }

  lemma ReadBack(idx: seq<int>, j: nat)
    requires |idx| == IDX && j < IDX && 0 <= idx[j] < U32
    ensures ReadIdx(Encode(idx), j) == idx[j]
  {
    var x := idx[j];
    assert (4 * j + 1) / 4 == j && (4 * j + 2) / 4 == j && (4 * j + 3) / 4 == j;
    assert (4 * j + 1) % 4 == 1 && (4 * j + 2) % 4 == 2 && (4 * j + 3) % 4 == 3;
    Bytes4(x);
  }

  lemma Bytes4(x: nat)
    requires x < U32
    ensures x == x % 256 + 256 * (x / 256 % 256) + 65536 * (x / 65536 % 256) + 16777216 * (x / 16777216 % 256)
  {
    assert x / 65536 == x / 256 / 256 && x / 16777216 == x / 65536 / 256;
  }

  // ---------------------------------------------------------------- where mkfs puts a file

  /** Data block i, and index block g, of a file laid out from block b on. */
  function DataAt(b: nat, i: nat): nat {
    if i < NDIRECT then b + i else b + 13 + (i - NDIRECT) + (i - NDIRECT) / IDX
  }

  function IndexAt(b: nat, g: nat): nat {
    b + NDIRECT + 257 * g
  }

  function BlocksOf(size: nat): nat {
    (size + BSIZE - 1) / BSIZE
  }

  function Groups(nb: nat): nat {
    if nb <= NDIRECT then 0 else (nb - NDIRECT + IDX - 1) / IDX
  }

  /** The numbers in index block g of a file of nb blocks. */
  function IdxOf(b: nat, nb: nat, g: nat): seq<int> {
    seq(IDX, (j: nat) => IdxEntry(b, nb, NDIRECT + IDX * g + j))
  }

  lemma IdxAt(b: nat, nb: nat, g: nat, j: nat)
    requires j < IDX
    ensures IdxOf(b, nb, g)[j] == IdxEntry(b, nb, NDIRECT + IDX * g + j)
  {
  }

  function IdxEntry(b: nat, nb: nat, i: nat): nat {
    if i < nb then DataAt(b, i) else 0
  }

  function IblockOf(b: nat, nb: nat, i: nat): nat {
    if i < NDIRECT then (if i < nb then b + i else 0)
    else if i - NDIRECT < Groups(nb) then IndexAt(b, i - NDIRECT) else 0
  }

  /** The inode and its index blocks describe a file of nb blocks from b on. */
  ghost predicate Laid(disk: Disk, iblock: seq<nat>, b: nat, nb: nat) {
    && |iblock| == NDIRECT + NINDIRECT && nb <= MAX_BLOCKS && 0 < b && b + nb + Groups(nb) < U32
    && (forall i :: 0 <= i < NDIRECT + NINDIRECT ==> iblock[i] == IblockOf(b, nb, i))
    && (forall g :: 0 <= g < Groups(nb) ==> IndexAt(b, g) in disk && disk[IndexAt(b, g)] == Encode(IdxOf(b, nb, g)))
  }

  /** data_block_get: the block number of data block i; None where it would leave the inode. */
  function BlockOf(iblock: seq<nat>, disk: Disk, i: nat): Option<nat> {
    if |iblock| != NDIRECT + NINDIRECT then None
    else if i < NDIRECT then Some(iblock[i])
    else
      var g, j := (i - NDIRECT) / IDX, (i - NDIRECT) % IDX;
      if g >= NINDIRECT || iblock[NDIRECT + g] !in disk || |disk[iblock[NDIRECT + g]]| != BSIZE then None
      else Some(ReadIdx(disk[iblock[NDIRECT + g]], j))
  }

  lemma Position(i: nat)
    requires NDIRECT <= i
    ensures i == NDIRECT + IDX * ((i - NDIRECT) / IDX) + (i - NDIRECT) % IDX
    ensures forall b: nat :: DataAt(b, i) == IndexAt(b, (i - NDIRECT) / IDX) + 1 + (i - NDIRECT) % IDX
  {
  }

  lemma GroupCovers(nb: nat, i: nat)
    requires NDIRECT <= i < nb
    ensures (i - NDIRECT) / IDX < Groups(nb)
    ensures nb <= MAX_BLOCKS ==> Groups(nb) <= NINDIRECT
  {
  }

  lemma DataBelow(b: nat, nb: nat, i: nat)
    requires i < nb
    ensures b <= DataAt(b, i) < b + nb + Groups(nb)
  {
    if i >= NDIRECT { GroupCovers(nb, i); }
  }

  /** The kernel finds exactly the block mkfs meant, for every block of every file that fits. */
  lemma KernelFinds(disk: Disk, iblock: seq<nat>, b: nat, nb: nat, i: nat)
    requires Laid(disk, iblock, b, nb) && i < nb
    ensures BlockOf(iblock, disk, i) == Some(DataAt(b, i))
  {
    if i < NDIRECT {
      assert iblock[i] == IblockOf(b, nb, i);
    } else {
      var g, j := (i - NDIRECT) / IDX, (i - NDIRECT) % IDX;
      GroupCovers(nb, i);
      Position(i);
      DataBelow(b, nb, i);
      assert iblock[NDIRECT + g] == IblockOf(b, nb, NDIRECT + g) == IndexAt(b, g);
      IdxAt(b, nb, g, j);
      ReadBack(IdxOf(b, nb, g), j);
    }
  }

  /** Data blocks are different from each other and from the index blocks. */
  lemma BlocksDiffer(b: nat, i: nat, k: nat)
    ensures i != k ==> DataAt(b, i) != DataAt(b, k)
    ensures DataAt(b, i) != IndexAt(b, k)
  {
    if i >= NDIRECT { Position(i); }
    if k >= NDIRECT { Position(k); }
  }

  // ---------------------------------------------------------------- mkfs: block numbers

  lemma RestLeft(size: nat, i: nat)
    ensures size - BSIZE * i > 0 <==> i < BlocksOf(size)
  {
  }

  /** One index block: the next numbers until it is full or the file is covered. */
  method FillIndex(size: nat, b: nat, g: nat, first: nat) returns (idx: seq<int>, next: nat)
    requires first == IndexAt(b, g) + 1 && NDIRECT + IDX * g < BlocksOf(size)
    ensures idx == IdxOf(b, BlocksOf(size), g)
    ensures next == first + Min(IDX, BlocksOf(size) - NDIRECT - IDX * g)
  {
    var nb := BlocksOf(size);
    var a := new nat[IDX](_ => 0);
    var j := 0;
    next := first;
    var rest := size - BSIZE * (NDIRECT + IDX * g);
    RestLeft(size, NDIRECT + IDX * g);
    while j < IDX && rest > 0
      invariant j <= IDX && next == first + j && rest == size - BSIZE * (NDIRECT + IDX * g + j)
      invariant NDIRECT + IDX * g + j <= nb && (rest > 0 <==> NDIRECT + IDX * g + j < nb)
      invariant forall k :: 0 <= k < IDX ==> a[k] == if k < j then first + k else 0
    {
      a[j] := next;
      next := next + 1;
      j := j + 1;
      rest := rest - BSIZE;
      RestLeft(size, NDIRECT + IDX * g + j);
    }
    forall k | 0 <= k < IDX ensures a[k] == IdxOf(b, nb, g)[k] {
      Position(NDIRECT + IDX * g + k);
      IdxAt(b, nb, g, k);
      assert (IDX * g + k) / IDX == g && (IDX * g + k) % IDX == k;
    }
    idx := a[..];
    assert idx == IdxOf(b, nb, g);
  }

  /** reg_meta_copy: gives the file its block numbers and writes the index blocks; refuses a file of
      more than 780 blocks. */
  method MetaCopy(disk0: Disk, size: nat, b: nat) returns (ok: bool, iblock: array<nat>, disk: Disk, next: nat)
    requires 0 < b && b + MAX_BLOCKS + NINDIRECT < U32
    ensures ok <==> BlocksOf(size) <= MAX_BLOCKS
    ensures ok ==> Laid(disk, iblock[..], b, BlocksOf(size)) && next == b + BlocksOf(size) + Groups(BlocksOf(size))
    ensures forall k :: k in disk0 && (k < b || k >= b + MAX_BLOCKS + NINDIRECT) ==> k in disk && disk[k] == disk0[k]
  {
    var nb := BlocksOf(size);
    iblock := new nat[NDIRECT + NINDIRECT](_ => 0);
    disk := disk0;
    next := b;
    var rest: int := size;
    var i := 0;
    RestLeft(size, 0);
    while i < NDIRECT && rest > 0
      invariant i <= NDIRECT && i <= nb && next == b + i && rest == size - BSIZE * i && (rest > 0 <==> i < nb)
      invariant forall k :: 0 <= k < NDIRECT + NINDIRECT ==> iblock[k] == if k < i then b + k else 0
    {
      iblock[i] := next;
      next := next + 1;
      i := i + 1;
      rest := rest - BSIZE;
      RestLeft(size, i);
    }
    var g := 0;
    ghost var done := i;
    while g < NINDIRECT && rest > 0
      invariant g <= NINDIRECT && done == Min(nb, NDIRECT + IDX * g) && next == b + done + g
      invariant rest == size - BSIZE * done && (rest > 0 <==> done < nb)
      invariant g == Groups(done) && (done < nb ==> done == NDIRECT + IDX * g)
      invariant forall k :: 0 <= k < NDIRECT ==> iblock[k] == if k < nb then b + k else 0
      invariant forall k :: NDIRECT <= k < NDIRECT + NINDIRECT ==> iblock[k] == if k - NDIRECT < g then IndexAt(b, k - NDIRECT) else 0
      invariant forall h :: 0 <= h < g ==> IndexAt(b, h) in disk && disk[IndexAt(b, h)] == Encode(IdxOf(b, nb, h))
      invariant forall k :: k in disk0 && (k < b || k >= b + MAX_BLOCKS + NINDIRECT) ==> k in disk && disk[k] == disk0[k]
    {
      iblock[g + NDIRECT] := next;
      var idx, n := FillIndex(size, b, g, next + 1);
      rest := rest - BSIZE * (n - next - 1);
      done := done + (n - next - 1);
      disk := disk[next := Encode(idx)];
      next := n;
      g := g + 1;
      RestLeft(size, done);
    }
    ok := rest <= 0;
  }

  // ---------------------------------------------------------------- mkfs: contents

  /** The bytes of block i of the file. */
  function Slice(file: seq<nat>, i: nat): seq<nat>
    requires i < BlocksOf(|file|)
  {
    file[BSIZE * i..Min(BSIZE * (i + 1), |file|)]
  }

  /** mkfs's buffer after reading block i: a short read leaves the bytes of the block before. */
  function BufAt(file: seq<nat>, i: nat): (r: seq<nat>)
    requires i < BlocksOf(|file|)
    ensures |r| == BSIZE && r[..|Slice(file, i)|] == Slice(file, i)
  {
    var before := if i == 0 then Zeros() else BufAt(file, i - 1);
    Slice(file, i) + before[|Slice(file, i)|..]
  }

  /** The disk once the first n blocks are copied. */
  function CopyTo(disk: Disk, b: nat, file: seq<nat>, n: nat): Disk
    requires n <= BlocksOf(|file|)
  {
    if n == 0 then disk else CopyTo(disk, b, file, n - 1)[DataAt(b, n - 1) := BufAt(file, n - 1)]
  }

  lemma {:induction false} CopyToIs(disk: Disk, b: nat, file: seq<nat>, n: nat)
    requires n <= BlocksOf(|file|)
    ensures var d := CopyTo(disk, b, file, n);
      && (forall i :: 0 <= i < n ==> DataAt(b, i) in d && d[DataAt(b, i)] == BufAt(file, i))
      && (forall k :: k in disk && (forall i :: 0 <= i < n ==> k != DataAt(b, i)) ==> k in d && d[k] == disk[k])
  {
    hide BufAt;
    hide Slice;
    hide DataAt;
    if n > 0 {
      CopyToIs(disk, b, file, n - 1);
      forall i | 0 <= i < n - 1 ensures DataAt(b, i) != DataAt(b, n - 1) { BlocksDiffer(b, i, n - 1); }
    }
  }

  lemma StillLaid(disk: Disk, iblock: seq<nat>, b: nat, file: seq<nat>, n: nat)
    requires Laid(disk, iblock, b, BlocksOf(|file|)) && n <= BlocksOf(|file|)
    ensures Laid(CopyTo(disk, b, file, n), iblock, b, BlocksOf(|file|))
  {
    CopyToIs(disk, b, file, n);
    forall g | 0 <= g < Groups(BlocksOf(|file|))
      ensures var d := CopyTo(disk, b, file, n); IndexAt(b, g) in d && d[IndexAt(b, g)] == disk[IndexAt(b, g)]
    {
      forall i | 0 <= i < n ensures IndexAt(b, g) != DataAt(b, i) { BlocksDiffer(b, i, g); }
    }
  }

  /** The buffer and the disk when the first n blocks are copied. */
  ghost predicate Copied(disk0: Disk, disk: Disk, b: nat, file: seq<nat>, n: nat, buf: seq<nat>, pos: nat) {
    && n <= BlocksOf(|file|) && disk == CopyTo(disk0, b, file, n) && pos == BSIZE * n
    && buf == if n == 0 then Zeros() else BufAt(file, n - 1)
  }

  /** One block: seek, read up to a block over what the buffer held, write the whole buffer. */
  method CopyBlock(disk: Disk, file: seq<nat>, at: nat, held: seq<nat>, pos: nat, ghost disk0: Disk, ghost b: nat, ghost n: nat)
    returns (disk': Disk, buf: seq<nat>)
    requires Copied(disk0, disk, b, file, n, held, pos) && n < BlocksOf(|file|) && at == DataAt(b, n)
    ensures Copied(disk0, disk', b, file, n + 1, buf, pos + BSIZE)
  {
    var end := Min(pos + BSIZE, |file|);
    buf := file[pos..end] + held[end - pos..];
    disk' := disk[at := buf];
  }

  /** reg_data_copy: the direct blocks, then those of each index block. */
  method DataCopy(disk0: Disk, iblock: seq<nat>, file: seq<nat>, ghost b: nat) returns (disk: Disk)
    requires Laid(disk0, iblock, b, BlocksOf(|file|))
    ensures disk == CopyTo(disk0, b, file, BlocksOf(|file|))
  {
    ghost var nb := BlocksOf(|file|);
    var buf, pos;
    disk, buf, pos := DirectCopy(disk0, iblock, file, b);
    var g := 0;
    ghost var n := Min(nb, NDIRECT);
    while g < NINDIRECT && iblock[NDIRECT + g] > 0
      invariant g <= NINDIRECT && n == Min(nb, NDIRECT + IDX * g) && Copied(disk0, disk, b, file, n, buf, pos)
    {
      assert iblock[NDIRECT + g] == IblockOf(b, nb, NDIRECT + g);
      GroupExists(nb, g);
      hide Copied;
      disk, buf, pos := GroupCopy(disk0, disk, iblock, file, b, g, buf, pos, n);
      n := Min(nb, n + IDX);
      g := g + 1;
    }
    assert g < NINDIRECT ==> iblock[NDIRECT + g] == IblockOf(b, nb, NDIRECT + g);
    GroupExists(nb, g);
  }

  method DirectCopy(disk0: Disk, iblock: seq<nat>, file: seq<nat>, ghost b: nat) returns (disk: Disk, buf: seq<nat>, pos: nat)
    requires Laid(disk0, iblock, b, BlocksOf(|file|))
    ensures Copied(disk0, disk, b, file, Min(BlocksOf(|file|), NDIRECT), buf, pos)
  {
    ghost var nb := BlocksOf(|file|);
    disk, buf, pos := disk0, Zeros(), 0;
    var i := 0;
    while i < NDIRECT && iblock[i] > 0
      invariant i <= NDIRECT && i <= nb && Copied(disk0, disk, b, file, i, buf, pos)
    {
      assert iblock[i] == IblockOf(b, nb, i);
      hide Copied;
      disk, buf := CopyBlock(disk, file, iblock[i], buf, pos, disk0, b, i);
      i, pos := i + 1, pos + BSIZE;
    }
    assert i < NDIRECT ==> iblock[i] == IblockOf(b, nb, i);
  }

  method GroupCopy(ghost disk0: Disk, disk1: Disk, iblock: seq<nat>, file: seq<nat>, ghost b: nat, g: nat, buf0: seq<nat>, pos0: nat, ghost first: nat)
    returns (disk: Disk, buf: seq<nat>, pos: nat)
    requires Laid(disk0, iblock, b, BlocksOf(|file|)) && g < NINDIRECT && first == NDIRECT + IDX * g < BlocksOf(|file|)
    requires Copied(disk0, disk1, b, file, first, buf0, pos0)
    ensures Copied(disk0, disk, b, file, Min(BlocksOf(|file|), first + IDX), buf, pos)
  {
    IndexBlockIs(disk0, disk1, iblock, b, file, g, buf0, pos0);
    var idx := Decode(disk1[iblock[NDIRECT + g]]);
    EntriesAre(idx, b, BlocksOf(|file|), g, first);
    hide Copied;
    hide Encode;
    hide IdxOf;
    hide DataAt;
    hide Laid;
    disk, buf, pos := IndexCopy(disk0, disk1, idx, file, b, first, buf0, pos0);
  }

  /** The blocks of one index block. */
  method IndexCopy(ghost disk0: Disk, disk1: Disk, idx: seq<nat>, file: seq<nat>, ghost b: nat, ghost first: nat, buf0: seq<nat>, pos0: nat)
    returns (disk: Disk, buf: seq<nat>, pos: nat)
    requires |idx| == IDX && first <= BlocksOf(|file|)
    requires forall j :: 0 <= j < IDX ==> (idx[j] > 0 <==> first + j < BlocksOf(|file|))
    requires forall j :: 0 <= j < IDX && idx[j] > 0 ==> idx[j] == DataAt(b, first + j)
    requires Copied(disk0, disk1, b, file, first, buf0, pos0)
    ensures Copied(disk0, disk, b, file, Min(BlocksOf(|file|), first + IDX), buf, pos)
  {
    hide Copied;
    hide CopyTo;
    hide BufAt;
    hide Slice;
    hide DataAt;
    hide BlocksOf;
    ghost var nb := BlocksOf(|file|);
    disk, buf, pos := disk1, buf0, pos0;
    var j := 0;
    while j < IDX && idx[j] > 0
      invariant j <= IDX && first + j <= nb && Copied(disk0, disk, b, file, first + j, buf, pos)
    {
      disk, buf := CopyBlock(disk, file, idx[j], buf, pos, disk0, b, first + j);
      j, pos := j + 1, pos + BSIZE;
    }
  }

  /** Copying data has left the index blocks as they were. */
  lemma IndexBlockIs(disk0: Disk, disk: Disk, iblock: seq<nat>, b: nat, file: seq<nat>, g: nat, buf: seq<nat>, pos: nat)
    requires Laid(disk0, iblock, b, BlocksOf(|file|)) && g < NINDIRECT && NDIRECT + IDX * g < BlocksOf(|file|)
    requires Copied(disk0, disk, b, file, NDIRECT + IDX * g, buf, pos)
    ensures iblock[NDIRECT + g] == IndexAt(b, g) && IndexAt(b, g) in disk
    ensures disk[IndexAt(b, g)] == Encode(IdxOf(b, BlocksOf(|file|), g)) && |disk[IndexAt(b, g)]| == BSIZE
    ensures b + BlocksOf(|file|) + Groups(BlocksOf(|file|)) < U32 && 0 < b
  {
    var nb := BlocksOf(|file|);
    StillLaid(disk0, iblock, b, file, NDIRECT + IDX * g);
    GroupCovers(nb, NDIRECT + IDX * g);
    assert iblock[NDIRECT + g] == IblockOf(b, nb, NDIRECT + g);
  }

  lemma EntryIs(b: nat, nb: nat, g: nat, j: nat)
    requires j < IDX && 0 < b && b + nb + Groups(nb) < U32
    ensures var i := NDIRECT + IDX * g + j;
      ReadIdx(Encode(IdxOf(b, nb, g)), j) == (if i < nb then DataAt(b, i) else 0) && (i < nb ==> DataAt(b, i) > 0)
  {
    var i := NDIRECT + IDX * g + j;
    if i < nb { DataBelow(b, nb, i); }
    IdxAt(b, nb, g, j);
    ReadBack(IdxOf(b, nb, g), j);
  }

  lemma EntriesAre(idx: seq<nat>, b: nat, nb: nat, g: nat, first: nat)
    requires 0 < b && b + nb + Groups(nb) < U32 && first == NDIRECT + IDX * g && idx == Decode(Encode(IdxOf(b, nb, g)))
    ensures forall j :: 0 <= j < IDX ==> (idx[j] > 0 <==> first + j < nb) && (idx[j] > 0 ==> idx[j] == DataAt(b, first + j))
  {
    forall j | 0 <= j < IDX ensures (idx[j] > 0 <==> first + j < nb) && (idx[j] > 0 ==> idx[j] == DataAt(b, first + j)) {
      EntryIs(b, nb, g, j);
    }
  }

  /** Whether there is an index block g says whether there is a data block for it. */
  lemma GroupExists(nb: nat, g: nat)
    requires nb <= MAX_BLOCKS && g <= NINDIRECT
    ensures g < Groups(nb) <==> NDIRECT + IDX * g < nb
    ensures g == NINDIRECT ==> nb <= NDIRECT + IDX * g
  {
  }

  /** What mkfs wrote is what the kernel reads: every block of every file of up to 780 blocks is found
      where it was put and holds the file's bytes; no two share a block and none is an index block.
      Past the end of the file the last block repeats the block before it, or is zero if it is the first. */
  lemma RoundTrip(disk: Disk, iblock: seq<nat>, b: nat, file: seq<nat>, i: nat)
    requires Laid(disk, iblock, b, BlocksOf(|file|)) && i < BlocksOf(|file|)
    ensures var d, r := CopyTo(disk, b, file, BlocksOf(|file|)), BlockOf(iblock, CopyTo(disk, b, file, BlocksOf(|file|)), i);
      && r.Some? && r.value in d && |d[r.value]| == BSIZE && d[r.value][..|Slice(file, i)|] == Slice(file, i)
      && d[r.value][|Slice(file, i)|..] == (if i == 0 then Zeros() else BufAt(file, i - 1))[|Slice(file, i)|..]
      && (forall k :: 0 <= k < BlocksOf(|file|) && k != i ==> BlockOf(iblock, d, k) != r)
      && (forall k :: NDIRECT <= k < NDIRECT + NINDIRECT ==> iblock[k] != r.value)
  {
    var nb := BlocksOf(|file|);
    var d := CopyTo(disk, b, file, nb);
    StillLaid(disk, iblock, b, file, nb);
    CopyToIs(disk, b, file, nb);
    KernelFinds(d, iblock, b, nb, i);
    forall k | 0 <= k < nb && k != i ensures BlockOf(iblock, d, k) != Some(DataAt(b, i)) {
      KernelFinds(d, iblock, b, nb, k);
      BlocksDiffer(b, i, k);
    }
    hide BufAt;
    hide Slice;
    forall k | NDIRECT <= k < NDIRECT + NINDIRECT ensures iblock[k] != DataAt(b, i) {
      assert iblock[k] == IblockOf(b, nb, k);
      BlocksDiffer(b, i, k - NDIRECT);
    }
  }

  // ---------------------------------------------------------------- reading a file

  /** blockno_of_data: the block for byte `off`; None where the code indexes outside iblock or outside
      the index block. */
  function BlockOfData(iblock: seq<nat>, disk: Disk, off: nat): Option<nat>
    requires |iblock| == NDIRECT + NINDIRECT
  {
    if off < BSIZE * NDIRECT then Some(iblock[off / BSIZE])
    else
      var i := (off - BSIZE * NDIRECT) / IDX;
      if i >= NINDIRECT || iblock[i + NDIRECT] !in disk || |disk[iblock[i + NDIRECT]]| != BSIZE then None
      else
        var k := (off / BSIZE - NDIRECT - i * IDX) % U32;
        if k >= IDX then None else Some(ReadIdx(disk[iblock[i + NDIRECT]], k))
  }

  const GOOD := 12544  // BSIZE * NDIRECT + IDX

  /** blockno_of_data divides the indirect offset by 256 bytes instead of 256 blocks: it is right up to
      byte 12543 of a file, and outside its tables for every later byte. */
  lemma BlockOfDataExact(disk: Disk, iblock: seq<nat>, b: nat, nb: nat, off: nat)
    requires Laid(disk, iblock, b, nb) && off / BSIZE < nb
    ensures BlockOfData(iblock, disk, off).Some? <==> off < GOOD
    ensures off < GOOD ==> BlockOfData(iblock, disk, off) == BlockOf(iblock, disk, off / BSIZE) == Some(DataAt(b, off / BSIZE))
  {
    KernelFinds(disk, iblock, b, nb, off / BSIZE);
    hide IdxOf;
    hide Encode;
    hide ReadIdx;
    hide DataAt;
    hide Laid;
    if off >= BSIZE * NDIRECT {
      var x := off - BSIZE * NDIRECT;
      assert nb <= MAX_BLOCKS;
      WrongIndex(x);
      if x < 256 { assert off / BSIZE == NDIRECT && x / IDX == 0; }
    }
  }

  lemma WrongIndex(x: nat)
    requires x < BSIZE * MAX_BLOCKS
    ensures x >= 256 ==> ((x + BSIZE * NDIRECT) / BSIZE - NDIRECT - x / IDX * IDX) % U32 >= IDX
  {
    assert (x + BSIZE * NDIRECT) / BSIZE == x / BSIZE + NDIRECT;
    assert x / IDX * IDX > x - 256 && x / BSIZE * BSIZE <= x;
  }

  /** The read loop: n bytes from off on. */
  function Fread(iblock: seq<nat>, disk: Disk, off: nat, n: nat): Option<seq<nat>>
    requires |iblock| == NDIRECT + NINDIRECT
    decreases n
  {
    if n == 0 then Some([])
    else
      var len := Min(BSIZE - off % BSIZE, n);
      var at := BlockOfData(iblock, disk, off);
      if at.None? || at.value !in disk || |disk[at.value]| != BSIZE then None
      else
        var rest := Fread(iblock, disk, off + len, n - len);
        if rest.None? then None else Some(disk[at.value][off % BSIZE..off % BSIZE + len] + rest.value)
  }

  /** The disk holds the file where the inode says. */
  ghost predicate Stored(disk: Disk, iblock: seq<nat>, b: nat, file: seq<nat>) {
    && Laid(disk, iblock, b, BlocksOf(|file|))
    && forall i :: 0 <= i < BlocksOf(|file|) ==>
         DataAt(b, i) in disk && |disk[DataAt(b, i)]| == BSIZE && disk[DataAt(b, i)][..|Slice(file, i)|] == Slice(file, i)
  }

  lemma MkfsStores(disk: Disk, iblock: seq<nat>, b: nat, file: seq<nat>)
    requires Laid(disk, iblock, b, BlocksOf(|file|))
    ensures Stored(CopyTo(disk, b, file, BlocksOf(|file|)), iblock, b, file)
  {
    StillLaid(disk, iblock, b, file, BlocksOf(|file|));
    CopyToIs(disk, b, file, BlocksOf(|file|));
  }

  /** The offsets at which every chunk starts where blockno_of_data is right. */
  predicate Readable(off: nat, n: nat) {
    n == 0 || (off < GOOD && off + n <= 13 * BSIZE)
  }

  lemma SubSlice(s: seq<nat>, a: nat, e: nat, k: nat, len: nat)
    requires a <= e <= |s| && a + k + len <= e
    ensures s[a..e][k..k + len] == s[a + k..a + k + len]
  {
    var x, y := s[a..e][k..k + len], s[a + k..a + k + len];
    forall i | 0 <= i < len ensures x[i] == y[i] {
      assert x[i] == s[a..e][k + i];
    }
  }

  lemma Piece(disk: Disk, iblock: seq<nat>, b: nat, file: seq<nat>, off: nat, len: nat)
    requires Stored(disk, iblock, b, file) && 0 < len <= BSIZE - off % BSIZE && off + len <= |file|
    ensures off / BSIZE < BlocksOf(|file|) && DataAt(b, off / BSIZE) in disk && |disk[DataAt(b, off / BSIZE)]| == BSIZE
    ensures disk[DataAt(b, off / BSIZE)][off % BSIZE..off % BSIZE + len] == file[off..off + len]
  {
    var i, k := off / BSIZE, off % BSIZE;
    assert off == BSIZE * i + k;
    var block := disk[DataAt(b, i)];
    assert k + len <= |Slice(file, i)|;
    assert block[..|Slice(file, i)|][k..k + len] == block[k..k + len];
    SubSlice(file, BSIZE * i, Min(BSIZE * (i + 1), |file|), k, len);
  }

  /** fread returns exactly the bytes asked for, or leaves its tables, and which of the two is decided
      by the range alone. */
  lemma {:induction false} FreadExact(disk: Disk, iblock: seq<nat>, b: nat, file: seq<nat>, off: nat, n: nat)
    requires Stored(disk, iblock, b, file) && off + n <= |file|
    ensures Fread(iblock, disk, off, n) == if Readable(off, n) then Some(file[off..off + n]) else None
    decreases n
  {
    if n == 0 {
      assert file[off..off + n] == [];
    } else {
      var len := Min(BSIZE - off % BSIZE, n);
      FreadExact(disk, iblock, b, file, off + len, n - len);
      hide Fread;
      hide Readable;
      hide Stored;
      FreadOne(disk, iblock, b, file, off, n, len);
    }
  }

  lemma FreadOne(disk: Disk, iblock: seq<nat>, b: nat, file: seq<nat>, off: nat, n: nat, len: nat)
    requires Stored(disk, iblock, b, file) && off + n <= |file| && 0 < n && 0 < len == Min(BSIZE - off % BSIZE, n) <= n
    requires Fread(iblock, disk, off + len, n - len) ==
             if Readable(off + len, n - len) then Some(file[off + len..off + len + (n - len)]) else None
    ensures Fread(iblock, disk, off, n) == if Readable(off, n) then Some(file[off..off + n]) else None
  {
    FreadChunk(disk, iblock, b, file, off, n);
    hide Fread;
    hide Stored;
    if off < GOOD {
      NextChunk(off, n);
      hide Readable;
      Joined(file, off, len, n);
      PrefixedIf(Readable(off, n), file[off..off + len], file[off + len..off + len + (n - len)]);
    }
  }

  lemma PrefixedIf(c: bool, s: seq<nat>, t: seq<nat>)
    ensures Prefixed(s, if c then Some(t) else None) == if c then Some(s + t) else None
  {
  }

  /** One turn of the loop on a stored file. */
  lemma FreadChunk(disk: Disk, iblock: seq<nat>, b: nat, file: seq<nat>, off: nat, n: nat)
    requires Stored(disk, iblock, b, file) && off + n <= |file| && n > 0
    ensures off >= GOOD ==> Fread(iblock, disk, off, n) == None
    ensures off < GOOD ==>
      var len := Min(BSIZE - off % BSIZE, n);
      Fread(iblock, disk, off, n) == Prefixed(file[off..off + len], Fread(iblock, disk, off + len, n - len))
  {
    var len := Min(BSIZE - off % BSIZE, n);
    Piece(disk, iblock, b, file, off, len);
    BlockOfDataExact(disk, iblock, b, BlocksOf(|file|), off);
    hide Stored;
    hide BlockOfData;
    FreadStep(iblock, disk, off, n);
    hide Fread;
  }

  lemma Joined(s: seq<nat>, a: nat, len: nat, n: nat)
    requires len <= n && a + n <= |s|
    ensures s[a..a + len] + s[a + len..a + len + (n - len)] == s[a..a + n]
  {
  }

  lemma NextChunk(off: nat, n: nat)
    requires off < GOOD && n > 0
    ensures var len := Min(BSIZE - off % BSIZE, n); Readable(off + len, n - len) <==> Readable(off, n)
  {
    var len := Min(BSIZE - off % BSIZE, n);
    if len < n { assert (off + len) % BSIZE == 0 && off + len == BSIZE * (off / BSIZE + 1); }
  }

  // ---------------------------------------------------------------- seeking

  datatype Whence = Set | Cur | Other

  const INT_MAX := 0x7fff_ffff

  /** fseek, with d an int and the offset a u32. */
  function Seek(off: nat, fsize: nat, d: int, w: Whence): nat {
    match w
    case Cur => if d > 0 then Min((off + d) % U32, fsize) else off - Min(off, -d)
    case Set => Min(fsize, if d > 0 then d else 0)
    case Other => off
  }

  function Clamp(x: int, hi: nat): nat {
    if x < 0 then 0 else Min(x, hi)
  }

  function Sought(off: nat, fsize: nat, d: int, w: Whence): nat {
    match w case Cur => Clamp(off + d, fsize) case Set => Clamp(d, fsize) case Other => off
  }

  /** fseek moves to the position asked for, held within the file, if and only if the u32 sum does not
      wrap, which it never does for a file below 2 GiB. */
  lemma SeekClamps(off: nat, fsize: nat, d: int, w: Whence)
    requires off <= fsize < U32 && -INT_MAX - 1 <= d <= INT_MAX
    ensures Seek(off, fsize, d, w) <= fsize
    ensures Seek(off, fsize, d, w) == Sought(off, fsize, d, w) <==> (w.Cur? ==> off + d < U32)
  {
  }

  // ---------------------------------------------------------------- sessions

  datatype FileOp = ReadOp(bytes: nat) | SeekOp(d: int, w: Whence)

  predicate IntArgs(ops: seq<FileOp>) {
    forall i :: 0 <= i < |ops| && ops[i].SeekOp? ==> -INT_MAX - 1 <= ops[i].d <= INT_MAX
  }

  /** The code: the offset and everything read, or None once a read leaves its tables. */
  function Session(iblock: seq<nat>, disk: Disk, fsize: nat, ops: seq<FileOp>): Option<(nat, seq<seq<nat>>)>
    requires |iblock| == NDIRECT + NINDIRECT
  {
    if ops == [] then Some((0, []))
    else
      var s, op := Session(iblock, disk, fsize, ops[..|ops| - 1]), ops[|ops| - 1];
      if s.None? || s.value.0 > fsize then None
      else
        match op
        case SeekOp(d, w) => Some((Seek(s.value.0, fsize, d, w), s.value.1))
        case ReadOp(bytes) =>
          var r := Fread(iblock, disk, s.value.0, Min(bytes, fsize - s.value.0));
          if r.None? then None else Some((s.value.0 + |r.value|, s.value.1 + [r.value]))
  }

  /** A file as a byte sequence with a position. */
  function Ideal(file: seq<nat>, ops: seq<FileOp>): (r: (nat, seq<seq<nat>>))
    ensures r.0 <= |file|
  {
    if ops == [] then (0, [])
    else
      var s, op := Ideal(file, ops[..|ops| - 1]), ops[|ops| - 1];
      match op
      case ReadOp(bytes) => var n := Min(bytes, |file| - s.0); (s.0 + n, s.1 + [file[s.0..s.0 + n]])
      case SeekOp(d, w) => (Sought(s.0, |file|, d, w), s.1)
  }

  /** For files of up to 12 blocks and 256 bytes every sequence of reads and seeks sees the file ... */
  lemma {:induction false} EverySession(disk: Disk, iblock: seq<nat>, b: nat, file: seq<nat>, ops: seq<FileOp>)
    requires Stored(disk, iblock, b, file) && |file| <= GOOD && IntArgs(ops)
    ensures Session(iblock, disk, |file|, ops) == Some(Ideal(file, ops))
  {
    hide Stored;
    hide Fread;
    if ops != [] {
      var before, op := ops[..|ops| - 1], ops[|ops| - 1];
      EverySession(disk, iblock, b, file, before);
      var off := Ideal(file, before).0;
      match op
      case ReadOp(bytes) => FreadExact(disk, iblock, b, file, off, Min(bytes, |file| - off));
      case SeekOp(d, w) => SeekClamps(off, |file|, d, w);
    }
  }

  /** ... and for every longer file some read does not. */
  lemma LongerFilesFail(disk: Disk, iblock: seq<nat>, b: nat, file: seq<nat>)
    requires Stored(disk, iblock, b, file) && |file| > GOOD
    ensures Session(iblock, disk, |file|, [SeekOp(GOOD, Set), ReadOp(1)]) == None
  {
    var ops := [SeekOp(GOOD, Set), ReadOp(1)];
    assert ops[..1] == [SeekOp(GOOD, Set)] && ops[..1][..0] == [];
    assert Session(iblock, disk, |file|, ops[..1]) == Some((GOOD, []));
    FreadExact(disk, iblock, b, file, GOOD, 1);
  }

  /** What mkfs wrote is read back by every sequence of reads and seeks if and only if the file is no longer
      than that. */
  lemma MkfsThenRead(disk: Disk, iblock: seq<nat>, b: nat, file: seq<nat>)
    requires Laid(disk, iblock, b, BlocksOf(|file|))
    ensures (forall ops :: IntArgs(ops) ==>
               Session(iblock, CopyTo(disk, b, file, BlocksOf(|file|)), |file|, ops) == Some(Ideal(file, ops)))
            <==> |file| <= GOOD
  {
    MkfsStores(disk, iblock, b, file);
    hide *;
    var d := CopyTo(disk, b, file, BlocksOf(|file|));
    if |file| <= GOOD {
      forall ops | IntArgs(ops) ensures Session(iblock, d, |file|, ops) == Some(Ideal(file, ops)) {
        EverySession(d, iblock, b, file, ops);
      }
    } else {
      LongerFilesFail(d, iblock, b, file);
      SmallArgs();
    }
  }

  lemma SmallArgs()
    ensures IntArgs([SeekOp(GOOD, Set), ReadOp(1)])
  {
  }

  /** fread and fseek on an open file. */
  class OpenFile {
    const iblock: seq<nat>
    const fsize: nat
    var off: nat

    ghost predicate Valid()
      reads this
    {
      |iblock| == NDIRECT + NINDIRECT && off <= fsize < U32
    }

    method Read(disk: Disk, bytes: nat) returns (r: Option<seq<nat>>)
      requires Valid()
      modifies this`off
      ensures Valid()
      ensures r == Fread(iblock, disk, old(off), Min(bytes, fsize - old(off)))
      ensures off == if r.Some? then old(off) + |r.value| else old(off)
    {
      var pcur, pend: nat := off, Min(bytes, fsize - off);
      ghost var n := pend;
      var done: seq<nat> := [];
      assert Fread(iblock, disk, off + n, 0) == Some([]);
      hide Fread;
      hide BlockOfData;
      PrefixedNone(Fread(iblock, disk, off, n));
      while pend > 0
        invariant off == old(off) && pcur + pend == off + n && |done| == n - pend && pend <= n
        invariant Fread(iblock, disk, off, n) == Prefixed(done, Fread(iblock, disk, pcur, pend))
      {
        var piece := ReadChunk(disk, pcur, pend);
        if piece.None? { return None; }
        var len := |piece.value|;
        PrefixedTwice(done, piece.value, Fread(iblock, disk, pcur + len, pend - len));
        done := done + piece.value;
        pcur, pend := pcur + len, pend - len;
      }
      assert done + [] == done;
      off := off + |done|;
      return Some(done);
    }

    /** One turn of the loop: the rest of the block, or of the request. */
    method ReadChunk(disk: Disk, pcur: nat, pend: nat) returns (r: Option<seq<nat>>)
      requires |iblock| == NDIRECT + NINDIRECT && pend > 0
      ensures r.None? ==> Fread(iblock, disk, pcur, pend) == None
      ensures r.Some? ==> 0 < |r.value| <= pend
      ensures r.Some? ==>
        Fread(iblock, disk, pcur, pend) == Prefixed(r.value, Fread(iblock, disk, pcur + |r.value|, pend - |r.value|))
    {
      var len := Min(BSIZE - pcur % BSIZE, pend);
      var at := BlockOfData(iblock, disk, pcur);
      FreadStep(iblock, disk, pcur, pend);
      hide BlockOfData;
      hide Fread;
      if at.None? || at.value !in disk || |disk[at.value]| != BSIZE { return None; }
      r := Some(disk[at.value][pcur % BSIZE..pcur % BSIZE + len]);
    }

    method SeekTo(d: int, w: Whence) returns (before: nat)
      requires Valid() && -INT_MAX - 1 <= d <= INT_MAX
      modifies this`off
      ensures Valid() && before == old(off) && off == Seek(old(off), fsize, d, w)
      ensures off == Sought(old(off), fsize, d, w) <==> (w.Cur? ==> old(off) + d < U32)
    {
      SeekClamps(off, fsize, d, w);
      before := off;
      match w
      case Cur =>
        if d > 0 { off := Min((off + d) % U32, fsize); } else { off := off - Min(off, -d); }
      case Set => off := Min(fsize, if d > 0 then d else 0);
      case Other =>
    }
  }

  lemma FreadStep(iblock: seq<nat>, disk: Disk, off: nat, n: nat)
    requires |iblock| == NDIRECT + NINDIRECT && n > 0
    ensures var len, at := Min(BSIZE - off % BSIZE, n), BlockOfData(iblock, disk, off);
      Fread(iblock, disk, off, n) ==
      if at.None? || at.value !in disk || |disk[at.value]| != BSIZE then None
      else Prefixed(disk[at.value][off % BSIZE..off % BSIZE + len], Fread(iblock, disk, off + len, n - len))
  {
  }

  function Prefixed(s: seq<nat>, r: Option<seq<nat>>): Option<seq<nat>> {
    if r.None? then None else Some(s + r.value)
  }

  lemma PrefixedNone(r: Option<seq<nat>>)
    ensures Prefixed([], r) == r
  {
    if r.Some? { assert [] + r.value == r.value; }
  }

  lemma PrefixedTwice(s: seq<nat>, t: seq<nat>, r: Option<seq<nat>>)
    ensures Prefixed(s, Prefixed(t, r)) == Prefixed(s + t, r)
  {
    if r.Some? { assert s + (t + r.value) == (s + t) + r.value; }
  }

  // ---------------------------------------------------------------- growing a file

  /** An index block with entry j overwritten. */
  function Poke(block: seq<nat>, j: nat, x: nat): seq<nat>
    requires |block| == BSIZE && j < IDX
  {
    block[4 * j := x % 256][4 * j + 1 := x / 256 % 256][4 * j + 2 := x / 65536 % 256][4 * j + 3 := x / 16777216 % 256]
  }

  lemma PokeIs(block: seq<nat>, j: nat, x: nat, k: nat)
    requires |block| == BSIZE && j < IDX && k < IDX && x < U32
    ensures |Poke(block, j, x)| == BSIZE && ReadIdx(Poke(block, j, x), k) == if k == j then x else ReadIdx(block, k)
  {
    Bytes4(x);
  }

  const LIMIT := 24  // FILE_MAX_DATA_BLOCKNUM

  /** data_block_alloc's change to an inode of n blocks: `data` becomes block n, and `index` its index
      block when the last one is full.  Exactly 24 blocks are refused. */
  function Append(iblock: seq<nat>, disk: Disk, n: nat, data: nat, index: nat): (r: Outcome<(seq<nat>, Disk)>)
    requires |iblock| == NDIRECT + NINDIRECT && n < MAX_BLOCKS
    ensures r.Ok? ==> |r.value.0| == |iblock|
  {
    if n == LIMIT then Panic
    else if n < NDIRECT then Ok((iblock[n := data], disk))
    else
      var g, j := (n - NDIRECT) / IDX, (n - NDIRECT) % IDX;
      var ib := if j == 0 then iblock[NDIRECT + g := index] else iblock;
      var at := ib[NDIRECT + g];
      if at !in disk || |disk[at]| != BSIZE then Ok((ib, disk)) else Ok((ib, disk[at := Poke(disk[at], j, data)]))
  }

  /** The index blocks in use are on the disk and different, and a new one is none of them. */
  ghost predicate Indexed(iblock: seq<nat>, disk: Disk, n: nat, index: nat) {
    && |iblock| == NDIRECT + NINDIRECT && n < MAX_BLOCKS && index in disk && |disk[index]| == BSIZE
    && (forall k :: NDIRECT <= k < NDIRECT + Groups(n) && k < |iblock| ==>
          iblock[k] in disk && |disk[iblock[k]]| == BSIZE && iblock[k] != index)
    && (forall k, l :: NDIRECT <= k < l < NDIRECT + Groups(n) && l < |iblock| ==> iblock[k] != iblock[l])
  }

  /** After data_block_alloc the file has its old blocks in order and the new one at the end; a file of
      exactly 24 blocks, and no other, makes it panic. */
  lemma AppendExtends(iblock: seq<nat>, disk: Disk, n: nat, data: nat, index: nat, i: nat)
    requires Indexed(iblock, disk, n, index) && data < U32 && i <= n
    ensures var r := Append(iblock, disk, n, data, index);
      && (r.Panic? <==> n == LIMIT)
      && (r.Ok? ==> BlockOf(r.value.0, r.value.1, i) == if i == n then Some(data) else BlockOf(iblock, disk, i))
  {
    var r := Append(iblock, disk, n, data, index);
    if r.Ok? && n >= NDIRECT {
      var g, j := (n - NDIRECT) / IDX, (n - NDIRECT) % IDX;
      GroupsAre(n);
      var at := r.value.0[NDIRECT + g];
      if i >= NDIRECT {
        var h, k := (i - NDIRECT) / IDX, (i - NDIRECT) % IDX;
        GroupsAre(i);
        PokeIs(disk[at], j, data, k);
        if h < g { assert iblock[NDIRECT + h] != at; }
      }
    }
  }

  /** balloc's blocks are on the disk, and the index blocks among them are new and different. */
  ghost predicate Spare(iblock: seq<nat>, disk: Disk, n: nat, news: seq<(nat, nat)>) {
    && (forall m :: 0 <= m < |news| ==> news[m].0 < U32 && Indexed(iblock, disk, n, news[m].1))
    && (forall m, l :: 0 <= m < l < |news| ==> news[m].1 != news[l].1)
  }

  lemma AppendSpares(iblock: seq<nat>, disk: Disk, n: nat, news: seq<(nat, nat)>)
    requires |iblock| == NDIRECT + NINDIRECT && n + |news| <= MAX_BLOCKS && news != [] && Spare(iblock, disk, n, news)
    requires n != LIMIT
    ensures var r := Append(iblock, disk, n, news[0].0, news[0].1).value; Spare(r.0, r.1, n + 1, news[1..])
  {
    var r := Append(iblock, disk, n, news[0].0, news[0].1).value;
    assert Indexed(iblock, disk, n, news[0].1);
    forall m | 0 <= m < |news[1..]| ensures Indexed(r.0, r.1, n + 1, news[1..][m].1) {
      assert news[1..][m] == news[m + 1];
      assert Indexed(iblock, disk, n, news[m + 1].1);
      StillIndexed(iblock, disk, n, news[0].0, news[0].1, news[m + 1].1);
    }
  }

  lemma StillIndexed(iblock: seq<nat>, disk: Disk, n: nat, data: nat, index: nat, later: nat)
    requires Indexed(iblock, disk, n, index) && Indexed(iblock, disk, n, later) && index != later
    requires n != LIMIT && n + 1 < MAX_BLOCKS
    ensures var r := Append(iblock, disk, n, data, index).value; Indexed(r.0, r.1, n + 1, later)
  {
    GroupsNext(n);
  }

  lemma GroupsNext(n: nat)
    requires n < MAX_BLOCKS
    ensures n < NDIRECT ==> Groups(n + 1) == 0
    ensures n >= NDIRECT ==> Groups(n + 1) == (n - NDIRECT) / IDX + 1
    ensures n >= NDIRECT ==> Groups(n) == if (n - NDIRECT) % IDX == 0 then Groups(n + 1) - 1 else Groups(n + 1)
  {
  }

  /** iblock_cnt, an int that data_block_alloc reads as a u32. */
  function BlockCount(fsize: nat): nat {
    (fsize / BSIZE - if fsize % BSIZE == 0 then 0 else 1) % U32
  }

  /** iblock_cnt counts the blocks of a file if and only if its size is a multiple of the block size. */
  lemma CountExact(fsize: nat)
    requires fsize < U32
    ensures BlockCount(fsize) == BlocksOf(fsize) <==> fsize % BSIZE == 0
    ensures fsize % BSIZE != 0 ==> BlockCount(fsize) == if fsize < BSIZE then U32 - 1 else BlocksOf(fsize) - 2
  {
  }

  /** data_block_alloc: None where the count is beyond what iblock can point to. */
  function Alloc(iblock: seq<nat>, disk: Disk, fsize: nat, data: nat, index: nat): (r: Outcome<Option<(seq<nat>, Disk)>>)
    requires |iblock| == NDIRECT + NINDIRECT
    ensures r.Ok? && r.value.Some? ==> |r.value.value.0| == |iblock|
  {
    var n := BlockCount(fsize);
    if n >= MAX_BLOCKS then Ok(None)
    else
      var r := Append(iblock, disk, n, data, index);
      if r.Panic? then Panic else Ok(Some(r.value))
  }

  // ---------------------------------------------------------------- a block at a time

  /** dentry_add's way: data_block_alloc, then the size grows by a block.  Each new block comes with the
      index block it may need. */
  function Grow(iblock: seq<nat>, disk: Disk, fsize: nat, news: seq<(nat, nat)>): Outcome<Option<(seq<nat>, Disk)>>
    requires |iblock| == NDIRECT + NINDIRECT
    decreases |news|
  {
    if news == [] then Ok(Some((iblock, disk)))
    else
      var r := Alloc(iblock, disk, fsize, news[0].0, news[0].1);
      if r.Panic? || r.value.None? then r else Grow(r.value.value.0, r.value.value.1, fsize + BSIZE, news[1..])
  }

  /** A file that grows block by block, as directories do, has all its blocks in order, for any number of
      them up to 780; only a growth that passes through 24 blocks panics. */
  lemma {:induction false} GrowExtends(iblock: seq<nat>, disk: Disk, n: nat, news: seq<(nat, nat)>, i: nat)
    requires |iblock| == NDIRECT + NINDIRECT && n + |news| <= MAX_BLOCKS && Spare(iblock, disk, n, news)
    requires i < n + |news|
    ensures var r := Grow(iblock, disk, BSIZE * n, news);
      && (r.Panic? <==> n <= LIMIT < n + |news|)
      && (r.Ok? ==> r.value.Some? && |r.value.value.0| == NDIRECT + NINDIRECT)
      && (r.Ok? ==> BlockOf(r.value.value.0, r.value.value.1, i)
                    == if i < n then BlockOf(iblock, disk, i) else Some(news[i - n].0))
    decreases |news|
  {
    hide BlockCount;
    if news != [] {
      GrowStep(iblock, disk, n, news);
      assert Indexed(iblock, disk, n, news[0].1);
      if n == LIMIT { return; }
      if i <= n { AppendExtends(iblock, disk, n, news[0].0, news[0].1, i); }
      AppendSpares(iblock, disk, n, news);
      hide Grow;
      hide Append;
      hide Spare;
      hide Indexed;
      hide BlockOf;
      var r := Append(iblock, disk, n, news[0].0, news[0].1).value;
      if i < n + 1 + |news[1..]| {
        GrowExtends(r.0, r.1, n + 1, news[1..], i);
      }
    }
  }

  lemma GrowStep(iblock: seq<nat>, disk: Disk, n: nat, news: seq<(nat, nat)>)
    requires |iblock| == NDIRECT + NINDIRECT && n < MAX_BLOCKS && news != []
    ensures var r := Append(iblock, disk, n, news[0].0, news[0].1);
      Grow(iblock, disk, BSIZE * n, news)
      == if r.Panic? then Panic else Grow(r.value.0, r.value.1, BSIZE * (n + 1), news[1..])
  {
    WholeBlocks(n);
    hide BlockCount;
    hide Append;
  }

  lemma WholeBlocks(n: nat)
    requires n <= MAX_BLOCKS
    ensures BlockCount(BSIZE * n) == n == BlocksOf(BSIZE * n) && BSIZE * n + BSIZE == BSIZE * (n + 1)
  {
  }

  // ---------------------------------------------------------------- fwrite

  /** The allocation loop of fwrite, which leaves the size, and so the count, alone. */
  function AllocMany(iblock: seq<nat>, disk: Disk, fsize: nat, news: seq<(nat, nat)>): Outcome<Option<(seq<nat>, Disk)>>
    requires |iblock| == NDIRECT + NINDIRECT
    decreases |news|
  {
    if news == [] then Ok(Some((iblock, disk)))
    else
      var r := Alloc(iblock, disk, fsize, news[0].0, news[0].1);
      if r.Panic? || r.value.None? then r else AllocMany(r.value.value.0, r.value.value.1, fsize, news[1..])
  }

  /** How often that loop runs for `bytes` bytes at offset off. */
  function Needed(fsize: nat, off: nat, bytes: nat): nat
    requires off <= fsize
  {
    if bytes <= fsize - off then 0 else BlocksOf(bytes - (fsize - off))
  }

  /** The loop itself; `news` is what balloc gives it. */
  method AllocLoop(iblock: seq<nat>, disk: Disk, fsize: nat, off: nat, bytes: nat, news: seq<(nat, nat)>)
    returns (r: Outcome<Option<(seq<nat>, Disk)>>)
    requires |iblock| == NDIRECT + NINDIRECT && off <= fsize && |news| == Needed(fsize, off, bytes)
    ensures r == AllocMany(iblock, disk, fsize, news)
  {
    var ib, d, free, k := iblock, disk, fsize - off, 0;
    assert news[0..] == news;
    hide Alloc;
    while free < bytes
      invariant |ib| == NDIRECT + NINDIRECT && k <= |news| && free == fsize - off + BSIZE * k
      invariant AllocMany(iblock, disk, fsize, news) == AllocMany(ib, d, fsize, news[k..])
      decreases bytes - free
    {
      MoreNeeded(fsize, off, bytes, k);
      var q := Alloc(ib, d, fsize, news[k].0, news[k].1);
      if q.Panic? || q.value.None? { return q; }
      assert news[k..][1..] == news[k + 1..];
      ib, d, free, k := q.value.value.0, q.value.value.1, free + BSIZE, k + 1;
    }
    MoreNeeded(fsize, off, bytes, k);
    return Ok(Some((ib, d)));
  }

  lemma MoreNeeded(fsize: nat, off: nat, bytes: nat, k: nat)
    requires off <= fsize
    ensures fsize - off + BSIZE * k < bytes <==> k < Needed(fsize, off, bytes)
  {
  }

  /** The loop puts all its blocks in one place: the last stays. */
  lemma {:induction false} ManyKeepLast(iblock: seq<nat>, disk: Disk, fsize: nat, news: seq<(nat, nat)>, i: nat)
    requires |iblock| == NDIRECT + NINDIRECT && BlockCount(fsize) < MAX_BLOCKS && news != []
    requires Spare(iblock, disk, BlockCount(fsize), news) && i <= BlockCount(fsize) && BlockCount(fsize) != LIMIT
    ensures var r, n := AllocMany(iblock, disk, fsize, news), BlockCount(fsize);
      && r.Ok? && r.value.Some? && |r.value.value.0| == NDIRECT + NINDIRECT
      && BlockOf(r.value.value.0, r.value.value.1, i) == if i == n then Some(news[|news| - 1].0) else BlockOf(iblock, disk, i)
    decreases |news|
  {
    var n := BlockCount(fsize);
    hide BlockCount;
    assert Indexed(iblock, disk, n, news[0].1);
    AppendExtends(iblock, disk, n, news[0].0, news[0].1, i);
    if |news| > 1 {
      AgainSpares(iblock, disk, n, news);
      hide Append;
      hide Spare;
      hide Indexed;
      var r := Append(iblock, disk, n, news[0].0, news[0].1).value;
      ManyKeepLast(r.0, r.1, fsize, news[1..], i);
      assert news[1..][|news[1..]| - 1] == news[|news| - 1];
    }
  }

  lemma AgainSpares(iblock: seq<nat>, disk: Disk, n: nat, news: seq<(nat, nat)>)
    requires |iblock| == NDIRECT + NINDIRECT && n < MAX_BLOCKS && news != [] && Spare(iblock, disk, n, news) && n != LIMIT
    ensures var r := Append(iblock, disk, n, news[0].0, news[0].1).value; Spare(r.0, r.1, n, news[1..])
  {
    var r := Append(iblock, disk, n, news[0].0, news[0].1).value;
    assert Indexed(iblock, disk, n, news[0].1);
    forall m | 0 <= m < |news[1..]| ensures Indexed(r.0, r.1, n, news[1..][m].1) {
      assert news[1..][m] == news[m + 1];
      assert Indexed(iblock, disk, n, news[m + 1].1);
      GroupsNext(n);
    }
  }

  /** The first `count` blocks are as before, and the new ones follow in order. */
  ghost predicate Extended(iblock: seq<nat>, disk: Disk, iblock': seq<nat>, disk': Disk, count: nat, news: seq<(nat, nat)>) {
    && |iblock| == |iblock'| == NDIRECT + NINDIRECT && count + |news| <= MAX_BLOCKS
    && forall i :: 0 <= i < count + |news| ==>
         BlockOf(iblock', disk', i) == if i < count then BlockOf(iblock, disk, i) else Some(news[i - count].0)
  }

  /** What fwrite is for, as to size and blocks: the size covers old and new bytes, and every byte has a
      block.  The code adds `bytes` to the size. */
  ghost predicate FwriteRight(iblock: seq<nat>, disk: Disk, fsize: nat, off: nat, bytes: nat, news: seq<(nat, nat)>)
    requires |iblock| == NDIRECT + NINDIRECT
  {
    var r := AllocMany(iblock, disk, fsize, news);
    && r.Ok? && r.value.Some? && Extended(iblock, disk, r.value.value.0, r.value.value.1, BlocksOf(fsize), news)
    && fsize + bytes == if off + bytes < fsize then fsize else off + bytes
  }

  /** balloc hands out different blocks that are not the file's. */
  ghost predicate NewBlocks(iblock: seq<nat>, disk: Disk, count: nat, news: seq<(nat, nat)>)
    requires |iblock| == NDIRECT + NINDIRECT && count <= MAX_BLOCKS
  {
    && (forall m, l :: 0 <= m < l < |news| ==> news[m].0 != news[l].0)
    && (forall i, m :: 0 <= i < count && 0 <= m < |news| ==> BlockOf(iblock, disk, i) != Some(news[m].0))
  }

  /** fwrite gets size and blocks right if and only if it writes nothing, or appends at most one block to
      a file that ends at a block boundary and has neither 24 blocks nor all 780. */
  lemma FwriteExact(iblock: seq<nat>, disk: Disk, fsize: nat, off: nat, bytes: nat, news: seq<(nat, nat)>)
    requires |iblock| == NDIRECT + NINDIRECT && off <= fsize < U32 && BlocksOf(fsize) <= MAX_BLOCKS
    requires |news| == Needed(fsize, off, bytes) && NewBlocks(iblock, disk, BlocksOf(fsize), news)
    requires BlockCount(fsize) < MAX_BLOCKS ==> Spare(iblock, disk, BlockCount(fsize), news)
    ensures FwriteRight(iblock, disk, fsize, off, bytes, news) <==>
            || bytes == 0
            || (off == fsize && fsize % BSIZE == 0 && bytes <= BSIZE && BlocksOf(fsize) < MAX_BLOCKS && BlocksOf(fsize) != LIMIT)
  {
    CountExact(fsize);
    if bytes > 0 && off == fsize && BlocksOf(fsize) + |news| <= MAX_BLOCKS {
      if fsize % BSIZE == 0 && BlocksOf(fsize) != LIMIT {
        AppendAligned(iblock, disk, fsize, news);
      } else {
        AppendAstray(iblock, disk, fsize, news);
      }
      hide AllocMany;
      hide Spare;
    }
  }

  lemma AppendAligned(iblock: seq<nat>, disk: Disk, fsize: nat, news: seq<(nat, nat)>)
    requires |iblock| == NDIRECT + NINDIRECT && BlockCount(fsize) == BlocksOf(fsize) != LIMIT
    requires news != [] && BlocksOf(fsize) + |news| <= MAX_BLOCKS
    requires NewBlocks(iblock, disk, BlocksOf(fsize), news) && Spare(iblock, disk, BlockCount(fsize), news)
    ensures var r := AllocMany(iblock, disk, fsize, news);
      && r.Ok? && r.value.Some?
      && (Extended(iblock, disk, r.value.value.0, r.value.value.1, BlocksOf(fsize), news) <==> |news| == 1)
  {
    var n := BlocksOf(fsize);
    forall i | 0 <= i <= n { ManyKeepLast(iblock, disk, fsize, news, i); }
    ManyKeepLast(iblock, disk, fsize, news, n);
    hide AllocMany;
    hide BlockOf;
    hide Spare;
  }

  lemma AppendAstray(iblock: seq<nat>, disk: Disk, fsize: nat, news: seq<(nat, nat)>)
    requires |iblock| == NDIRECT + NINDIRECT && news != [] && BlocksOf(fsize) + |news| <= MAX_BLOCKS
    requires BlockCount(fsize) == LIMIT || BlockCount(fsize) >= MAX_BLOCKS || BlockCount(fsize) < BlocksOf(fsize)
    requires NewBlocks(iblock, disk, BlocksOf(fsize), news)
    requires BlockCount(fsize) < MAX_BLOCKS ==> Spare(iblock, disk, BlockCount(fsize), news)
    ensures var r := AllocMany(iblock, disk, fsize, news);
      r.Panic? || r.value.None? || !Extended(iblock, disk, r.value.value.0, r.value.value.1, BlocksOf(fsize), news)
  {
    var n := BlockCount(fsize);
    if n < MAX_BLOCKS && n != LIMIT {
      ManyKeepLast(iblock, disk, fsize, news, n);
      hide AllocMany;
      hide BlockOf;
      hide Spare;
    }
  }

  lemma GroupsAre(n: nat)
    requires NDIRECT <= n < MAX_BLOCKS
    ensures var g, j := (n - NDIRECT) / IDX, (n - NDIRECT) % IDX;
      g < NINDIRECT && Groups(n) == if j == 0 then g else g + 1
  {
  }
}
