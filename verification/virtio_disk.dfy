/** The virtio block driver (kernel/dev/disk.c) together with the device it talks to.

    The driver and the device share a descriptor table and two rings whose indices are
    free-running 16-bit counters.  `Driver` is that shared memory plus the driver's own
    book-keeping; `Sys` adds the device, the requesting tasks and history variables, on
    which no value the driver or the device computes depends: they say whose request a
    chain is.  Every critical section of the driver is one step, the device may take its
    own steps in between, and each iteration of the interrupt loop is a separate step.
 */
module VirtioDisk {
  import opened Base

  const NUM := 8

  type Block = seq<int>

  /** What a descriptor's address field points to. */
  datatype Addr = Null | Header(head: nat) | Payload(buf: nat) | StatusByte(owner: nat)

  datatype Desc = Desc(addr: Addr, len: nat, hasNext: bool, devWrites: bool, next: nat)
  const BLANK := Desc(Null, 0, false, false, 0)

  datatype BlkReq = BlkReq(write: bool, sector: nat)
  datatype Info = Info(b: Option<nat>, status: nat)
  datatype Buf = Buf(blockno: nat, data: Block, disk: bool)

  datatype Driver = Driver(
    free: seq<bool>, desc: seq<Desc>, ops: seq<BlkReq>, info: seq<Info>,
    availRing: seq<nat>, availIdx: nat,
    usedRing: seq<nat>, usedIdx: nat,   // written by the device
    seen: nat,                          // disk.used_idx
    bufs: seq<Buf>)

  predicate Shape(d: Driver) {
    && |d.free| == |d.desc| == |d.ops| == |d.info| == |d.availRing| == |d.usedRing| == NUM
    && d.availIdx < U16 && d.usedIdx < U16 && d.seen < U16
  }

  /** `b->blockno * (BSIZE / 512)` is computed in 32 bits. */
  function SectorOf(blockno: nat): nat {
    blockno * (BSIZE / 512) % U32
  }

  /** Two blocks share their sectors exactly when they agree modulo 2^31. */
  lemma SectorsCollide(a: nat, b: nat)
    ensures SectorOf(a) == SectorOf(b) <==> a % (U32 / 2) == b % (U32 / 2)
  {
    var h := U32 / 2;
    assert a == a / h * h + a % h && b == b / h * h + b % h;
    assert a * 2 % U32 == a % h * 2;
    assert b * 2 % U32 == b % h * 2;
  }

  /** The request covers the bytes from blockno * BSIZE on, 512 to a sector, if and only if the block number
      is below 2^31; the sector is always that of blockno modulo 2^31. */
  lemma SectorExact(blockno: nat)
    ensures SectorOf(blockno) == blockno % 0x8000_0000 * 2
    ensures SectorOf(blockno) * 512 == blockno * 1024 <==> blockno < 0x8000_0000
  {
    var h := 0x8000_0000;
    assert blockno == blockno / h * h + blockno % h;
    assert blockno * 2 % U32 == blockno % h * 2;
  }

  // ---------------------------------------------------------------- descriptors

  function LowestFree(free: seq<bool>, i: nat := 0): (r: int)
    requires i <= |free|
    ensures r == -1 || i <= r < |free|
    ensures r == -1 ==> forall j :: i <= j < |free| ==> !free[j]
    ensures r != -1 ==> free[r] && forall j :: i <= j < r ==> !free[j]
    decreases |free| - i
  {
    if i == |free| then -1 else if free[i] then i else LowestFree(free, i + 1)
  }

  function FreeCount(free: seq<bool>): nat {
    if free == [] then 0 else FreeCount(free[..|free| - 1]) + if free[|free| - 1] then 1 else 0
  }

  lemma {:induction false} FreeCountUpdate(free: seq<bool>, i: nat, v: bool)
    requires i < |free|
    ensures FreeCount(free[i := v]) ==
            FreeCount(free) - (if free[i] then 1 else 0) + (if v then 1 else 0)
  {
    var n := |free| - 1;
    if i == n {
      assert free[i := v][..n] == free[..n];
    } else {
      assert free[i := v][..n] == free[..n][i := v];
      FreeCountUpdate(free[..n], i, v);
    }
  }

  lemma {:induction false} FreeCountZero(free: seq<bool>)
    ensures FreeCount(free) == 0 <==> forall i :: 0 <= i < |free| ==> !free[i]
  {
    if free != [] {
      FreeCountZero(free[..|free| - 1]);
      assert forall i :: 0 <= i < |free| - 1 ==> free[i] == free[..|free| - 1][i];
    }
  }

  lemma {:induction false} FreeCountBound(free: seq<bool>)
    ensures FreeCount(free) <= |free|
  {
    if free != [] { FreeCountBound(free[..|free| - 1]); }
  }

  function Busy(free: seq<bool>): (n: nat) {
    FreeCountBound(free);
    |free| - FreeCount(free)
  }

  function AllocDesc(d: Driver): (Driver, int)
    requires Shape(d)
  {
    var i := LowestFree(d.free);
    if i < 0 then (d, -1) else (d.(free := d.free[i := false]), i)
  }

  function FreeDesc(d: Driver, i: nat): (r: Outcome<Driver>)
    requires Shape(d)
    ensures r.Ok? ==> Shape(r.value) && i < NUM && Busy(r.value.free) < Busy(d.free)
  {
    if i >= NUM || d.free[i] then Panic
    else
      FreeCountUpdate(d.free, i, true);
      Ok(d.(desc := d.desc[i := BLANK], free := d.free[i := true]))
  }

  function FreeChain(d: Driver, i: nat): Outcome<Driver>
    requires Shape(d)
    decreases Busy(d.free)
  {
    match FreeDesc(d, i)
    case Panic => Panic
    case Ok(d') => if d.desc[i].hasNext then FreeChain(d', d.desc[i].next) else Ok(d')
  }

  datatype Alloc3Result =
    | Got(d: Driver, i0: nat, i1: nat, i2: nat)
    | Full(d: Driver, woke: bool)   // woke: some descriptor was handed back, so sleepers were woken
    | Broken                        // free_desc panicked

  function Alloc3(d: Driver): Alloc3Result
    requires Shape(d)
  {
    var (d1, i0) := AllocDesc(d);
    if i0 < 0 then Full(d1, false) else
    var (d2, i1) := AllocDesc(d1);
    if i1 < 0 then
      match FreeDesc(d2, i0) case Panic => Broken case Ok(e) => Full(e, true)
    else
    var (d3, i2) := AllocDesc(d2);
    if i2 < 0 then
      match FreeDesc(d3, i0)
      case Panic => Broken
      case Ok(e) => match FreeDesc(e, i1) case Panic => Broken case Ok(g) => Full(g, true)
    else Got(d3, i0, i1, i2)
  }

  predicate FreeIsBlank(d: Driver)
    requires Shape(d)
  {
    forall i :: 0 <= i < NUM && d.free[i] ==> d.desc[i] == BLANK
  }

  /** Three descriptors are handed out exactly when three are free; otherwise nothing changes. */
  lemma Alloc3Meaning(d: Driver)
    requires Shape(d) && FreeIsBlank(d)
    ensures FreeCount(d.free) < 3 ==> Alloc3(d).Full? && Alloc3(d).d == d
    ensures FreeCount(d.free) >= 3 ==>
      var r := Alloc3(d);
      && r.Got? && r.i0 < NUM && r.i1 < NUM && r.i2 < NUM
      && r.i0 != r.i1 && r.i1 != r.i2 && r.i0 != r.i2
      && d.free[r.i0] && d.free[r.i1] && d.free[r.i2]
      && r.d == d.(free := d.free[r.i0 := false][r.i1 := false][r.i2 := false])
      && FreeCount(r.d.free) == FreeCount(d.free) - 3
  {
    FreeCountZero(d.free);
    var (d1, i0) := AllocDesc(d);
    if i0 >= 0 {
      FreeCountUpdate(d.free, i0, false);
      FreeCountZero(d1.free);
      var (d2, i1) := AllocDesc(d1);
      if i1 < 0 {
        assert d.free == d2.free[i0 := true];
        assert d.desc == d.desc[i0 := BLANK];
      } else {
        FreeCountUpdate(d1.free, i1, false);
        FreeCountZero(d2.free);
        hide FreeCount;
        var (d3, i2) := AllocDesc(d2);
        if i2 < 0 {
          assert d.free == d3.free[i0 := true][i1 := true];
          assert d.desc == d.desc[i0 := BLANK][i1 := BLANK];
        } else {
          FreeCountUpdate(d2.free, i2, false);
        }
      }
    }
  }

  // ---------------------------------------------------------------- the driver's critical sections

  /** Fill in the three descriptors and publish the chain (kernel/dev/disk.c:333-376). */
  function Post(d: Driver, b: nat, write: bool, i0: nat, i1: nat, i2: nat): (r: Driver)
    requires Shape(d) && i0 < NUM && i1 < NUM && i2 < NUM && b < |d.bufs|
    ensures Shape(r)
  {
    d.(
    ops := d.ops[i0 := BlkReq(write, SectorOf(d.bufs[b].blockno))],
    desc := d.desc[i0 := Desc(Header(i0), 16, true, false, i1)]
    [i1 := Desc(Payload(b), BSIZE, true, !write, i2)]
    [i2 := Desc(StatusByte(i0), 1, false, true, 0)],
    info := d.info[i0 := Info(Some(b), 0xff)],
    bufs := d.bufs[b := d.bufs[b].(disk := true)],
    availRing := d.availRing[d.availIdx % NUM := i0],
    availIdx := (d.availIdx + 1) % U16)
  }

  /** The end of virtio_disk_rw, once the buffer's `disk` flag is clear. */
  function Retire(d: Driver, i0: nat): Outcome<Driver>
    requires Shape(d) && i0 < NUM
  {
    FreeChain(d.(info := d.info[i0 := d.info[i0].(b := None)]), i0)
  }

  /** One iteration of the loop in virtio_disk_intr: the new state and the buffer to wake. */
  function ReapOne(d: Driver): Outcome<(Driver, nat)>
    requires Shape(d)
  {
    var id := d.usedRing[d.seen % NUM];
    if id >= NUM || d.info[id].status != 0 || d.info[id].b.None? || d.info[id].b.value >= |d.bufs| then Panic
    else
      var b := d.info[id].b.value;
      Ok((d.(bufs := d.bufs[b := d.bufs[b].(disk := false)], seen := (d.seen + 1) % U16), b))
  }

  /** How far a 16-bit counter at a is behind one at b. */
  function Gap(a: nat, b: nat): (g: nat)
    requires a < U16 && b < U16
  {
    if a <= b then b - a else b + U16 - a
  }

  /** What the device may have written to shared memory by some moment: the used ring, its index, the
      status bytes and the buffers' data. */
  datatype DeviceWrite = DeviceWrite(usedRing: seq<nat>, usedIdx: nat, status: seq<nat>, data: seq<Block>)

  predicate Fitting(dev: seq<DeviceWrite>, n: nat) {
    forall k :: 0 <= k < |dev| ==>
      |dev[k].usedRing| == |dev[k].status| == NUM && dev[k].usedIdx < U16 && |dev[k].data| == n
  }

  function WriteInfo(info: seq<Info>, status: seq<nat>): (r: seq<Info>)
    requires |status| == |info|
    ensures |r| == |info| && forall i :: 0 <= i < |info| ==> r[i] == info[i].(status := status[i])
  {
    seq(|info|, i requires 0 <= i < |info| => info[i].(status := status[i]))
  }

  function WriteData(bufs: seq<Buf>, data: seq<Block>): (r: seq<Buf>)
    requires |data| == |bufs|
    ensures |r| == |bufs| && forall i :: 0 <= i < |bufs| ==> r[i] == bufs[i].(data := data[i])
  {
    seq(|bufs|, i requires 0 <= i < |bufs| => bufs[i].(data := data[i]))
  }

  function Written(d: Driver, dev: seq<DeviceWrite>): (r: Driver)
    requires Shape(d) && Fitting(dev, |d.bufs|)
    ensures Shape(r) && |r.bufs| == |d.bufs| && r.seen == d.seen
  {
    if dev == [] then d
    else
      var w := dev[0];
      d.(usedRing := w.usedRing, usedIdx := w.usedIdx, info := WriteInfo(d.info, w.status), bufs := WriteData(d.bufs, w.data))
  }

  /** The interrupt loop while the device goes on writing: before each test of the loop it writes the next
      element of `dev`, and nothing once there is none.  `woken` lists the buffers served so far. */
  function ReapAll(d: Driver, dev: seq<DeviceWrite>, woken: seq<nat>): Outcome<(Driver, seq<nat>)>
    requires Shape(d) && Fitting(dev, |d.bufs|)
    decreases |dev|, Gap(d.seen, d.usedIdx)
  {
    var d0 := Written(d, dev);
    if d0.seen == d0.usedIdx then Ok((d0, woken))
    else
      match ReapOne(d0)
      case Panic => Panic
      case Ok((d', b)) => ReapAll(d', if dev == [] then [] else dev[1..], woken + [b])
  }

  /** A 16-bit counter k steps after a. */
  function Ahead(a: nat, k: nat): nat {
    (a + k) % U16
  }

  /** Whatever the device does meanwhile, the loop wakes one buffer for each count its index moves by, and
      ends where the device's index is at that moment. */
  lemma {:induction false} ReapAllCounts(d: Driver, dev: seq<DeviceWrite>, woken: seq<nat>)
    requires Shape(d) && Fitting(dev, |d.bufs|) && ReapAll(d, dev, woken).Ok?
    ensures var r := ReapAll(d, dev, woken).value;
      woken <= r.1 && r.0.seen == r.0.usedIdx && r.0.seen == Ahead(d.seen, |r.1| - |woken|)
    decreases |dev|, Gap(d.seen, d.usedIdx)
  {
    hide ReapOne;
    hide Ahead;
    hide Gap;
    hide WriteInfo;
    hide WriteData;
    var d0 := Written(d, dev);
    if d0.seen != d0.usedIdx {
      ReapOneMoves(d0);
      var (d', b) := ReapOne(d0).value;
      ReapAllCounts(d', if dev == [] then [] else dev[1..], woken + [b]);
      NextCount(d.seen, |ReapAll(d, dev, woken).value.1| - |woken| - 1);
    } else {
      NoCount(d);
    }
  }

  lemma ReapOneMoves(d: Driver)
    requires Shape(d) && ReapOne(d).Ok? && d.seen != d.usedIdx
    ensures var d' := ReapOne(d).value.0;
      && Shape(d') && |d'.bufs| == |d.bufs| && d'.seen == Ahead(d.seen, 1)
      && Gap(d'.seen, d'.usedIdx) < Gap(d.seen, d.usedIdx)
  {
  }

  lemma NoCount(d: Driver)
    requires Shape(d)
    ensures Ahead(d.seen, 0) == d.seen
  {
  }

  lemma NextCount(a: nat, k: nat)
    ensures Ahead(Ahead(a, 1), k) == Ahead(a, k + 1)
  {
  }

  // ---------------------------------------------------------------- the device

  datatype Transfer = Transfer(write: bool, sector: nat, b: nat, status: nat)

  /** How the device reads a chain (section 5.2.6 of VIRTIO 1.2): header, data, status byte,
      with the data descriptor writable by the device exactly for a read. */
  function Decode(d: Driver, h: nat): Option<Transfer>
    requires Shape(d)
  {
    if h >= NUM || !d.desc[h].addr.Header? || d.desc[h].addr.head >= NUM || d.desc[h].len != 16
       || !d.desc[h].hasNext || d.desc[h].devWrites || d.desc[h].next >= NUM then None
    else
      var req := d.ops[d.desc[h].addr.head];
      var p := d.desc[d.desc[h].next];
      if !p.addr.Payload? || p.addr.buf >= |d.bufs| || p.len != BSIZE || !p.hasNext
         || p.devWrites == req.write || p.next >= NUM then None
      else
        var q := d.desc[p.next];
        if !q.addr.StatusByte? || q.addr.owner >= NUM || q.len != 1 || q.hasNext || !q.devWrites then None
        else Some(Transfer(req.write, req.sector, p.addr.buf, q.addr.owner))
  }

  function MediaAt(media: map<nat, Block>, sector: nat): Block {
    if sector in media then media[sector] else []
  }

  /** The device's side of one finished request: data, status byte, then the used ring. */
  function Perform(d: Driver, media: map<nat, Block>, h: nat, x: Transfer): (r: (Driver, map<nat, Block>))
    requires Shape(d) && x.b < |d.bufs| && x.status < NUM
    ensures Shape(r.0)
  {
    (d.(
     bufs := if x.write then d.bufs else d.bufs[x.b := d.bufs[x.b].(data := MediaAt(media, x.sector))],
     info := d.info[x.status := d.info[x.status].(status := 0)],
     usedRing := d.usedRing[d.usedIdx % NUM := h],
     usedIdx := (d.usedIdx + 1) % U16),
     if x.write then media[x.sector := d.bufs[x.b].data] else media)
  }

  // ---------------------------------------------------------------- the whole system

  /** Where a posted request is; the numbers are positions in the unbounded histories. */
  datatype Stage = Posted(k: nat) | Consumed | Finished(k: nat) | Reaped(k: nat)

  datatype Phase =
    | Idle
    | Want(b: nat, write: bool)
    | AsleepDesc(b: nat, write: bool)           // asleep on &disk.free[0]
    | InFlight(b: nat, write: bool, i0: nat, i1: nat, i2: nat, stage: Stage, asleep: bool)

  datatype Done = Done(task: nat, b: nat, write: bool, sector: nat, data: Block)

  datatype Sys = Sys(
    d: Driver,
    media: map<nat, Block>, lastAvail: nat, pending: set<nat>,  // the device
    tasks: seq<Phase>,
    // history
    media0: map<nat, Block>, owner: map<nat, nat>, user: map<nat, nat>,
    poster: seq<nat>, nConsumed: nat, nReaped: nat, log: seq<Done>)

  datatype Step =
    | Client(b: nat, blockno: nat, data: Block)  // the holder of an idle buffer changes it
    | Start(t: nat, b: nat, write: bool)         // virtio_disk_rw is entered
    | Allocate(t: nat)                           // a requester runs up to its next sleep
    | Consume                                    // the device takes the next avail entry
    | Complete(h: nat)                           // the device finishes any consumed chain
    | Reap                                       // one interrupt-loop iteration
    | Resume(t: nat)                             // a requester runs after its sleep on the buffer

  function WakeFree(p: Phase): Phase {
    if p.AsleepDesc? then Want(p.b, p.write) else p
  }

  function WakeBuf(p: Phase, b: nat): Phase {
    if p.InFlight? && p.b == b then p.(asleep := false) else p
  }

  function WakeAllFree(tasks: seq<Phase>): (r: seq<Phase>)
    ensures |r| == |tasks| && forall i :: 0 <= i < |tasks| ==> r[i] == WakeFree(tasks[i])
  {
    seq(|tasks|, i requires 0 <= i < |tasks| => WakeFree(tasks[i]))
  }

  function WakeAllBuf(tasks: seq<Phase>, b: nat): (r: seq<Phase>)
    ensures |r| == |tasks| && forall i :: 0 <= i < |tasks| ==> r[i] == WakeBuf(tasks[i], b)
  {
    seq(|tasks|, i requires 0 <= i < |tasks| => WakeBuf(tasks[i], b))
  }

  function BufOf(p: Phase): Option<nat> {
    if p.Idle? then None else Some(p.b)
  }

  function DoAllocate(s: Sys, t: nat): Outcome<Sys>
    requires Shape(s.d) && t < |s.tasks| && s.tasks[t].Want? && s.tasks[t].b < |s.d.bufs|
  {
    var p := s.tasks[t];
    match Alloc3(s.d)
    case Broken => Panic
    case Full(d, woke) =>
      var others := if woke then WakeAllFree(s.tasks) else s.tasks;
      Ok(s.(d := d, tasks := others[t := AsleepDesc(p.b, p.write)]))
    case Got(d, i0, i1, i2) =>
      if i0 >= NUM || i1 >= NUM || i2 >= NUM || !Shape(d) || |d.bufs| != |s.d.bufs| then Panic
      else
        Ok(s.(d := Post(d, p.b, p.write, i0, i1, i2),
           tasks := s.tasks[t := InFlight(p.b, p.write, i0, i1, i2, Posted(|s.poster|), true)],
           owner := s.owner[i0 := t][i1 := t][i2 := t],
           poster := s.poster + [t]))
  }

  function DoConsume(s: Sys): Outcome<Sys>
    requires Shape(s.d)
  {
    if s.lastAvail == s.d.availIdx then Ok(s)
    else
      var h := s.d.availRing[s.lastAvail % NUM];
      if h !in s.owner || s.owner[h] >= |s.tasks| || !s.tasks[s.owner[h]].InFlight? then Panic
      else
        var t := s.owner[h];
        Ok(s.(pending := s.pending + {h}, lastAvail := (s.lastAvail + 1) % U16,
           tasks := s.tasks[t := s.tasks[t].(stage := Consumed)], nConsumed := s.nConsumed + 1))
  }

  function DoComplete(s: Sys, h: nat): Outcome<Sys>
    requires Shape(s.d) && h in s.pending
  {
    match Decode(s.d, h)
    case None => Panic
    case Some(x) =>
      if h !in s.owner || s.owner[h] >= |s.tasks| || !s.tasks[s.owner[h]].InFlight? then Panic
      else
        var t := s.owner[h];
        var (d', media') := Perform(s.d, s.media, h, x);
        Ok(s.(d := d', media := media', pending := s.pending - {h},
           tasks := s.tasks[t := s.tasks[t].(stage := Finished(|s.log|))],
           log := s.log + [Done(t, x.b, x.write, x.sector, d'.bufs[x.b].data)]))
  }

  function DoReap(s: Sys): Outcome<Sys>
    requires Shape(s.d)
  {
    if s.d.seen == s.d.usedIdx then Ok(s)
    else
      match ReapOne(s.d)
      case Panic => Panic
      case Ok((d', b)) =>
        if b !in s.user || s.user[b] >= |s.tasks| || !s.tasks[s.user[b]].InFlight? then Panic
        else
          var woken := WakeAllBuf(s.tasks, b);
          var t := s.user[b];
          Ok(s.(d := d', tasks := woken[t := woken[t].(stage := Reaped(s.nReaped))], nReaped := s.nReaped + 1))
  }

  function DoResume(s: Sys, t: nat): Outcome<Sys>
    requires Shape(s.d) && t < |s.tasks| && s.tasks[t].InFlight? && !s.tasks[t].asleep
  {
    var p := s.tasks[t];
    if p.b >= |s.d.bufs| || p.i0 >= NUM then Panic
    else if s.d.bufs[p.b].disk then Ok(s.(tasks := s.tasks[t := p.(asleep := true)]))
    else
      match Retire(s.d, p.i0)
      case Panic => Panic
      case Ok(d') =>
        Ok(s.(d := d', tasks := WakeAllFree(s.tasks)[t := Idle],
           owner := s.owner - {p.i0, p.i1, p.i2}, user := s.user - {p.b}))
  }

  /** One step; a step that is not enabled leaves the state alone. */
  function Do(s: Sys, a: Step): Outcome<Sys>
    requires Shape(s.d)
  {
    match a
    case Client(b, blockno, data) =>
      if b < |s.d.bufs| && b !in s.user then
        Ok(s.(d := s.d.(bufs := s.d.bufs[b := Buf(blockno, data, s.d.bufs[b].disk)])))
      else Ok(s)
    case Start(t, b, write) =>
      if t < |s.tasks| && s.tasks[t].Idle? && b < |s.d.bufs| && b !in s.user then
        Ok(s.(tasks := s.tasks[t := Want(b, write)], user := s.user[b := t]))
      else Ok(s)
    case Allocate(t) =>
      if t < |s.tasks| && s.tasks[t].Want? && s.tasks[t].b < |s.d.bufs| then DoAllocate(s, t) else Ok(s)
    case Consume => DoConsume(s)
    case Complete(h) => if h in s.pending then DoComplete(s, h) else Ok(s)
    case Reap => DoReap(s)
    case Resume(t) =>
      if t < |s.tasks| && s.tasks[t].InFlight? && !s.tasks[t].asleep then DoResume(s, t) else Ok(s)
  }

  // ---------------------------------------------------------------- the invariant

  ghost predicate ChainOk(d: Driver, p: Phase)
    requires Shape(d) && p.InFlight?
  {
    && p.i0 < NUM && p.i1 < NUM && p.i2 < NUM && p.i0 != p.i1 && p.i1 != p.i2 && p.i0 != p.i2
    && p.b < |d.bufs|
    && d.ops[p.i0] == BlkReq(p.write, SectorOf(d.bufs[p.b].blockno))
    && d.desc[p.i0] == Desc(Header(p.i0), 16, true, false, p.i1)
    && d.desc[p.i1] == Desc(Payload(p.b), BSIZE, true, !p.write, p.i2)
    && d.desc[p.i2] == Desc(StatusByte(p.i0), 1, false, true, 0)
    && d.info[p.i0].b == Some(p.b)
  }

  ghost predicate StageOk(s: Sys, t: nat, p: Phase)
    requires Shape(s.d) && p.InFlight? && p.i0 < NUM && p.b < |s.d.bufs|
  {
    && s.d.bufs[p.b].disk == !p.stage.Reaped?
    && (s.d.info[p.i0].status == 0 <==> p.stage.Finished? || p.stage.Reaped?)
    && match p.stage
       case Posted(k) => s.nConsumed <= k < |s.poster| && s.poster[k] == t && s.d.availRing[k % NUM] == p.i0
       case Consumed => p.i0 in s.pending
       case Finished(k) => s.nReaped <= k < |s.log| && s.d.usedRing[k % NUM] == p.i0 && LogMatches(s, t, p, k)
       case Reaped(k) => k < s.nReaped <= |s.log| && LogMatches(s, t, p, k)
  }

  /** Entry k of the device's log is this very request, and the buffer still holds its data. */
  ghost predicate LogMatches(s: Sys, t: nat, p: Phase, k: nat)
    requires p.InFlight? && p.b < |s.d.bufs| && k < |s.log|
  {
    s.log[k] == Done(t, p.b, p.write, SectorOf(s.d.bufs[p.b].blockno), s.d.bufs[p.b].data)
  }

  ghost predicate TaskOk(s: Sys, t: nat)
    requires Shape(s.d) && t < |s.tasks|
  {
    var p := s.tasks[t];
    && (!p.Idle? ==> p.b in s.user && s.user[p.b] == t && p.b < |s.d.bufs|)
    && ((p.Want? || p.AsleepDesc?) ==> !s.d.bufs[p.b].disk)
    && (p.AsleepDesc? ==> FreeCount(s.d.free) < 3)
    && (p.InFlight? ==>
          && ChainOk(s.d, p)
          && p.i0 in s.owner && p.i1 in s.owner && p.i2 in s.owner
          && s.owner[p.i0] == s.owner[p.i1] == s.owner[p.i2] == t
          && StageOk(s, t, p)
          && (p.asleep ==> s.d.bufs[p.b].disk))
  }

  ghost predicate Counters(s: Sys) {
    && s.nConsumed <= |s.poster| && s.nReaped <= |s.log|
    && s.d.availIdx == |s.poster| % U16 && s.lastAvail == s.nConsumed % U16
    && s.d.usedIdx == |s.log| % U16 && s.d.seen == s.nReaped % U16
  }

  ghost predicate OwnerOk(s: Sys)
    requires Shape(s.d)
  {
    && (forall i :: i in s.owner ==>
          && i < NUM && s.owner[i] < |s.tasks| && s.tasks[s.owner[i]].InFlight?
          && (i == s.tasks[s.owner[i]].i0 || i == s.tasks[s.owner[i]].i1 || i == s.tasks[s.owner[i]].i2))
    && (forall i :: 0 <= i < NUM ==> (s.d.free[i] <==> i !in s.owner))
    && FreeIsBlank(s.d)
  }

  ghost predicate UserOk(s: Sys) {
    && (forall b :: b in s.user ==>
          b < |s.d.bufs| && s.user[b] < |s.tasks| && BufOf(s.tasks[s.user[b]]) == Some(b))
    && (forall b :: 0 <= b < |s.d.bufs| && b !in s.user ==> !s.d.bufs[b].disk)
  }

  ghost predicate RingsOk(s: Sys)
    requires Counters(s)
  {
    && (forall k :: s.nConsumed <= k < |s.poster| ==>
          s.poster[k] < |s.tasks| && s.tasks[s.poster[k]].InFlight? && s.tasks[s.poster[k]].stage == Posted(k))
    && (forall k :: s.nReaped <= k < |s.log| ==>
          s.log[k].task < |s.tasks| && s.tasks[s.log[k].task].InFlight? && s.tasks[s.log[k].task].stage == Finished(k))
    && (forall h :: h in s.pending ==>
          h in s.owner && s.owner[h] < |s.tasks| && s.tasks[s.owner[h]].InFlight?
          && s.tasks[s.owner[h]].i0 == h && s.tasks[s.owner[h]].stage == Consumed)
  }

  function Replay(media: map<nat, Block>, log: seq<Done>): map<nat, Block> {
    if log == [] then media
    else
      var m := Replay(media, log[..|log| - 1]);
      var x := log[|log| - 1];
      if x.write then m[x.sector := x.data] else m
  }

  /** The media is the log's writes in order, and each logged read saw the writes before it. */
  ghost predicate LogOk(s: Sys) {
    && s.media == Replay(s.media0, s.log)
    && forall k :: 0 <= k < |s.log| && !s.log[k].write ==>
         s.log[k].data == MediaAt(Replay(s.media0, s.log[..k]), s.log[k].sector)
  }

  ghost predicate Core(s: Sys) {
    Shape(s.d) && Counters(s) && OwnerOk(s) && UserOk(s) && RingsOk(s) && LogOk(s)
  }

  ghost predicate Inv(s: Sys) {
    Core(s) && forall t :: 0 <= t < |s.tasks| ==> TaskOk(s, t)
  }

  // ---------------------------------------------------------------- bounds on what is in flight

  ghost predicate OwnedBy(owner: map<nat, nat>, c: seq<nat>, t: nat) {
    && |c| == 3 && c[0] != c[1] && c[1] != c[2] && c[0] != c[2]
    && forall i :: 0 <= i < 3 ==> c[i] < NUM && c[i] in owner && owner[c[i]] == t
  }

  lemma ThreeOwners(owner: map<nat, nat>, a: seq<nat>, b: seq<nat>, c: seq<nat>, t: nat, u: nat, v: nat)
    requires OwnedBy(owner, a, t) && OwnedBy(owner, b, u) && OwnedBy(owner, c, v)
    ensures t == u || u == v || t == v
  {
    var all := a + b + c;
    Pigeonhole(all, NUM);
    var i, j :| 0 <= i < j < |all| && all[i] == all[j];
    assert owner[all[i]] == if i < 3 then t else if i < 6 then u else v;
    assert owner[all[j]] == if j < 3 then t else if j < 6 then u else v;
  }

  function Chain(p: Phase): (c: seq<nat>)
    requires p.InFlight?
    ensures |c| == 3
  {
    [p.i0, p.i1, p.i2]
  }

  lemma ChainOwned(s: Sys, t: nat)
    requires Inv(s) && t < |s.tasks| && s.tasks[t].InFlight?
    ensures OwnedBy(s.owner, Chain(s.tasks[t]), t)
  {
    assert TaskOk(s, t);
  }

  /** Eight descriptors never carry three chains. */
  lemma NoThreeInFlight(s: Sys, t: nat, u: nat, v: nat)
    requires Inv(s) && t < |s.tasks| && u < |s.tasks| && v < |s.tasks|
    requires s.tasks[t].InFlight? && s.tasks[u].InFlight? && s.tasks[v].InFlight?
    ensures t == u || u == v || t == v
  {
    ChainOwned(s, t);
    ChainOwned(s, u);
    ChainOwned(s, v);
    ThreeOwners(s.owner, Chain(s.tasks[t]), Chain(s.tasks[u]), Chain(s.tasks[v]), t, u, v);
  }

  /** So both rings hold at most two live entries: no slot is reused before it is read. */
  lemma RingsNeverFill(s: Sys)
    requires Inv(s)
    ensures |s.poster| - s.nConsumed <= 2
    ensures |s.log| - s.nReaped <= 2
  {
    if |s.poster| - s.nConsumed > 2 {
      var k := s.nConsumed;
      assert s.tasks[s.poster[k]].stage == Posted(k) && s.tasks[s.poster[k + 1]].stage == Posted(k + 1)
             && s.tasks[s.poster[k + 2]].stage == Posted(k + 2);
      NoThreeInFlight(s, s.poster[k], s.poster[k + 1], s.poster[k + 2]);
    }
    if |s.log| - s.nReaped > 2 {
      var k := s.nReaped;
      assert s.tasks[s.log[k].task].stage == Finished(k) && s.tasks[s.log[k + 1].task].stage == Finished(k + 1)
             && s.tasks[s.log[k + 2].task].stage == Finished(k + 2);
      NoThreeInFlight(s, s.log[k].task, s.log[k + 1].task, s.log[k + 2].task);
    }
  }

  /** The 16-bit comparisons the driver and the device make are exact despite wrap-around. */
  lemma IndicesAreExact(s: Sys)
    requires Inv(s)
    ensures s.lastAvail == s.d.availIdx <==> s.nConsumed == |s.poster|
    ensures s.d.seen == s.d.usedIdx <==> s.nReaped == |s.log|
  {
    RingsNeverFill(s);
  }

  lemma WrapSlot(k: nat)
    ensures (k % U16) % NUM == k % NUM
    ensures (k % U16 + 1) % U16 == (k + 1) % U16
  {
  }

  lemma SlotsDiffer(j: nat, k: nat)
    requires j < k < j + NUM
    ensures j % NUM != k % NUM
  {
  }

  // ---------------------------------------------------------------- every step keeps the invariant

  lemma ClientKeeps(s: Sys, b: nat, blockno: nat, data: Block)
    requires Inv(s)
    ensures Do(s, Client(b, blockno, data)).Ok? && Inv(Do(s, Client(b, blockno, data)).value)
  {
    if b < |s.d.bufs| && b !in s.user {
      var s' := s.(d := s.d.(bufs := s.d.bufs[b := Buf(blockno, data, s.d.bufs[b].disk)]));
      forall t | 0 <= t < |s.tasks| ensures TaskOk(s', t) {
        assert TaskOk(s, t);
      }
    }
  }

  lemma StartKeepsCore(s: Sys, t: nat, b: nat, write: bool)
    requires Core(s) && t < |s.tasks| && s.tasks[t].Idle? && b < |s.d.bufs| && b !in s.user
    ensures Core(s.(tasks := s.tasks[t := Want(b, write)], user := s.user[b := t]))
  {
  }

  lemma StartKeeps(s: Sys, t: nat, b: nat, write: bool)
    requires Inv(s)
    ensures Do(s, Start(t, b, write)).Ok? && Inv(Do(s, Start(t, b, write)).value)
  {
    if t < |s.tasks| && s.tasks[t].Idle? && b < |s.d.bufs| && b !in s.user {
      StartKeepsCore(s, t, b, write);
      var s' := s.(tasks := s.tasks[t := Want(b, write)], user := s.user[b := t]);
      forall u | 0 <= u < |s.tasks| ensures TaskOk(s', u) {
        assert TaskOk(s, u);
      }
    }
  }

  lemma AsleepKeepsCore(s: Sys, t: nat, tasks: seq<Phase>)
    requires Core(s) && t < |s.tasks| == |tasks| && s.tasks[t].Want?
    requires tasks[t] == AsleepDesc(s.tasks[t].b, s.tasks[t].write)
    requires forall u :: 0 <= u < |tasks| && u != t ==> tasks[u] == s.tasks[u] || tasks[u] == WakeFree(s.tasks[u])
    ensures Core(s.(tasks := tasks))
  {
  }

  lemma AllocateFullKeeps(s: Sys, t: nat)
    requires Inv(s) && t < |s.tasks| && s.tasks[t].Want? && FreeCount(s.d.free) < 3
    ensures DoAllocate.requires(s, t) && DoAllocate(s, t).Ok? && Inv(DoAllocate(s, t).value)
  {
    assert TaskOk(s, t);
    Alloc3Meaning(s.d);
    var woke := Alloc3(s.d).woke;
    var tasks := (if woke then WakeAllFree(s.tasks) else s.tasks)[t := AsleepDesc(s.tasks[t].b, s.tasks[t].write)];
    AsleepKeepsCore(s, t, tasks);
    forall u | 0 <= u < |s.tasks| ensures TaskOk(s.(tasks := tasks), u) {
      assert TaskOk(s, u);
    }
  }

  ghost function AfterPost(s: Sys, t: nat, i0: nat, i1: nat, i2: nat): Sys
    requires Shape(s.d) && t < |s.tasks| && s.tasks[t].Want? && s.tasks[t].b < |s.d.bufs|
    requires i0 < NUM && i1 < NUM && i2 < NUM
  {
    var p := s.tasks[t];
    var d := s.d.(free := s.d.free[i0 := false][i1 := false][i2 := false]);
    s.(d := Post(d, p.b, p.write, i0, i1, i2),
    tasks := s.tasks[t := InFlight(p.b, p.write, i0, i1, i2, Posted(|s.poster|), true)],
    owner := s.owner[i0 := t][i1 := t][i2 := t],
    poster := s.poster + [t])
  }

  ghost predicate Triple(s: Sys, t: nat, i0: nat, i1: nat, i2: nat) {
    && Shape(s.d) && t < |s.tasks| && TaskOk(s, t) && s.tasks[t].Want?
    && i0 < NUM && i1 < NUM && i2 < NUM && i0 != i1 && i1 != i2 && i0 != i2
    && s.d.free[i0] && s.d.free[i1] && s.d.free[i2]
  }

  lemma PostKeepsOther(s: Sys, t: nat, i0: nat, i1: nat, i2: nat, u: nat)
    requires Triple(s, t, i0, i1, i2) && Counters(s) && u < |s.tasks| && u != t && TaskOk(s, u)
    requires i0 !in s.owner && i1 !in s.owner && i2 !in s.owner && |s.poster| - s.nConsumed <= 2
    requires FreeCount(s.d.free[i0 := false][i1 := false][i2 := false]) <= FreeCount(s.d.free)
    ensures TaskOk(AfterPost(s, t, i0, i1, i2), u)
  {
    WrapSlot(|s.poster|);
    if s.tasks[u].InFlight? && s.tasks[u].stage.Posted? {
      SlotsDiffer(s.tasks[u].stage.k, |s.poster|);
    }
  }

  lemma PostKeepsSelf(s: Sys, t: nat, i0: nat, i1: nat, i2: nat)
    requires Triple(s, t, i0, i1, i2) && Counters(s)
    ensures TaskOk(AfterPost(s, t, i0, i1, i2), t)
  {
    WrapSlot(|s.poster|);
  }

  lemma PostKeepsOwners(s: Sys, t: nat, i0: nat, i1: nat, i2: nat)
    requires Triple(s, t, i0, i1, i2) && Shape(s.d) && OwnerOk(s)
    ensures OwnerOk(AfterPost(s, t, i0, i1, i2))
  {
  }

  lemma PostKeepsUsers(s: Sys, t: nat, i0: nat, i1: nat, i2: nat)
    requires Triple(s, t, i0, i1, i2) && UserOk(s)
    ensures UserOk(AfterPost(s, t, i0, i1, i2))
  {
  }

  lemma PostKeepsRings(s: Sys, t: nat, i0: nat, i1: nat, i2: nat)
    requires Triple(s, t, i0, i1, i2) && Counters(s) && RingsOk(s)
    requires i0 !in s.owner && i1 !in s.owner && i2 !in s.owner
    ensures Counters(AfterPost(s, t, i0, i1, i2)) && RingsOk(AfterPost(s, t, i0, i1, i2))
  {
    WrapSlot(|s.poster|);
  }

  lemma AllocateGotKeeps(s: Sys, t: nat)
    requires Inv(s) && t < |s.tasks| && s.tasks[t].Want? && FreeCount(s.d.free) >= 3
    ensures DoAllocate.requires(s, t) && DoAllocate(s, t).Ok? && Inv(DoAllocate(s, t).value)
    ensures FreeCount(DoAllocate(s, t).value.d.free) == FreeCount(s.d.free) - 3
  {
    assert TaskOk(s, t);
    Alloc3Meaning(s.d);
    var Got(_, i0, i1, i2) := Alloc3(s.d);
    assert DoAllocate(s, t) == Ok(AfterPost(s, t, i0, i1, i2));
    RingsNeverFill(s);
    PostKeepsOwners(s, t, i0, i1, i2);
    PostKeepsUsers(s, t, i0, i1, i2);
    PostKeepsRings(s, t, i0, i1, i2);
    forall u | 0 <= u < |s.tasks| ensures TaskOk(AfterPost(s, t, i0, i1, i2), u) {
      if u == t {
        PostKeepsSelf(s, t, i0, i1, i2);
      } else {
        PostKeepsOther(s, t, i0, i1, i2, u);
      }
    }
  }

  /** Only the stage of task t moves to Consumed. */
  ghost function AfterConsume(s: Sys, t: nat): Sys
    requires t < |s.tasks| && s.tasks[t].InFlight?
  {
    s.(pending := s.pending + {s.tasks[t].i0}, lastAvail := (s.lastAvail + 1) % U16,
    tasks := s.tasks[t := s.tasks[t].(stage := Consumed)], nConsumed := s.nConsumed + 1)
  }

  lemma ConsumeForm(s: Sys)
    requires Inv(s) && s.nConsumed < |s.poster|
    ensures s.poster[s.nConsumed] < |s.tasks| && s.tasks[s.poster[s.nConsumed]].InFlight?
    ensures s.tasks[s.poster[s.nConsumed]].stage == Posted(s.nConsumed)
    ensures DoConsume(s) == Ok(AfterConsume(s, s.poster[s.nConsumed]))
  {
    IndicesAreExact(s);
    WrapSlot(s.nConsumed);
    assert TaskOk(s, s.poster[s.nConsumed]);
  }

  lemma ConsumeKeepsTask(s: Sys, t: nat, u: nat)
    requires Shape(s.d) && t < |s.tasks| && u < |s.tasks| && s.tasks[t].InFlight? && s.nConsumed < |s.poster|
    requires TaskOk(s, t) && TaskOk(s, u) && s.tasks[t].stage == Posted(s.nConsumed)
    ensures TaskOk(AfterConsume(s, t), u)
  {
  }

  lemma ConsumeKeepsRest(s: Sys, t: nat)
    requires Core(s) && t < |s.tasks| && TaskOk(s, t) && s.tasks[t].InFlight? && s.nConsumed < |s.poster|
    requires s.tasks[t].stage == Posted(s.nConsumed)
    ensures Core(AfterConsume(s, t))
  {
    WrapSlot(s.nConsumed);
  }

  lemma ConsumeKeeps(s: Sys)
    requires Inv(s)
    ensures DoConsume(s).Ok? && Inv(DoConsume(s).value)
  {
    if s.nConsumed == |s.poster| {
      IndicesAreExact(s);
    } else {
      ConsumeForm(s);
      var t := s.poster[s.nConsumed];
      ConsumeKeepsRest(s, t);
      forall u | 0 <= u < |s.tasks| ensures TaskOk(AfterConsume(s, t), u) {
        ConsumeKeepsTask(s, t, u);
      }
    }
  }

  /** What the device does with task t's chain, told in the request's own terms. */
  ghost function AfterComplete(s: Sys, t: nat): Sys
    requires Shape(s.d) && t < |s.tasks| && s.tasks[t].InFlight? && s.tasks[t].b < |s.d.bufs| && s.tasks[t].i0 < NUM
  {
    var p := s.tasks[t];
    var sector := SectorOf(s.d.bufs[p.b].blockno);
    var data := if p.write then s.d.bufs[p.b].data else MediaAt(s.media, sector);
    s.(d := s.d.(bufs := s.d.bufs[p.b := s.d.bufs[p.b].(data := data)],
    info := s.d.info[p.i0 := s.d.info[p.i0].(status := 0)],
    usedRing := s.d.usedRing[s.d.usedIdx % NUM := p.i0],
    usedIdx := (s.d.usedIdx + 1) % U16),
    media := if p.write then s.media[sector := data] else s.media,
    pending := s.pending - {p.i0},
    tasks := s.tasks[t := p.(stage := Finished(|s.log|))],
    log := s.log + [Done(t, p.b, p.write, sector, data)])
  }

  /** The device decodes the descriptors of a chain to exactly the request that was posted. */
  lemma DecodeMeaning(d: Driver, p: Phase)
    requires Shape(d) && p.InFlight? && ChainOk(d, p)
    ensures Decode(d, p.i0) == Some(Transfer(p.write, SectorOf(d.bufs[p.b].blockno), p.b, p.i0))
    ensures d.bufs[p.b].blockno < 0x8000_0000 ==> Decode(d, p.i0).value.sector * 512 == d.bufs[p.b].blockno * 1024
  {
    SectorExact(d.bufs[p.b].blockno);
  }

  lemma CompleteForm(s: Sys, h: nat)
    requires Inv(s) && h in s.pending
    ensures h in s.owner && s.owner[h] < |s.tasks|
    ensures var t := s.owner[h]; TaskOk(s, t) && s.tasks[t].InFlight? && s.tasks[t].stage == Consumed
    ensures DoComplete(s, h) == Ok(AfterComplete(s, s.owner[h]))
  {
    var t := s.owner[h];
    assert TaskOk(s, t);
    DecodeMeaning(s.d, s.tasks[t]);
    assert s.d.bufs[s.tasks[t].b := s.d.bufs[s.tasks[t].b]] == s.d.bufs;
  }

  lemma CompleteKeepsTask(s: Sys, t: nat, u: nat)
    requires Shape(s.d) && Counters(s) && t < |s.tasks| && u < |s.tasks| && |s.log| - s.nReaped <= 2
    requires TaskOk(s, t) && TaskOk(s, u) && s.tasks[t].InFlight? && s.tasks[t].stage == Consumed
    ensures TaskOk(AfterComplete(s, t), u)
  {
    WrapSlot(|s.log|);
    if u != t && s.tasks[u].InFlight? && s.tasks[u].stage.Finished? {
      SlotsDiffer(s.tasks[u].stage.k, |s.log|);
    }
  }

  lemma CompleteKeepsRest(s: Sys, t: nat)
    requires Shape(s.d) && OwnerOk(s) && UserOk(s) && t < |s.tasks|
    requires TaskOk(s, t) && s.tasks[t].InFlight? && s.tasks[t].stage == Consumed
    ensures OwnerOk(AfterComplete(s, t)) && UserOk(AfterComplete(s, t))
  {
  }

  lemma CompleteKeepsRings(s: Sys, t: nat)
    requires Shape(s.d) && Counters(s) && RingsOk(s) && t < |s.tasks|
    requires TaskOk(s, t) && s.tasks[t].InFlight? && s.tasks[t].stage == Consumed
    ensures Counters(AfterComplete(s, t)) && RingsOk(AfterComplete(s, t))
  {
    WrapSlot(|s.log|);
  }

  lemma CompleteKeepsLog(s: Sys, t: nat)
    requires Shape(s.d) && LogOk(s) && t < |s.tasks|
    requires TaskOk(s, t) && s.tasks[t].InFlight? && s.tasks[t].stage == Consumed
    ensures LogOk(AfterComplete(s, t))
  {
    var s' := AfterComplete(s, t);
    assert s'.log[..|s.log|] == s.log;
    assert forall k :: 0 <= k < |s.log| ==> s'.log[..k] == s.log[..k];
  }

  lemma CompleteKeeps(s: Sys, h: nat)
    requires Inv(s) && h in s.pending
    ensures DoComplete(s, h).Ok? && Inv(DoComplete(s, h).value)
  {
    CompleteForm(s, h);
    RingsNeverFill(s);
    var t := s.owner[h];
    CompleteKeepsRest(s, t);
    CompleteKeepsRings(s, t);
    CompleteKeepsLog(s, t);
    forall u | 0 <= u < |s.tasks| ensures TaskOk(AfterComplete(s, t), u) {
      CompleteKeepsTask(s, t, u);
    }
  }

  ghost function AfterReap(s: Sys, t: nat): Sys
    requires Shape(s.d) && t < |s.tasks| && s.tasks[t].InFlight? && s.tasks[t].b < |s.d.bufs|
  {
    var p := s.tasks[t];
    s.(d := s.d.(bufs := s.d.bufs[p.b := s.d.bufs[p.b].(disk := false)], seen := (s.d.seen + 1) % U16),
    tasks := s.tasks[t := p.(asleep := false, stage := Reaped(s.nReaped))], nReaped := s.nReaped + 1)
  }

  lemma OnlyUserWakes(s: Sys, t: nat)
    requires Shape(s.d) && t < |s.tasks| && s.tasks[t].InFlight?
    requires forall u :: 0 <= u < |s.tasks| ==> TaskOk(s, u)
    ensures WakeAllBuf(s.tasks, s.tasks[t].b) == s.tasks[t := s.tasks[t].(asleep := false)]
  {
    var woken := WakeAllBuf(s.tasks, s.tasks[t].b);
    assert TaskOk(s, t);
    forall u | 0 <= u < |s.tasks| && u != t ensures woken[u] == s.tasks[u] {
      assert TaskOk(s, u);
    }
  }

  lemma ReapsIt(s: Sys, t: nat)
    requires Core(s) && s.nReaped < |s.log| && t < |s.tasks| && TaskOk(s, t) && s.d.seen != s.d.usedIdx
    requires s.tasks[t].InFlight? && s.tasks[t].stage == Finished(s.nReaped)
    ensures var b := s.tasks[t].b;
      && b < |s.d.bufs| && b in s.user && s.user[b] == t
      && ReapOne(s.d) == Ok((s.d.(bufs := s.d.bufs[b := s.d.bufs[b].(disk := false)], seen := (s.d.seen + 1) % U16), b))
  {
    WrapSlot(s.nReaped);
  }

  lemma ReapedForm(s: Sys, t: nat)
    requires Shape(s.d) && s.d.seen != s.d.usedIdx && t < |s.tasks| && s.tasks[t].InFlight? && s.tasks[t].b < |s.d.bufs|
    requires s.tasks[t].b in s.user && s.user[s.tasks[t].b] == t
    requires WakeAllBuf(s.tasks, s.tasks[t].b) == s.tasks[t := s.tasks[t].(asleep := false)]
    requires var b := s.tasks[t].b;
      ReapOne(s.d) == Ok((s.d.(bufs := s.d.bufs[b := s.d.bufs[b].(disk := false)], seen := (s.d.seen + 1) % U16), b))
    ensures DoReap(s) == Ok(AfterReap(s, t))
  {
    hide Shape, ReapOne, WakeAllBuf, WakeBuf;
    var p := s.tasks[t];
    assert s.tasks[t := p.(asleep := false)][t := p.(asleep := false, stage := Reaped(s.nReaped))]
        == s.tasks[t := p.(asleep := false, stage := Reaped(s.nReaped))];
  }

  lemma ReapFormCore(s: Sys, t: nat)
    requires Core(s) && s.nReaped < |s.log| && t < |s.tasks| && TaskOk(s, t) && s.d.seen != s.d.usedIdx
    requires s.tasks[t].InFlight? && s.tasks[t].stage == Finished(s.nReaped)
    requires WakeAllBuf(s.tasks, s.tasks[t].b) == s.tasks[t := s.tasks[t].(asleep := false)]
    ensures DoReap(s) == Ok(AfterReap(s, t))
  {
    ReapsIt(s, t);
    ReapedForm(s, t);
  }

  /** The interrupt handler clears and wakes exactly the requester of the entry it reads. */
  lemma ReapForm(s: Sys)
    requires Inv(s) && s.nReaped < |s.log|
    ensures s.log[s.nReaped].task < |s.tasks| && s.tasks[s.log[s.nReaped].task].InFlight?
    ensures s.tasks[s.log[s.nReaped].task].stage == Finished(s.nReaped)
    ensures s.tasks[s.log[s.nReaped].task].b < |s.d.bufs|
    ensures DoReap(s) == Ok(AfterReap(s, s.log[s.nReaped].task))
  {
    IndicesAreExact(s);
    var t := s.log[s.nReaped].task;
    assert TaskOk(s, t);
    OnlyUserWakes(s, t);
    ReapFormCore(s, t);
  }

  lemma ReapKeepsTask(s: Sys, t: nat, u: nat)
    requires Shape(s.d) && t < |s.tasks| && u < |s.tasks| && s.nReaped < |s.log|
    requires TaskOk(s, t) && TaskOk(s, u)
    requires s.tasks[t].InFlight? && s.tasks[t].stage == Finished(s.nReaped)
    ensures TaskOk(AfterReap(s, t), u)
  {
  }

  lemma ReapKeepsRest(s: Sys, t: nat)
    requires Core(s) && t < |s.tasks| && TaskOk(s, t) && s.nReaped < |s.log|
    requires s.tasks[t].InFlight? && s.tasks[t].stage == Finished(s.nReaped)
    ensures Core(AfterReap(s, t))
  {
    ReapKeepsCounters(s, t);
    ReapKeepsOwners(s, t);
    WrapSlot(s.nReaped);
    hide Counters;
    hide OwnerOk;
    hide UserOk;
  }

  lemma ReapKeepsOwners(s: Sys, t: nat)
    requires Shape(s.d) && OwnerOk(s) && UserOk(s) && t < |s.tasks| && s.tasks[t].InFlight? && s.tasks[t].b < |s.d.bufs|
    ensures Shape(AfterReap(s, t).d) && OwnerOk(AfterReap(s, t)) && UserOk(AfterReap(s, t))
  {
  }

  lemma ReapKeepsCounters(s: Sys, t: nat)
    requires Shape(s.d) && Counters(s) && t < |s.tasks| && s.tasks[t].InFlight? && s.tasks[t].b < |s.d.bufs| && s.nReaped < |s.log|
    ensures Shape(AfterReap(s, t).d) && Counters(AfterReap(s, t))
  {
  }

  lemma ReapKeeps(s: Sys)
    requires Inv(s)
    ensures DoReap(s).Ok? && Inv(DoReap(s).value)
  {
    if s.nReaped == |s.log| {
      IndicesAreExact(s);
    } else {
      ReapForm(s);
      var t := s.log[s.nReaped].task;
      ReapKeepsRest(s, t);
      forall u | 0 <= u < |s.tasks| ensures TaskOk(AfterReap(s, t), u) {
        ReapKeepsTask(s, t, u);
      }
    }
  }

  /** free_chain walks exactly the three descriptors of the request and never double-frees. */
  lemma RetireChain(d: Driver, p: Phase)
    requires Shape(d) && p.InFlight? && ChainOk(d, p)
    requires !d.free[p.i0] && !d.free[p.i1] && !d.free[p.i2]
    ensures Retire(d, p.i0) == Ok(d.(
      info := d.info[p.i0 := d.info[p.i0].(b := None)],
      desc := d.desc[p.i0 := BLANK][p.i1 := BLANK][p.i2 := BLANK],
      free := d.free[p.i0 := true][p.i1 := true][p.i2 := true]))
  {
    var e0 := d.(info := d.info[p.i0 := d.info[p.i0].(b := None)]);
    var e1 := FreeDesc(e0, p.i0).value;
    var e2 := FreeDesc(e1, p.i1).value;
    var e3 := FreeDesc(e2, p.i2).value;
    assert FreeChain(e2, p.i2) == Ok(e3);
    assert FreeChain(e1, p.i1) == Ok(e3);
  }

  ghost function AfterRetire(s: Sys, t: nat): Sys
    requires Shape(s.d) && t < |s.tasks| && s.tasks[t].InFlight? && ChainOk(s.d, s.tasks[t])
  {
    var p := s.tasks[t];
    s.(d := s.d.(info := s.d.info[p.i0 := s.d.info[p.i0].(b := None)],
    desc := s.d.desc[p.i0 := BLANK][p.i1 := BLANK][p.i2 := BLANK],
    free := s.d.free[p.i0 := true][p.i1 := true][p.i2 := true]),
    tasks := WakeAllFree(s.tasks)[t := Idle],
    owner := s.owner - {p.i0, p.i1, p.i2}, user := s.user - {p.b})
  }

  lemma RetireKeepsTask(s: Sys, t: nat, u: nat)
    requires Shape(s.d) && t < |s.tasks| && u < |s.tasks|
    requires TaskOk(s, t) && TaskOk(s, u) && s.tasks[t].InFlight? && s.tasks[t].stage.Reaped?
    ensures TaskOk(AfterRetire(s, t), u)
  {
  }

  lemma RetireKeepsOwners(s: Sys, t: nat)
    requires Shape(s.d) && OwnerOk(s) && t < |s.tasks|
    requires TaskOk(s, t) && s.tasks[t].InFlight? && s.tasks[t].stage.Reaped?
    ensures OwnerOk(AfterRetire(s, t))
  {
    var s' := AfterRetire(s, t);
    forall i | i in s'.owner ensures s'.tasks[s'.owner[i]] == s.tasks[s.owner[i]] && s.owner[i] != t {
      assert i in s.owner;
    }
  }

  lemma RetireKeepsUsers(s: Sys, t: nat)
    requires Shape(s.d) && UserOk(s) && t < |s.tasks|
    requires TaskOk(s, t) && s.tasks[t].InFlight? && s.tasks[t].stage.Reaped?
    ensures UserOk(AfterRetire(s, t))
  {
    var s' := AfterRetire(s, t);
    forall b | b in s'.user ensures s'.user[b] != t {
      assert b in s.user;
    }
  }

  lemma RetireKeepsRings(s: Sys, t: nat)
    requires Shape(s.d) && Counters(s) && RingsOk(s) && t < |s.tasks|
    requires TaskOk(s, t) && s.tasks[t].InFlight? && s.tasks[t].stage.Reaped?
    ensures Counters(AfterRetire(s, t)) && RingsOk(AfterRetire(s, t))
  {
  }

  lemma SleepAgainKeepsCore(s: Sys, t: nat)
    requires Core(s) && t < |s.tasks| && s.tasks[t].InFlight?
    ensures Core(s.(tasks := s.tasks[t := s.tasks[t].(asleep := true)]))
  {
  }

  lemma SleepAgainKeepsTask(s: Sys, t: nat, u: nat)
    requires Shape(s.d) && t < |s.tasks| && u < |s.tasks| && TaskOk(s, t) && TaskOk(s, u)
    requires s.tasks[t].InFlight? && s.d.bufs[s.tasks[t].b].disk
    ensures TaskOk(s.(tasks := s.tasks[t := s.tasks[t].(asleep := true)]), u)
  {
  }

  lemma ResumeRetires(s: Sys, t: nat)
    requires Core(s) && t < |s.tasks| && s.tasks[t].InFlight? && TaskOk(s, t)
    requires !s.tasks[t].asleep && !s.d.bufs[s.tasks[t].b].disk
    ensures DoResume(s, t) == Ok(AfterRetire(s, t))
  {
    RetireChain(s.d, s.tasks[t]);
  }

  lemma RetireKeeps(s: Sys, t: nat)
    requires Inv(s) && t < |s.tasks|
    requires TaskOk(s, t) && s.tasks[t].InFlight? && s.tasks[t].stage.Reaped?
    ensures Inv(AfterRetire(s, t))
  {
    RetireKeepsOwners(s, t);
    RetireKeepsUsers(s, t);
    RetireKeepsRings(s, t);
    forall u | 0 <= u < |s.tasks| ensures TaskOk(AfterRetire(s, t), u) {
      RetireKeepsTask(s, t, u);
    }
  }

  lemma SleepAgainKeeps(s: Sys, t: nat)
    requires Inv(s) && t < |s.tasks| && s.tasks[t].InFlight? && TaskOk(s, t) && s.d.bufs[s.tasks[t].b].disk
    ensures Inv(s.(tasks := s.tasks[t := s.tasks[t].(asleep := true)]))
  {
    SleepAgainKeepsCore(s, t);
    var s' := s.(tasks := s.tasks[t := s.tasks[t].(asleep := true)]);
    forall u | 0 <= u < |s.tasks| ensures TaskOk(s', u) {
      SleepAgainKeepsTask(s, t, u);
    }
  }

  lemma ResumeKeeps(s: Sys, t: nat)
    requires Inv(s) && t < |s.tasks| && s.tasks[t].InFlight? && !s.tasks[t].asleep
    ensures DoResume(s, t).Ok? && Inv(DoResume(s, t).value)
  {
    assert TaskOk(s, t);
    if s.d.bufs[s.tasks[t].b].disk {
      SleepAgainKeeps(s, t);
    } else {
      ResumeRetires(s, t);
      RetireKeeps(s, t);
    }
  }

  lemma DoKeeps(s: Sys, a: Step)
    requires Inv(s)
    ensures Do(s, a).Ok? && Inv(Do(s, a).value)
  {
    match a
    case Client(b, blockno, data) => ClientKeeps(s, b, blockno, data);
    case Start(t, b, write) => StartKeeps(s, t, b, write);
    case Allocate(t) =>
      if t < |s.tasks| && s.tasks[t].Want? {
        if FreeCount(s.d.free) < 3 { AllocateFullKeeps(s, t); } else { AllocateGotKeeps(s, t); }
      }
    case Consume => ConsumeKeeps(s);
    case Complete(h) => if h in s.pending { CompleteKeeps(s, h); }
    case Reap => ReapKeeps(s);
    case Resume(t) =>
      if t < |s.tasks| && s.tasks[t].InFlight? && !s.tasks[t].asleep { ResumeKeeps(s, t); }
  }

  // ---------------------------------------------------------------- whole runs

  /** The state virtio_disk_init leaves: zeroed queue memory, every descriptor free. */
  ghost predicate Init(s: Sys) {
    && Shape(s.d)
    && (forall i :: 0 <= i < NUM ==> s.d.free[i] && s.d.desc[i] == BLANK)
    && s.d.availIdx == s.d.usedIdx == s.d.seen == s.lastAvail == 0
    && (forall b :: 0 <= b < |s.d.bufs| ==> !s.d.bufs[b].disk)
    && (forall t :: 0 <= t < |s.tasks| ==> s.tasks[t].Idle?)
    && s.pending == {} && s.media0 == s.media && s.owner == map[] && s.user == map[]
    && s.poster == [] && s.log == [] && s.nConsumed == s.nReaped == 0
  }

  ghost function Run(s: Sys, steps: seq<Step>): Outcome<Sys>
    decreases |steps|
  {
    if steps == [] then Ok(s)
    else if !Shape(s.d) then Panic
    else
      match Do(s, steps[0])
      case Panic => Panic
      case Ok(s') => Run(s', steps[1..])
  }

  /** No run of requesters, device and interrupt handler panics, follows a bad index or meets an
      undecodable chain. */
  lemma {:induction false} RunKeeps(s: Sys, steps: seq<Step>)
    requires Inv(s)
    ensures Run(s, steps).Ok? && Inv(Run(s, steps).value)
    decreases |steps|
  {
    if steps != [] {
      DoKeeps(s, steps[0]);
      RunKeeps(Do(s, steps[0]).value, steps[1..]);
    }
  }

  /** Chains are three different busy descriptors ... */
  ghost predicate ChainsBusy(free: seq<bool>, tasks: seq<Phase>)
    requires |free| == NUM
  {
    forall t :: 0 <= t < |tasks| && tasks[t].InFlight? ==>
      var c := Chain(tasks[t]);
      && c[0] != c[1] && c[1] != c[2] && c[0] != c[2]
      && forall j :: 0 <= j < 3 ==> c[j] < NUM && !free[c[j]]
  }

  /** ... every busy descriptor is on one ... */
  ghost predicate BusyCovered(free: seq<bool>, tasks: seq<Phase>)
    requires |free| == NUM
  {
    forall i :: 0 <= i < NUM && !free[i] ==>
      exists t :: 0 <= t < |tasks| && tasks[t].InFlight? && i in Chain(tasks[t])
  }

  /** ... and different requests share none. */
  ghost predicate ChainsDisjoint(tasks: seq<Phase>) {
    forall t, u :: 0 <= t < u < |tasks| && tasks[t].InFlight? && tasks[u].InFlight? ==>
      forall i :: i in Chain(tasks[t]) ==> i !in Chain(tasks[u])
  }

  ghost predicate ChainsOwned(s: Sys) {
    forall t :: 0 <= t < |s.tasks| && s.tasks[t].InFlight? ==> OwnedBy(s.owner, Chain(s.tasks[t]), t)
  }

  lemma OwnedMeansDisjoint(s: Sys)
    requires ChainsOwned(s)
    ensures ChainsDisjoint(s.tasks)
  {
    forall t, u | 0 <= t < u < |s.tasks| && s.tasks[t].InFlight? && s.tasks[u].InFlight?
      ensures forall i :: i in Chain(s.tasks[t]) ==> i !in Chain(s.tasks[u])
    {
      assert OwnedBy(s.owner, Chain(s.tasks[t]), t) && OwnedBy(s.owner, Chain(s.tasks[u]), u);
    }
  }

  lemma OwnedMeansCovered(s: Sys)
    requires Shape(s.d) && OwnerOk(s)
    ensures BusyCovered(s.d.free, s.tasks)
  {
    forall i | 0 <= i < NUM && !s.d.free[i]
      ensures exists t :: 0 <= t < |s.tasks| && s.tasks[t].InFlight? && i in Chain(s.tasks[t])
    {
      assert i in Chain(s.tasks[s.owner[i]]);
    }
  }

  lemma OwnedMeansBusy(s: Sys)
    requires Shape(s.d) && OwnerOk(s) && ChainsOwned(s)
    ensures ChainsBusy(s.d.free, s.tasks)
  {
    forall t | 0 <= t < |s.tasks| && s.tasks[t].InFlight?
      ensures forall j :: 0 <= j < 3 ==> !s.d.free[Chain(s.tasks[t])[j]]
    {
      assert OwnedBy(s.owner, Chain(s.tasks[t]), t);
    }
  }

  /** The descriptors are exactly the free ones plus disjoint three-element chains. */
  lemma InvPartitions(s: Sys)
    requires Inv(s)
    ensures ChainsBusy(s.d.free, s.tasks) && BusyCovered(s.d.free, s.tasks) && ChainsDisjoint(s.tasks)
  {
    forall t | 0 <= t < |s.tasks| && s.tasks[t].InFlight? ensures OwnedBy(s.owner, Chain(s.tasks[t]), t) {
      ChainOwned(s, t);
    }
    OwnedMeansBusy(s);
    OwnedMeansCovered(s);
    OwnedMeansDisjoint(s);
  }

  /** A request comes back only after the device logged that very request, with the buffer still
      holding the transferred data: what was on the media for a read, what was stored for a write. */
  ghost predicate Served(s: Sys, t: nat)
    requires t < |s.tasks| && s.tasks[t].InFlight? && s.tasks[t].b < |s.d.bufs|
  {
    var p := s.tasks[t];
    exists k :: 0 <= k < |s.log| && LogMatches(s, t, p, k) && p.stage == Reaped(k)
      && (!p.write ==>
            s.d.bufs[p.b].data == MediaAt(Replay(s.media0, s.log[..k]), s.d.bufs[p.b].blockno % 0x8000_0000 * 2))
      && (p.write ==>
            MediaAt(Replay(s.media0, s.log[..k + 1]), s.d.bufs[p.b].blockno % 0x8000_0000 * 2) == s.d.bufs[p.b].data)
  }

  /** Task t's call of virtio_disk_rw returns in its next step. */
  ghost predicate Returns(s: Sys, t: nat)
    requires Shape(s.d)
  {
    && t < |s.tasks| && s.tasks[t].InFlight? && !s.tasks[t].asleep
    && DoResume(s, t).Ok? && t < |DoResume(s, t).value.tasks| && DoResume(s, t).value.tasks[t].Idle?
  }

  lemma ReturnIsServed(s: Sys, t: nat)
    requires Inv(s) && Returns(s, t)
    ensures s.tasks[t].b < |s.d.bufs| && Served(s, t)
  {
    assert TaskOk(s, t);
    var k := s.tasks[t].stage.k;
    SectorExact(s.d.bufs[s.tasks[t].b].blockno);
    hide SectorOf;
    assert s.log[..k + 1][..k] == s.log[..k];
    assert LogMatches(s, t, s.tasks[t], k);
  }

  ghost predicate AtMostTwoInFlight(tasks: seq<Phase>) {
    forall t, u, v :: 0 <= t < u < v < |tasks| && tasks[t].InFlight? && tasks[u].InFlight? ==> !tasks[v].InFlight?
  }

  lemma InvAtMostTwo(s: Sys)
    requires Inv(s)
    ensures AtMostTwoInFlight(s.tasks)
  {
    forall t, u, v | 0 <= t < u < v < |s.tasks| && s.tasks[t].InFlight? && s.tasks[u].InFlight?
      ensures !s.tasks[v].InFlight?
    {
      if s.tasks[v].InFlight? {
        NoThreeInFlight(s, t, u, v);
      }
    }
  }

  /** A requester asleep for descriptors sees fewer than three free; one asleep for its buffer
      sees the device still using it. */
  ghost predicate HasCause(s: Sys, p: Phase) {
    && (p.AsleepDesc? ==> FreeCount(s.d.free) < 3)
    && (p.InFlight? && p.asleep ==> p.b < |s.d.bufs| && s.d.bufs[p.b].disk)
  }

  ghost predicate SleepersHaveCause(s: Sys) {
    forall t :: 0 <= t < |s.tasks| ==> HasCause(s, s.tasks[t])
  }

  lemma InvSleepers(s: Sys)
    requires Inv(s)
    ensures SleepersHaveCause(s)
  {
    forall t | 0 <= t < |s.tasks| ensures HasCause(s, s.tasks[t]) {
      assert TaskOk(s, t);
    }
  }

  /** The main result: from boot, over every schedule. */
  lemma EveryRun(s0: Sys, steps: seq<Step>)
    requires Init(s0)
    ensures Run(s0, steps).Ok?
    ensures var s := Run(s0, steps).value;
      && Shape(s.d)
      && ChainsBusy(s.d.free, s.tasks) && BusyCovered(s.d.free, s.tasks) && ChainsDisjoint(s.tasks)
      && AtMostTwoInFlight(s.tasks) && SleepersHaveCause(s)
      && |s.poster| - s.nConsumed <= 2 && |s.log| - s.nReaped <= 2
      && s.media == Replay(s0.media, s.log)
  {
    InitInv(s0);
    RunKeeps(s0, steps);
    RunKeepsMedia0(s0, steps);
    var s := Run(s0, steps).value;
    InvPartitions(s);
    RingsNeverFill(s);
    InvAtMostTwo(s);
    InvSleepers(s);
  }

  lemma EveryReturn(s0: Sys, steps: seq<Step>, t: nat)
    requires Init(s0)
    ensures Run(s0, steps).Ok?
    ensures var s := Run(s0, steps).value;
      Shape(s.d) && (Returns(s, t) ==> s.tasks[t].b < |s.d.bufs| && Served(s, t))
  {
    InitInv(s0);
    RunKeeps(s0, steps);
    var s := Run(s0, steps).value;
    if Returns(s, t) {
      ReturnIsServed(s, t);
    }
  }

  lemma InitInv(s: Sys)
    requires Init(s)
    ensures Inv(s)
  {
  }

  lemma {:induction false} RunKeepsMedia0(s: Sys, steps: seq<Step>)
    ensures Run(s, steps).Ok? ==> Run(s, steps).value.media0 == s.media0
    decreases |steps|
  {
    if steps != [] && Shape(s.d) {
      DoKeepsMedia0(s, steps[0]);
      if Do(s, steps[0]).Ok? {
        RunKeepsMedia0(Do(s, steps[0]).value, steps[1..]);
      }
    }
  }

  lemma DoKeepsMedia0(s: Sys, a: Step)
    requires Shape(s.d)
    ensures Do(s, a).Ok? ==> Do(s, a).value.media0 == s.media0
  {
  }
}
