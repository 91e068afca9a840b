/** What virtio_disk_rw (kernel/dev/disk.c) is for its callers: an array of blocks in which each call is
    served once, in one step, between its start and its return.

    The array machine knows buffers, calls and the medium; descriptors, rings, interrupts and sleeping are
    gone.  Every run of `VirtioDisk` is a run of it. */
module DiskArray {
  import opened Base
  import opened VirtioDisk

  datatype Call = Call(b: nat, write: bool, served: bool)

  /** The medium by the first of a block's two sectors, the buffers' block numbers and data, and the call
      each task is in. */
  datatype Array = Array(media: map<nat, Block>, bufs: seq<(nat, Block)>, calls: seq<Option<Call>>)

  datatype Event =
    | Changes(b: nat, blockno: nat, data: Block)
    | Calls(t: nat, b: nat, write: bool)
    | Serves(t: nat)
    | Ends(t: nat)
    | Nothing

  ghost predicate Uses(calls: seq<Option<Call>>, b: nat) {
    exists t :: 0 <= t < |calls| && calls[t].Some? && calls[t].value.b == b
  }

  /** The block of the medium with this number, which takes sectors 2n and 2n + 1 of 512 bytes; the sector
      number is computed in 32 bits. */
  function At(media: map<nat, Block>, blockno: nat): Block {
    var sector := blockno % 0x8000_0000 * 2;
    if sector in media then media[sector] else []
  }

  ghost function Happen(f: Array, e: Event): Array {
    match e
    case Changes(b, blockno, data) =>
      if b < |f.bufs| && !Uses(f.calls, b) then f.(bufs := f.bufs[b := (blockno, data)]) else f
    case Calls(t, b, write) =>
      if t < |f.calls| && f.calls[t].None? && b < |f.bufs| && !Uses(f.calls, b)
      then f.(calls := f.calls[t := Some(Call(b, write, false))]) else f
    case Serves(t) =>
      if t < |f.calls| && f.calls[t].Some? && !f.calls[t].value.served && f.calls[t].value.b < |f.bufs| then
        var c := f.calls[t].value;
        var (blockno, data) := f.bufs[c.b];
        var calls := f.calls[t := Some(c.(served := true))];
        if c.write then Array(f.media[blockno % 0x8000_0000 * 2 := data], f.bufs, calls)
        else Array(f.media, f.bufs[c.b := (blockno, At(f.media, blockno))], calls)
      else f
    case Ends(t) =>
      if t < |f.calls| && f.calls[t].Some? && f.calls[t].value.served then f.(calls := f.calls[t := None]) else f
    case Nothing => f
  }

  ghost function HappenAll(f: Array, es: seq<Event>): Array
    decreases |es|
  {
    if es == [] then f else HappenAll(Happen(f, es[0]), es[1..])
  }

  // ---------------------------------------------------------------- the driver as such an array

  function CallOf(p: Phase): Option<Call> {
    match p
    case Idle => None
    case Want(b, write) => Some(Call(b, write, false))
    case AsleepDesc(b, write) => Some(Call(b, write, false))
    case InFlight(b, write, _, _, _, stage, _) => Some(Call(b, write, stage.Finished? || stage.Reaped?))
  }

  function CallsOf(tasks: seq<Phase>): (r: seq<Option<Call>>)
    ensures |r| == |tasks| && forall t :: 0 <= t < |tasks| ==> r[t] == CallOf(tasks[t])
  {
    seq(|tasks|, t requires 0 <= t < |tasks| => CallOf(tasks[t]))
  }

  function BufsOf(bufs: seq<Buf>): (r: seq<(nat, Block)>)
    ensures |r| == |bufs| && forall b :: 0 <= b < |bufs| ==> r[b] == (bufs[b].blockno, bufs[b].data)
  {
    seq(|bufs|, b requires 0 <= b < |bufs| => (bufs[b].blockno, bufs[b].data))
  }

  function Abs(s: Sys): Array {
    Array(s.media, BufsOf(s.d.bufs), CallsOf(s.tasks))
  }

  /** What a step of the driver or the device is in the array. */
  function EventOf(s: Sys, a: Step): Event {
    match a
    case Client(b, blockno, data) => Changes(b, blockno, data)
    case Start(t, b, write) => Calls(t, b, write)
    case Complete(h) => if h in s.pending && h in s.owner then Serves(s.owner[h]) else Nothing
    case Resume(t) =>
      if t < |s.tasks| && s.tasks[t].InFlight? && !s.tasks[t].asleep
         && s.tasks[t].b < |s.d.bufs| && !s.d.bufs[s.tasks[t].b].disk then Ends(t) else Nothing
    case _ => Nothing
  }

  function Events(s: Sys, steps: seq<Step>): seq<Event>
    decreases |steps|
  {
    if steps == [] || !Shape(s.d) then []
    else
      var r := Do(s, steps[0]);
      [EventOf(s, steps[0])] + if r.Panic? then [] else Events(r.value, steps[1..])
  }

  lemma UsedBy(s: Sys, b: nat)
    requires Inv(s)
    ensures b in s.user <==> Uses(CallsOf(s.tasks), b)
  {
    var calls := CallsOf(s.tasks);
    if b in s.user { assert calls[s.user[b]].Some? && calls[s.user[b]].value.b == b; }
    if Uses(calls, b) {
      var t :| 0 <= t < |calls| && calls[t].Some? && calls[t].value.b == b;
      assert TaskOk(s, t);
    }
  }

  lemma ClientIs(s: Sys, b: nat, blockno: nat, data: Block)
    requires Inv(s)
    ensures Do(s, Client(b, blockno, data)).Ok?
    ensures Abs(Do(s, Client(b, blockno, data)).value) == Happen(Abs(s), Changes(b, blockno, data))
  {
    UsedBy(s, b);
    hide Inv;
    hide Uses;
    var s' := Do(s, Client(b, blockno, data)).value;
    assert BufsOf(s'.d.bufs) == Happen(Abs(s), Changes(b, blockno, data)).bufs;
  }

  lemma StartIs(s: Sys, t: nat, b: nat, write: bool)
    requires Inv(s)
    ensures Do(s, Start(t, b, write)).Ok?
    ensures Abs(Do(s, Start(t, b, write)).value) == Happen(Abs(s), Calls(t, b, write))
  {
    UsedBy(s, b);
    hide Inv;
    hide Uses;
    var s' := Do(s, Start(t, b, write)).value;
    assert CallsOf(s'.tasks) == Happen(Abs(s), Calls(t, b, write)).calls;
  }

  lemma AllocateIs(s: Sys, t: nat)
    requires Inv(s) && t < |s.tasks| && s.tasks[t].Want?
    ensures Shape(s.d) && s.tasks[t].b < |s.d.bufs| && DoAllocate(s, t).Ok? && Abs(DoAllocate(s, t).value) == Abs(s)
  {
    AllocateSame(s, t);
    hide Inv;
    hide DoAllocate;
    assert CallsOf(DoAllocate(s, t).value.tasks) == CallsOf(s.tasks);
    assert BufsOf(DoAllocate(s, t).value.d.bufs) == BufsOf(s.d.bufs);
  }

  ghost predicate SameCalls(s: Sys, s': Sys) {
    && s'.media == s.media && |s'.tasks| == |s.tasks| && |s'.d.bufs| == |s.d.bufs|
    && (forall u :: 0 <= u < |s.tasks| ==> CallOf(s'.tasks[u]) == CallOf(s.tasks[u]))
    && (forall b :: 0 <= b < |s.d.bufs| ==>
          s'.d.bufs[b].blockno == s.d.bufs[b].blockno && s'.d.bufs[b].data == s.d.bufs[b].data)
  }

  /** Getting descriptors or going to sleep for them leaves every call and every buffer's data alone. */
  lemma AllocateSame(s: Sys, t: nat)
    requires Inv(s) && t < |s.tasks| && s.tasks[t].Want?
    ensures Shape(s.d) && s.tasks[t].b < |s.d.bufs| && DoAllocate(s, t).Ok? && SameCalls(s, DoAllocate(s, t).value)
  {
    assert TaskOk(s, t) && FreeIsBlank(s.d);
    hide *;
    WantHasBuf(s, t);
    AllocateEffect(s, t);
  }

  lemma WantHasBuf(s: Sys, t: nat)
    requires Inv(s) && t < |s.tasks| && s.tasks[t].Want?
    ensures Shape(s.d) && s.tasks[t].b < |s.d.bufs|
  {
    assert TaskOk(s, t);
  }

  lemma AllocateEffect(s: Sys, t: nat)
    requires Shape(s.d) && FreeIsBlank(s.d) && t < |s.tasks| && s.tasks[t].Want? && s.tasks[t].b < |s.d.bufs|
    ensures DoAllocate(s, t).Ok? && SameCalls(s, DoAllocate(s, t).value)
  {
    Alloc3Meaning(s.d);
    var r := Alloc3(s.d);
    if r.Got? { PostBufs(r.d, s.tasks[t].b, s.tasks[t].write, r.i0, r.i1, r.i2); }
    hide Alloc3;
    hide FreeCount;
    hide Post;
  }

  lemma PostBufs(d: Driver, b: nat, write: bool, i0: nat, i1: nat, i2: nat)
    requires Shape(d) && b < |d.bufs| && i0 < NUM && i1 < NUM && i2 < NUM
    ensures Post(d, b, write, i0, i1, i2).bufs == d.bufs[b := d.bufs[b].(disk := true)]
  {
  }

  lemma ConsumeIs(s: Sys)
    requires Inv(s)
    ensures Shape(s.d) && DoConsume(s).Ok? && Abs(DoConsume(s).value) == Abs(s)
  {
    if s.nConsumed == |s.poster| {
      IndicesAreExact(s);
    } else {
      ConsumeForm(s);
      hide Inv;
      hide DoConsume;
      assert CallsOf(DoConsume(s).value.tasks) == CallsOf(s.tasks);
    }
  }

  lemma CompleteIs(s: Sys, h: nat)
    requires Inv(s) && h in s.pending
    ensures h in s.owner && Shape(s.d) && DoComplete(s, h).Ok?
    ensures Abs(DoComplete(s, h).value) == Happen(Abs(s), Serves(s.owner[h]))
  {
    CompleteForm(s, h);
    var t := s.owner[h];
    SectorExact(s.d.bufs[s.tasks[t].b].blockno);
    hide Inv;
    hide DoComplete;
    hide SectorOf;
    var s', f := AfterComplete(s, t), Happen(Abs(s), Serves(t));
    assert CallsOf(s'.tasks) == f.calls;
    assert BufsOf(s'.d.bufs) == f.bufs;
  }

  lemma ReapIs(s: Sys)
    requires Inv(s)
    ensures Shape(s.d) && DoReap(s).Ok? && Abs(DoReap(s).value) == Abs(s)
  {
    if s.nReaped == |s.log| {
      IndicesAreExact(s);
    } else {
      ReapForm(s);
      hide Inv;
      hide DoReap;
      assert CallsOf(DoReap(s).value.tasks) == CallsOf(s.tasks);
      assert BufsOf(DoReap(s).value.d.bufs) == BufsOf(s.d.bufs);
    }
  }

  lemma ResumeIs(s: Sys, t: nat)
    requires Inv(s) && t < |s.tasks| && s.tasks[t].InFlight? && !s.tasks[t].asleep
    ensures Shape(s.d) && DoResume(s, t).Ok? && Abs(DoResume(s, t).value) == Happen(Abs(s), EventOf(s, Resume(t)))
  {
    ResumeForm(s, t);
    hide Inv;
    hide DoResume;
    assert CallsOf(DoResume(s, t).value.tasks) == Happen(Abs(s), EventOf(s, Resume(t))).calls;
  }

  /** A call returns exactly when the handler has cleared its buffer, and then it was served. */
  lemma ResumeForm(s: Sys, t: nat)
    requires Inv(s) && t < |s.tasks| && s.tasks[t].InFlight? && !s.tasks[t].asleep
    ensures Shape(s.d) && s.tasks[t].b < |s.d.bufs| && DoResume(s, t).Ok?
    ensures var s', p := DoResume(s, t).value, s.tasks[t];
      && s'.media == s.media && s'.d.bufs == s.d.bufs && |s'.tasks| == |s.tasks|
      && (!s.d.bufs[p.b].disk ==> p.stage.Reaped? && s'.tasks[t] == Idle)
      && (s.d.bufs[p.b].disk ==> CallOf(s'.tasks[t]) == CallOf(p))
      && (forall u :: 0 <= u < |s.tasks| && u != t ==> CallOf(s'.tasks[u]) == CallOf(s.tasks[u]))
  {
    OwnedByBusy(s, t);
    hide Inv;
    if !s.d.bufs[s.tasks[t].b].disk { RetireChain(s.d, s.tasks[t]); }
    hide Retire;
  }

  lemma OwnedByBusy(s: Sys, t: nat)
    requires Inv(s) && t < |s.tasks| && s.tasks[t].InFlight?
    ensures var p := s.tasks[t]; TaskOk(s, t) && !s.d.free[p.i0] && !s.d.free[p.i1] && !s.d.free[p.i2]
  {
    assert TaskOk(s, t);
  }

  lemma DoIs(s: Sys, a: Step)
    requires Inv(s)
    ensures Shape(s.d) && Do(s, a).Ok? && Abs(Do(s, a).value) == Happen(Abs(s), EventOf(s, a))
  {
    match a
    case Client(b, blockno, data) => ClientIs(s, b, blockno, data);
    case Start(t, b, write) => StartIs(s, t, b, write);
    case Allocate(t) => if t < |s.tasks| && s.tasks[t].Want? { AllocateIs(s, t); }
    case Consume => ConsumeIs(s);
    case Complete(h) => if h in s.pending { CompleteIs(s, h); }
    case Reap => ReapIs(s);
    case Resume(t) => if t < |s.tasks| && s.tasks[t].InFlight? && !s.tasks[t].asleep { ResumeIs(s, t); }
  }

  lemma {:induction false} RunIs(s: Sys, steps: seq<Step>)
    requires Inv(s)
    ensures Run(s, steps).Ok? && Abs(Run(s, steps).value) == HappenAll(Abs(s), Events(s, steps))
    decreases |steps|
  {
    if steps != [] {
      DoKeeps(s, steps[0]);
      DoIs(s, steps[0]);
      hide Inv;
      hide Do;
      hide Abs;
      hide EventOf;
      RunIs(Do(s, steps[0]).value, steps[1..]);
      assert Events(s, steps)[1..] == Events(Do(s, steps[0]).value, steps[1..]);
    }
  }

  /** From boot, whatever tasks, device and interrupts do: each call of virtio_disk_rw is served exactly once
      after it started and before it returns, for the buffer and in the direction it was made for, on the
      block its buffer names, and buffers in use change in no other way. */
  lemma DriverIsArray(s0: Sys, steps: seq<Step>)
    requires Init(s0)
    ensures Run(s0, steps).Ok? && Abs(Run(s0, steps).value) == HappenAll(Abs(s0), Events(s0, steps))
    ensures forall t :: 0 <= t < |s0.tasks| ==> Abs(s0).calls[t] == None
  {
    InitInv(s0);
    RunIs(s0, steps);
  }
}
