/** The routines of kernel/dev/disk.c over the driver's own arrays, each proved to compute the
    corresponding function of `VirtioDisk` on the driver state. */
module VirtioDriver {
  import opened Base
  import V = VirtioDisk

  class Disk {
    const free: array<bool>
    const desc: array<V.Desc>
    const ops: array<V.BlkReq>
    const info: array<V.Info>
    const availRing: array<nat>
    const usedRing: array<nat>
    const bufs: array<V.Buf>
    var availIdx: nat
    var usedIdx: nat
    var seen: nat

    ghost predicate Valid()
      reads this
    {
      && free.Length == desc.Length == ops.Length == info.Length == V.NUM
      && availRing.Length == usedRing.Length == V.NUM && availRing != usedRing
      && availIdx < U16 && usedIdx < U16 && seen < U16
    }

    ghost function Model(): (d: V.Driver)
      requires Valid()
      reads this, free, desc, ops, info, availRing, usedRing, bufs
      ensures V.Shape(d)
    {
      V.Driver(free[..], desc[..], ops[..], info[..], availRing[..], availIdx, usedRing[..], usedIdx, seen, bufs[..])
    }

    /** All descriptors free, queue memory zeroed. */
    constructor (bufs: array<V.Buf>)
      ensures Valid() && this.bufs == bufs
      ensures fresh(free) && fresh(desc) && fresh(ops) && fresh(info) && fresh(availRing) && fresh(usedRing)
      ensures forall i :: 0 <= i < V.NUM ==> free[i] && desc[i] == V.BLANK
      ensures availIdx == usedIdx == seen == 0
    {
      free := new bool[V.NUM](_ => true);
      desc := new V.Desc[V.NUM](_ => V.BLANK);
      ops := new V.BlkReq[V.NUM](_ => V.BlkReq(false, 0));
      info := new V.Info[V.NUM](_ => V.Info(None, 0));
      availRing := new nat[V.NUM](_ => 0);
      usedRing := new nat[V.NUM](_ => 0);
      this.bufs := bufs;
      availIdx, usedIdx, seen := 0, 0, 0;
    }

    method AllocDesc() returns (r: int)
      requires Valid()
      modifies free
      ensures Valid() && (Model(), r) == V.AllocDesc(old(Model()))
    {
      var i := 0;
      while i < V.NUM
        invariant 0 <= i <= V.NUM && free[..] == old(free[..])
        invariant V.LowestFree(free[..], i) == V.LowestFree(free[..])
      {
        if free[i] {
          free[i] := false;
          return i;
        }
        i := i + 1;
      }
      return -1;
    }

    /** Returns false where the kernel panics. */
    method FreeDesc(i: nat) returns (ok: bool)
      requires Valid()
      modifies desc, free
      ensures Valid() && ok == V.FreeDesc(old(Model()), i).Ok?
      ensures ok ==> V.FreeDesc(old(Model()), i) == Ok(Model())
    {
      if i >= V.NUM || free[i] { return false; }
      desc[i] := V.BLANK;
      free[i] := true;
      return true;
    }

    /** The loop over the chain; it ends because every pass frees a busy descriptor. */
    method FreeChain(head: nat) returns (ok: bool)
      requires Valid()
      modifies desc, free
      ensures Valid() && ok == V.FreeChain(old(Model()), head).Ok?
      ensures ok ==> V.FreeChain(old(Model()), head) == Ok(Model())
    {
      var i: nat := head;
      while true
        invariant Valid()
        invariant V.FreeChain(Model(), i) == V.FreeChain(old(Model()), head)
        decreases V.Busy(free[..])
      {
        if i >= V.NUM { return false; }
        var more, next := desc[i].hasNext, desc[i].next;
        var freed := FreeDesc(i);
        if !freed { return false; }
        if more { i := next; } else { return true; }
      }
    }

    /** Result 0 with three indices, -1 when fewer than three were free, -2 for a panic. */
    method Alloc3Desc() returns (r: int, idx: array<int>)
      requires Valid()
      modifies free, desc
      ensures Valid() && fresh(idx) && idx.Length == 3
      ensures match V.Alloc3(old(Model()))
              case Got(d, i0, i1, i2) => r == 0 && Model() == d && idx[0] == i0 && idx[1] == i1 && idx[2] == i2
              case Full(d, _) => r == -1 && Model() == d
              case Broken => r == -2
    {
      ghost var d0 := Model();
      idx := new int[3];
      var i := 0;
      while i < 3
        invariant Valid() && 0 <= i <= 3 && fresh(idx)
        invariant i == 0 ==> Model() == d0
        invariant i >= 1 ==> idx[0] >= 0 && idx[0] == V.AllocDesc(d0).1
        invariant i == 1 ==> Model() == V.AllocDesc(d0).0
        invariant i >= 2 ==> idx[1] >= 0 && idx[1] == V.AllocDesc(V.AllocDesc(d0).0).1
        invariant i == 2 ==> Model() == V.AllocDesc(V.AllocDesc(d0).0).0
        invariant i >= 3 ==> idx[2] >= 0 && idx[2] == V.AllocDesc(V.AllocDesc(V.AllocDesc(d0).0).0).1
        invariant i == 3 ==> Model() == V.AllocDesc(V.AllocDesc(V.AllocDesc(d0).0).0).0
      {
        ghost var before := Model();
        idx[i] := AllocDesc();
        if idx[i] < 0 {
          assert Model() == before;
          var ok := GiveBack(idx, i);
          return (if ok then -1 else -2), idx;
        }
        i := i + 1;
      }
      return 0, idx;
    }

    /** The clean-up loop of alloc3_desc, over the descriptors obtained so far. */
    method GiveBack(idx: array<int>, n: nat) returns (ok: bool)
      requires Valid() && n <= 2 && idx.Length == 3 && forall j :: 0 <= j < n ==> idx[j] >= 0
      modifies free, desc
      ensures Valid()
      ensures n == 0 ==> ok && Model() == old(Model())
      ensures n == 1 ==> match V.FreeDesc(old(Model()), old(idx[0]))
                         case Panic => !ok
                         case Ok(e) => ok && Model() == e
      ensures n == 2 ==> match V.FreeDesc(old(Model()), old(idx[0]))
                         case Panic => !ok
                         case Ok(e) => match V.FreeDesc(e, old(idx[1]))
                                       case Panic => !ok
                                       case Ok(g) => ok && Model() == g
    {
      var j := 0;
      while j < n
        invariant Valid() && 0 <= j <= n
        invariant j == 0 ==> Model() == old(Model())
        invariant j == 1 ==> V.FreeDesc(old(Model()), old(idx[0])) == Ok(Model())
        invariant j == 2 ==> match V.FreeDesc(old(Model()), old(idx[0]))
                             case Panic => false
                             case Ok(e) => V.FreeDesc(e, old(idx[1])) == Ok(Model())
      {
        ok := FreeDesc(idx[j]);
        if !ok { return false; }
        j := j + 1;
      }
      return true;
    }

    /** Format the descriptors and publish the chain. */
    method Post(b: nat, write: bool, i0: nat, i1: nat, i2: nat)
      requires Valid() && b < bufs.Length && i0 < V.NUM && i1 < V.NUM && i2 < V.NUM
      modifies this`availIdx, ops, desc, info, bufs, availRing
      ensures Valid() && Model() == V.Post(old(Model()), b, write, i0, i1, i2)
    {
      ops[i0] := V.BlkReq(write, V.SectorOf(bufs[b].blockno));
      desc[i0] := V.Desc(V.Header(i0), 16, true, false, i1);
      desc[i1] := V.Desc(V.Payload(b), BSIZE, true, !write, i2);
      info[i0] := V.Info(None, 0xff);
      desc[i2] := V.Desc(V.StatusByte(i0), 1, false, true, 0);
      bufs[b] := bufs[b].(disk := true);
      info[i0] := info[i0].(b := Some(b));
      availRing[availIdx % V.NUM] := i0;
      availIdx := (availIdx + 1) % U16;
    }

    /** The end of virtio_disk_rw. */
    method Retire(i0: nat) returns (ok: bool)
      requires Valid() && i0 < V.NUM
      modifies info, desc, free
      ensures Valid() && ok == V.Retire(old(Model()), i0).Ok?
      ensures ok ==> V.Retire(old(Model()), i0) == Ok(Model())
    {
      info[i0] := info[i0].(b := None);
      ok := FreeChain(i0);
    }

    method ReapOne() returns (ok: bool, b: nat)
      requires Valid()
      modifies this`seen, bufs
      ensures Valid() && ok == V.ReapOne(old(Model())).Ok?
      ensures ok ==> V.ReapOne(old(Model())) == Ok((Model(), b))
      ensures ok ==> seen == if old(seen) + 1 == U16 then 0 else old(seen) + 1
    {
      var id := usedRing[seen % V.NUM];
      if id >= V.NUM || info[id].status != 0 || info[id].b.None? || info[id].b.value >= bufs.Length {
        return false, 0;
      }
      b := info[id].b.value;
      bufs[b] := bufs[b].(disk := false);
      seen := (seen + 1) % U16;
      return true, b;
    }

    /** The device writes to the memory it shares with the driver. */
    method DeviceWrites(w: V.DeviceWrite)
      requires Valid() && V.Fitting([w], bufs.Length)
      modifies this`usedIdx, usedRing, info, bufs
      ensures Valid() && Model() == V.Written(old(Model()), [w])
    {
      assert [w][0] == w;
      forall i | 0 <= i < V.NUM { usedRing[i] := w.usedRing[i]; }
      forall i | 0 <= i < V.NUM { info[i] := info[i].(status := w.status[i]); }
      forall i | 0 <= i < bufs.Length { bufs[i] := bufs[i].(data := w.data[i]); }
      usedIdx := w.usedIdx;
      ghost var was := old(Model());
      assert usedRing[..] == w.usedRing;
      assert info[..] == V.WriteInfo(was.info, w.status);
      assert bufs[..] == V.WriteData(was.bufs, w.data);
    }

    /** The interrupt loop; `dev` is what the device has written when the loop makes its first, second, ...
        test, and `woken` lists the buffers. */
    method Interrupt(dev: seq<V.DeviceWrite>) returns (ok: bool, woken: seq<nat>)
      requires Valid() && V.Fitting(dev, bufs.Length)
      modifies this`seen, this`usedIdx, usedRing, info, bufs
      ensures Valid() && ok == V.ReapAll(old(Model()), dev, []).Ok?
      ensures ok ==> V.ReapAll(old(Model()), dev, []) == Ok((Model(), woken))
    {
      woken := [];
      var more := dev;
      while true
        invariant Valid() && V.Fitting(more, bufs.Length)
        invariant V.ReapAll(old(Model()), dev, []) == V.ReapAll(Model(), more, woken)
        decreases |more|, V.Gap(seen, usedIdx)
      {
        ghost var d0 := V.Written(Model(), more);
        if more != [] { DeviceWrites(more[0]); }
        assert Model() == d0;
        if seen == usedIdx { return true, woken; }
        var b: nat;
        ok, b := ReapOne();
        if !ok { return false, woken; }
        woken := woken + [b];
        more := if more == [] then [] else more[1..];
      }
    }
  }
}
