/** The buffer cache (kernel/fs/bio.c): buffers on a least-recently-released list, reference counts,
    one sleep lock per buffer, over a disk whose reads and writes are atomic.

    A session is one bread ... brelse pair of some task; a task that holds several buffers runs
    several sessions.  Steps are the stretches between lock points, so any interleaving of sessions
    is a sequence of steps. */
module BufferCache {
  import opened Base

  type Block = seq<int>

  datatype Buf = Buf(dev: nat, blockno: nat, refc: nat, valid: bool, data: Block, holder: Option<nat>)

  datatype Phase =
    | Idle
    | Waiting(i: nat)                 // referenced in bget, not yet holding the sleep lock
    | Locked(i: nat)                  // lock held, `valid` not yet looked at
    | Using(i: nat, dirty: bool)      // bread has returned; dirty: changed since the last bwrite
    | Leaving(i: nat)                 // brelse has dropped the lock but not the reference

  datatype Write = Write(blockno: nat, data: Block)

  datatype Cache = Cache(
    bufs: seq<Buf>, order: seq<nat>, disk: map<nat, Block>, sessions: seq<Phase>,
    // history
    disk0: map<nat, Block>, log: seq<Write>, released: seq<nat>, clock: nat)

  datatype Step =
    | Get(s: nat, dev: nat, blockno: nat)
    | Acquire(s: nat)
    | ReadIn(s: nat)
    | Modify(s: nat, data: Block)
    | Bwrite(s: nat)
    | Unlock(s: nat)
    | Drop(s: nat)

  // ---------------------------------------------------------------- bget and brelse

  predicate Matches(b: Buf, dev: nat, blockno: nat) {
    b.dev == dev && b.blockno == blockno
  }

  ghost predicate ListOk(bufs: seq<Buf>, order: seq<nat>) {
    && |order| == |bufs|
    && (forall p :: 0 <= p < |order| ==> order[p] < |bufs|)
    && (forall p, q :: 0 <= p < q < |order| ==> order[p] != order[q])
  }

  /** The forward scan: position of the first buffer with this key, |order| if there is none. */
  function FindHit(bufs: seq<Buf>, order: seq<nat>, p: nat, dev: nat, blockno: nat): (r: nat)
    requires p <= |order| && forall k :: 0 <= k < |order| ==> order[k] < |bufs|
    ensures p <= r <= |order|
    ensures forall k :: p <= k < r ==> !Matches(bufs[order[k]], dev, blockno)
    ensures r < |order| ==> Matches(bufs[order[r]], dev, blockno)
    decreases |order| - p
  {
    if p == |order| then p
    else if Matches(bufs[order[p]], dev, blockno) then p
    else FindHit(bufs, order, p + 1, dev, blockno)
  }

  /** The backward scan: 1 + position of the last unreferenced buffer before p, 0 if there is none. */
  function FindFree(bufs: seq<Buf>, order: seq<nat>, p: nat): (r: nat)
    requires p <= |order| && forall k :: 0 <= k < |order| ==> order[k] < |bufs|
    ensures r <= p
    ensures forall k :: r <= k < p ==> bufs[order[k]].refc > 0
    ensures r > 0 ==> bufs[order[r - 1]].refc == 0
  {
    if p == 0 then 0
    else if bufs[order[p - 1]].refc == 0 then p
    else FindFree(bufs, order, p - 1)
  }

  /** The part of bget under bcache.lock: the changed buffers and the one chosen. */
  function Bget(bufs: seq<Buf>, order: seq<nat>, dev: nat, blockno: nat): (r: Outcome<(seq<Buf>, nat)>)
    requires forall k :: 0 <= k < |order| ==> order[k] < |bufs|
    ensures r.Ok? ==> |r.value.0| == |bufs| && r.value.1 < |bufs|
  {
    var h := FindHit(bufs, order, 0, dev, blockno);
    if h < |order| then
      var i := order[h];
      Ok((bufs[i := bufs[i].(refc := bufs[i].refc + 1)], i))
    else
      var f := FindFree(bufs, order, |order|);
      if f == 0 then Panic
      else
        var i := order[f - 1];
        Ok((bufs[i := bufs[i].(refc := 1, dev := dev, blockno := blockno, valid := false)], i))
  }

  function Without(order: seq<nat>, i: nat): (r: seq<nat>)
    ensures forall k :: k in r <==> k in order && k != i
    ensures |r| <= |order|
  {
    if order == [] then []
    else if order[0] == i then Without(order[1..], i)
    else [order[0]] + Without(order[1..], i)
  }

  /** The part of brelse under bcache.lock. */
  function Bdrop(bufs: seq<Buf>, order: seq<nat>, i: nat): (r: Outcome<(seq<Buf>, seq<nat>)>)
    requires i < |bufs|
    ensures r.Ok? ==> |r.value.0| == |bufs|
  {
    if bufs[i].refc == 0 then Panic   // the unsigned count would wrap
    else
      var bufs' := bufs[i := bufs[i].(refc := bufs[i].refc - 1)];
      Ok((bufs', if bufs'[i].refc == 0 then [i] + Without(order, i) else order))
  }

  // ---------------------------------------------------------------- steps

  function DiskAt(disk: map<nat, Block>, blockno: nat): Block {
    if blockno in disk then disk[blockno] else []
  }

  /** Which buffer a session holds a reference on. */
  function RefOf(p: Phase): Option<nat> {
    if p.Idle? then None else Some(p.i)
  }

  predicate Holds(p: Phase) { p.Locked? || p.Using? }

  ghost predicate InRange(c: Cache) {
    && (forall k :: 0 <= k < |c.order| ==> c.order[k] < |c.bufs|)
    && (forall s :: 0 <= s < |c.sessions| && !c.sessions[s].Idle? ==> c.sessions[s].i < |c.bufs|)
    && |c.released| == |c.bufs|
  }

  /** One step; a step that is not enabled leaves the state alone. */
  ghost function Do(c: Cache, a: Step): Outcome<Cache>
    requires InRange(c)
  {
    if a.s >= |c.sessions| then Ok(c)
    else
      var p := c.sessions[a.s];
      match a
      case Get(s, dev, blockno) =>
        if !p.Idle? then Ok(c)
        else
          (match Bget(c.bufs, c.order, dev, blockno)
           case Panic => Panic
           case Ok((bufs', i)) => Ok(c.(bufs := bufs', sessions := c.sessions[s := Waiting(i)])))
      case Acquire(s) =>
        if p.Waiting? && c.bufs[p.i].holder.None? then
          Ok(c.(bufs := c.bufs[p.i := c.bufs[p.i].(holder := Some(s))], sessions := c.sessions[s := Locked(p.i)]))
        else Ok(c)
      case ReadIn(s) =>
        if !p.Locked? then Ok(c)
        else
          var b := c.bufs[p.i];
          var b' := if b.valid then b else b.(data := DiskAt(c.disk, b.blockno), valid := true);
          Ok(c.(bufs := c.bufs[p.i := b'], sessions := c.sessions[s := Using(p.i, false)]))
      case Modify(s, data) =>
        if !p.Using? then Ok(c)
        else Ok(c.(bufs := c.bufs[p.i := c.bufs[p.i].(data := data)], sessions := c.sessions[s := Using(p.i, true)]))
      case Bwrite(s) =>
        if !p.Using? then Ok(c)
        else
          var b := c.bufs[p.i];
          Ok(c.(disk := c.disk[b.blockno := b.data], log := c.log + [Write(b.blockno, b.data)],
             sessions := c.sessions[s := Using(p.i, false)]))
      case Unlock(s) =>
        if p.Using? && !p.dirty then
          Ok(c.(bufs := c.bufs[p.i := c.bufs[p.i].(holder := None)], sessions := c.sessions[s := Leaving(p.i)]))
        else Ok(c)
      case Drop(s) =>
        if !p.Leaving? then Ok(c)
        else
          (match Bdrop(c.bufs, c.order, p.i)
           case Panic => Panic
           case Ok((bufs', order')) =>
             Ok(c.(bufs := bufs', order := order', sessions := c.sessions[s := Idle],
                released := if bufs'[p.i].refc == 0 then c.released[p.i := c.clock] else c.released,
                clock := c.clock + 1)))
  }

  // ---------------------------------------------------------------- invariant

  predicate Live(b: Buf) { b.refc > 0 || b.valid }

  function Refs(sessions: seq<Phase>, i: nat): nat {
    if sessions == [] then 0
    else Refs(sessions[..|sessions| - 1], i) + if RefOf(sessions[|sessions| - 1]) == Some(i) then 1 else 0
  }

  /** devOf says through which device each block is read. */
  ghost predicate BufOk(c: Cache, devOf: nat -> nat, i: nat)
    requires i < |c.bufs|
  {
    var b := c.bufs[i];
    && b.refc == Refs(c.sessions, i)
    && (Live(b) ==> b.dev == devOf(b.blockno))
    && (!Live(b) ==> b.dev == 0 && b.blockno == 0)
    && (b.holder.Some? ==>
          b.holder.value < |c.sessions| && Holds(c.sessions[b.holder.value]) && c.sessions[b.holder.value].i == i)
    && (b.valid && (b.holder.Some? ==> !(c.sessions[b.holder.value].Using? && c.sessions[b.holder.value].dirty)) ==>
          b.data == DiskAt(c.disk, b.blockno))
  }

  ghost predicate SessionOk(c: Cache, s: nat)
    requires s < |c.sessions|
  {
    var p := c.sessions[s];
    && (!p.Idle? ==> p.i < |c.bufs|)
    && (Holds(p) ==> c.bufs[p.i].holder == Some(s))
    && ((p.Using? || p.Leaving?) ==> c.bufs[p.i].valid)
  }

  /** At most one referenced-or-valid buffer per block. */
  ghost predicate Unique(bufs: seq<Buf>) {
    forall i, j :: 0 <= i < |bufs| && 0 <= j < |bufs| && i != j && Live(bufs[i]) && Live(bufs[j]) ==>
      bufs[i].blockno != bufs[j].blockno
  }

  /** A never-used buffer never stands in front of a used one carrying the same initial key (0, 0). */
  ghost predicate LiveFirst(bufs: seq<Buf>, order: seq<nat>)
    requires forall p :: 0 <= p < |order| ==> order[p] < |bufs|
  {
    forall p, q :: 0 <= p < q < |order| && !Live(bufs[order[p]]) && Live(bufs[order[q]]) ==>
      !Matches(bufs[order[q]], 0, 0)
  }

  /** Unreferenced buffers stand in the order of their last release, the latest first. */
  ghost predicate LruOrder(bufs: seq<Buf>, order: seq<nat>, released: seq<nat>)
    requires |released| == |bufs| && forall p :: 0 <= p < |order| ==> order[p] < |bufs|
  {
    forall p, q :: 0 <= p < q < |order| && bufs[order[p]].refc == 0 && bufs[order[q]].refc == 0 ==>
      released[order[p]] > released[order[q]]
  }

  function Replay(disk: map<nat, Block>, log: seq<Write>): map<nat, Block> {
    if log == [] then disk
    else Replay(disk, log[..|log| - 1])[log[|log| - 1].blockno := log[|log| - 1].data]
  }

  /** What the last bwrite of the block stored, or what the disk held before any. */
  function LastWrite(disk: map<nat, Block>, log: seq<Write>, blockno: nat): Block {
    if log == [] then DiskAt(disk, blockno)
    else if log[|log| - 1].blockno == blockno then log[|log| - 1].data
    else LastWrite(disk, log[..|log| - 1], blockno)
  }

  lemma {:induction false} ReplayIsLastWrite(disk: map<nat, Block>, log: seq<Write>, blockno: nat)
    ensures DiskAt(Replay(disk, log), blockno) == LastWrite(disk, log, blockno)
  {
    if log != [] { ReplayIsLastWrite(disk, log[..|log| - 1], blockno); }
  }

  ghost predicate Frame(c: Cache) {
    && ListOk(c.bufs, c.order) && |c.released| == |c.bufs|
    && (forall i :: 0 <= i < |c.released| ==> c.released[i] < c.clock)
    && c.disk == Replay(c.disk0, c.log)
  }

  ghost predicate Inv(c: Cache, devOf: nat -> nat) {
    && Frame(c) && Unique(c.bufs) && LiveFirst(c.bufs, c.order) && LruOrder(c.bufs, c.order, c.released)
    && (forall i :: 0 <= i < |c.bufs| ==> BufOk(c, devOf, i))
    && (forall s :: 0 <= s < |c.sessions| ==> SessionOk(c, s))
  }

  // ---------------------------------------------------------------- counting references

  lemma {:induction false} RefsUpdate(sessions: seq<Phase>, s: nat, p: Phase, i: nat)
    requires s < |sessions|
    ensures Refs(sessions[s := p], i) ==
            Refs(sessions, i) - (if RefOf(sessions[s]) == Some(i) then 1 else 0) + (if RefOf(p) == Some(i) then 1 else 0)
  {
    var n := |sessions| - 1;
    if s == n {
      assert sessions[s := p][..n] == sessions[..n];
    } else {
      assert sessions[s := p][..n] == sessions[..n][s := p];
      RefsUpdate(sessions[..n], s, p, i);
    }
  }

  lemma {:induction false} RefsPositive(sessions: seq<Phase>, s: nat, i: nat)
    requires s < |sessions| && RefOf(sessions[s]) == Some(i)
    ensures Refs(sessions, i) > 0
  {
    var n := |sessions| - 1;
    if s < n { RefsPositive(sessions[..n], s, i); }
  }

  // ---------------------------------------------------------------- bget

  /** What bget guarantees about its choice. */
  ghost predicate Chosen(bufs: seq<Buf>, order: seq<nat>, dev: nat, blockno: nat, i: nat, bufs': seq<Buf>)
    requires |bufs'| == |bufs| && i < |bufs|
  {
    if Matches(bufs[i], dev, blockno) then bufs' == bufs[i := bufs[i].(refc := bufs[i].refc + 1)]
    else
      && (forall j :: 0 <= j < |bufs| ==> !Matches(bufs[j], dev, blockno))
      && bufs[i].refc == 0
      && bufs' == bufs[i := bufs[i].(refc := 1, dev := dev, blockno := blockno, valid := false)]
  }

  lemma OrderCovers(bufs: seq<Buf>, order: seq<nat>, i: nat) returns (p: nat)
    requires ListOk(bufs, order) && i < |bufs|
    ensures p < |order| && order[p] == i
  {
    if i !in order {
      Pigeonhole(Squeeze(order, i), |bufs| - 1);
      var a, b :| 0 <= a < b < |order| && Squeeze(order, i)[a] == Squeeze(order, i)[b];
      assert order[a] != order[b];
    }
    p :| 0 <= p < |order| && order[p] == i;
  }

  /** The list without a gap at i, to count it. */
  ghost function Squeeze(order: seq<nat>, i: nat): (r: seq<nat>)
    ensures |r| == |order|
    ensures forall k :: 0 <= k < |order| ==> r[k] == if order[k] > i then order[k] - 1 else order[k]
  {
    seq(|order|, k requires 0 <= k < |order| => if order[k] > i then order[k] - 1 else order[k])
  }

  lemma BgetChooses(bufs: seq<Buf>, order: seq<nat>, dev: nat, blockno: nat)
    requires ListOk(bufs, order)
    ensures var r := Bget(bufs, order, dev, blockno);
      match r
      case Panic =>
        (forall j :: 0 <= j < |bufs| ==> !Matches(bufs[j], dev, blockno) && bufs[j].refc > 0)
      case Ok((bufs', i)) => Chosen(bufs, order, dev, blockno, i, bufs')
  {
    var h := FindHit(bufs, order, 0, dev, blockno);
    if h == |order| {
      var f := FindFree(bufs, order, |order|);
      forall j | 0 <= j < |bufs| ensures !Matches(bufs[j], dev, blockno) && (f == 0 ==> bufs[j].refc > 0) {
        var p := OrderCovers(bufs, order, j);
      }
    }
  }

  /** The hit is the live buffer of the block if there is one. */
  lemma HitIsLive(bufs: seq<Buf>, order: seq<nat>, devOf: nat -> nat, blockno: nat, j: nat)
    requires ListOk(bufs, order) && LiveFirst(bufs, order) && j < |bufs|
    requires forall k :: 0 <= k < |bufs| ==> if Live(bufs[k]) then bufs[k].dev == devOf(bufs[k].blockno)
                                                  else bufs[k].dev == 0 && bufs[k].blockno == 0
    requires Live(bufs[j]) && bufs[j].blockno == blockno
    requires Bget(bufs, order, devOf(blockno), blockno).Ok?
    ensures Live(bufs[Bget(bufs, order, devOf(blockno), blockno).value.1])
    ensures Matches(bufs[Bget(bufs, order, devOf(blockno), blockno).value.1], devOf(blockno), blockno)
  {
    var p := OrderCovers(bufs, order, j);
    var h := FindHit(bufs, order, 0, devOf(blockno), blockno);
    assert Matches(bufs[order[p]], devOf(blockno), blockno);
    assert h <= p;
  }

  /** A buffer recycled by a miss was released longest ago of all unreferenced ones. */
  lemma MissIsLru(bufs: seq<Buf>, order: seq<nat>, released: seq<nat>, dev: nat, blockno: nat)
    requires ListOk(bufs, order) && |released| == |bufs| && LruOrder(bufs, order, released)
    requires FindHit(bufs, order, 0, dev, blockno) == |order| && Bget(bufs, order, dev, blockno).Ok?
    ensures var i := Bget(bufs, order, dev, blockno).value.1;
      && bufs[i].refc == 0
      && forall j :: 0 <= j < |bufs| && bufs[j].refc == 0 && j != i ==> released[i] < released[j]
  {
    var i := Bget(bufs, order, dev, blockno).value.1;
    var f := FindFree(bufs, order, |order|);
    forall j | 0 <= j < |bufs| && bufs[j].refc == 0 && j != i ensures released[i] < released[j] {
      var p := OrderCovers(bufs, order, j);
      assert p < f - 1;
    }
  }

  // ---------------------------------------------------------------- moving to the front

  lemma {:induction false} WithoutAt(order: seq<nat>, i: nat, h: nat)
    requires h < |order| && order[h] == i && forall p, q :: 0 <= p < q < |order| ==> order[p] != order[q]
    ensures Without(order, i) == order[..h] + order[h + 1..]
  {
    if h == 0 {
      WithoutAbsent(order[1..], i);
    } else {
      WithoutAt(order[1..], i, h - 1);
      assert order[..h] == [order[0]] + order[1..][..h - 1];
    }
  }

  lemma {:induction false} WithoutAbsent(order: seq<nat>, i: nat)
    requires i !in order
    ensures Without(order, i) == order
  {
    if order != [] { WithoutAbsent(order[1..], i); }
  }

  /** Where the entries of the moved list come from. */
  ghost predicate MovedFront(order: seq<nat>, order': seq<nat>, h: nat)
    requires h < |order|
  {
    && |order'| == |order| && order'[0] == order[h]
    && forall k :: 1 <= k < |order| ==> order'[k] == order[if k <= h then k - 1 else k]
  }

  lemma MoveFront(bufs: seq<Buf>, order: seq<nat>, i: nat) returns (h: nat)
    requires ListOk(bufs, order) && i < |bufs|
    ensures h < |order| && order[h] == i && MovedFront(order, [i] + Without(order, i), h)
    ensures ListOk(bufs, [i] + Without(order, i))
  {
    h := OrderCovers(bufs, order, i);
    WithoutAt(order, i, h);
  }

  // ---------------------------------------------------------------- every step keeps the invariant

  lemma InvInRange(c: Cache, devOf: nat -> nat)
    requires Inv(c, devOf)
    ensures InRange(c)
  {
    forall s | 0 <= s < |c.sessions| && !c.sessions[s].Idle? ensures c.sessions[s].i < |c.bufs| {
      assert SessionOk(c, s);
    }
  }

  /** A step that changes neither keys, counts nor liveness keeps the list properties. */
  lemma SameListFacts(bufs: seq<Buf>, bufs': seq<Buf>, order: seq<nat>, released: seq<nat>)
    requires ListOk(bufs, order) && |released| == |bufs| == |bufs'|
    requires Unique(bufs) && LiveFirst(bufs, order) && LruOrder(bufs, order, released)
    requires forall i :: 0 <= i < |bufs| ==>
               && bufs'[i].dev == bufs[i].dev && bufs'[i].blockno == bufs[i].blockno
               && bufs'[i].refc == bufs[i].refc && Live(bufs'[i]) == Live(bufs[i])
    ensures ListOk(bufs', order) && Unique(bufs') && LiveFirst(bufs', order) && LruOrder(bufs', order, released)
  {
  }

  /** The shape of Acquire, ReadIn, Modify, Bwrite and Unlock: session s moves within buffer i. */
  ghost predicate LocalStep(c: Cache, c': Cache, s: nat, i: nat)
    requires s < |c.sessions| && i < |c.bufs|
  {
    && |c'.bufs| == |c.bufs| && |c'.sessions| == |c.sessions|
    && c' == c.(bufs := c.bufs[i := c'.bufs[i]], sessions := c.sessions[s := c'.sessions[s]],
             disk := c'.disk, log := c'.log)
    && RefOf(c.sessions[s]) == RefOf(c'.sessions[s]) == Some(i)
    && c'.bufs[i].dev == c.bufs[i].dev && c'.bufs[i].blockno == c.bufs[i].blockno
    && c'.bufs[i].refc == c.bufs[i].refc
    && c'.disk == Replay(c'.disk0, c'.log)
    && (forall b: nat :: b != c.bufs[i].blockno ==> DiskAt(c'.disk, b) == DiskAt(c.disk, b))
  }

  lemma LocalKeepsOther(c: Cache, c': Cache, devOf: nat -> nat, s: nat, i: nat, j: nat)
    requires Inv(c, devOf) && s < |c.sessions| && i < |c.bufs| && LocalStep(c, c', s, i) && j < |c.bufs| && j != i
    requires Live(c.bufs[i])
    ensures BufOk(c', devOf, j)
  {
    assert BufOk(c, devOf, j) && SessionOk(c, s);
    RefsUpdate(c.sessions, s, c'.sessions[s], j);
  }

  lemma LocalKeeps(c: Cache, c': Cache, devOf: nat -> nat, s: nat, i: nat)
    requires Inv(c, devOf) && s < |c.sessions| && i < |c.bufs| && LocalStep(c, c', s, i)
    requires BufOk(c', devOf, i) && SessionOk(c', s)
    requires forall u :: 0 <= u < |c.sessions| && u != s ==> SessionOk(c', u)
    ensures Inv(c', devOf)
  {
    RefsPositive(c.sessions, s, i);
    assert BufOk(c, devOf, i);
    SameListFacts(c.bufs, c'.bufs, c.order, c.released);
    forall j | 0 <= j < |c.bufs| && j != i ensures BufOk(c', devOf, j) {
      LocalKeepsOther(c, c', devOf, s, i, j);
    }
  }

  lemma AcquireKeeps(c: Cache, devOf: nat -> nat, s: nat)
    requires Inv(c, devOf) && InRange(c) && s < |c.sessions|
    ensures Do(c, Acquire(s)).Ok? && Inv(Do(c, Acquire(s)).value, devOf)
  {
    var p, c' := c.sessions[s], Do(c, Acquire(s)).value;
    assert SessionOk(c, s);
    if p.Waiting? && c.bufs[p.i].holder.None? {
      assert BufOk(c, devOf, p.i);
      RefsUpdate(c.sessions, s, c'.sessions[s], p.i);
      forall u | 0 <= u < |c.sessions| && u != s ensures SessionOk(c', u) {
        assert SessionOk(c, u);
      }
      LocalKeeps(c, c', devOf, s, p.i);
    }
  }

  lemma ReadInKeeps(c: Cache, devOf: nat -> nat, s: nat)
    requires Inv(c, devOf) && InRange(c) && s < |c.sessions|
    ensures Do(c, ReadIn(s)).Ok? && Inv(Do(c, ReadIn(s)).value, devOf)
  {
    var p, c' := c.sessions[s], Do(c, ReadIn(s)).value;
    assert SessionOk(c, s);
    if p.Locked? {
      assert BufOk(c, devOf, p.i);
      RefsUpdate(c.sessions, s, c'.sessions[s], p.i);
      RefsPositive(c.sessions, s, p.i);
      forall u | 0 <= u < |c.sessions| && u != s ensures SessionOk(c', u) {
        assert SessionOk(c, u);
      }
      LocalKeeps(c, c', devOf, s, p.i);
    }
  }

  lemma ModifyKeeps(c: Cache, devOf: nat -> nat, s: nat, data: Block)
    requires Inv(c, devOf) && InRange(c) && s < |c.sessions|
    ensures Do(c, Modify(s, data)).Ok? && Inv(Do(c, Modify(s, data)).value, devOf)
  {
    var p, c' := c.sessions[s], Do(c, Modify(s, data)).value;
    assert SessionOk(c, s);
    if p.Using? {
      assert BufOk(c, devOf, p.i);
      RefsUpdate(c.sessions, s, c'.sessions[s], p.i);
      forall u | 0 <= u < |c.sessions| && u != s ensures SessionOk(c', u) {
        assert SessionOk(c, u);
      }
      LocalKeeps(c, c', devOf, s, p.i);
    }
  }

  lemma BwriteKeeps(c: Cache, devOf: nat -> nat, s: nat)
    requires Inv(c, devOf) && InRange(c) && s < |c.sessions|
    ensures Do(c, Bwrite(s)).Ok? && Inv(Do(c, Bwrite(s)).value, devOf)
  {
    var p, c' := c.sessions[s], Do(c, Bwrite(s)).value;
    assert SessionOk(c, s);
    if p.Using? {
      assert BufOk(c, devOf, p.i);
      assert c'.log[..|c.log|] == c.log;
      assert c.bufs[p.i := c.bufs[p.i]] == c.bufs;
      RefsUpdate(c.sessions, s, c'.sessions[s], p.i);
      forall u | 0 <= u < |c.sessions| && u != s ensures SessionOk(c', u) {
        assert SessionOk(c, u);
      }
      LocalKeeps(c, c', devOf, s, p.i);
    }
  }

  lemma UnlockKeeps(c: Cache, devOf: nat -> nat, s: nat)
    requires Inv(c, devOf) && InRange(c) && s < |c.sessions|
    ensures Do(c, Unlock(s)).Ok? && Inv(Do(c, Unlock(s)).value, devOf)
  {
    var p, c' := c.sessions[s], Do(c, Unlock(s)).value;
    assert SessionOk(c, s);
    if p.Using? && !p.dirty {
      assert BufOk(c, devOf, p.i);
      RefsUpdate(c.sessions, s, c'.sessions[s], p.i);
      forall u | 0 <= u < |c.sessions| && u != s ensures SessionOk(c', u) {
        assert SessionOk(c, u);
      }
      LocalKeeps(c, c', devOf, s, p.i);
    }
  }

  lemma GetKeepsKeys(c: Cache, devOf: nat -> nat, blockno: nat)
    requires Inv(c, devOf) && InRange(c) && Bget(c.bufs, c.order, devOf(blockno), blockno).Ok?
    ensures var (bufs', i) := Bget(c.bufs, c.order, devOf(blockno), blockno).value;
      && Unique(bufs') && LiveFirst(bufs', c.order) && LruOrder(bufs', c.order, c.released)
      && Chosen(c.bufs, c.order, devOf(blockno), blockno, i, bufs')
      && (!Matches(c.bufs[i], devOf(blockno), blockno) ==> c.bufs[i].refc == 0)
  {
    GetOthers(c, devOf, blockno);
    var (bufs', i) := Bget(c.bufs, c.order, devOf(blockno), blockno).value;
    hide Bget;
    hide BufOk;
    hide SessionOk;
  }

  lemma GetOthers(c: Cache, devOf: nat -> nat, blockno: nat)
    requires Inv(c, devOf) && InRange(c) && Bget(c.bufs, c.order, devOf(blockno), blockno).Ok?
    ensures var (bufs', i) := Bget(c.bufs, c.order, devOf(blockno), blockno).value;
      && Chosen(c.bufs, c.order, devOf(blockno), blockno, i, bufs') && LiveFirst(bufs', c.order)
      && forall j :: 0 <= j < |c.bufs| && j != i && Live(c.bufs[j]) ==> c.bufs[j].blockno != blockno
  {
    var (bufs', i) := Bget(c.bufs, c.order, devOf(blockno), blockno).value;
    BgetChooses(c.bufs, c.order, devOf(blockno), blockno);
    forall k | 0 <= k < |c.bufs|
      ensures if Live(c.bufs[k]) then c.bufs[k].dev == devOf(c.bufs[k].blockno)
              else c.bufs[k].dev == 0 && c.bufs[k].blockno == 0
    {
      assert BufOk(c, devOf, k);
    }
    forall j | 0 <= j < |c.bufs| && j != i && Live(c.bufs[j]) ensures c.bufs[j].blockno != blockno {
      if c.bufs[j].blockno == blockno {
        HitIsLive(c.bufs, c.order, devOf, blockno, j);
      }
    }
    NoneBeforeHit(c.bufs, c.order, devOf(blockno), blockno);
  }

  /** No never-used buffer stands before the chosen one once it has the initial key. */
  lemma NoneBeforeHit(bufs: seq<Buf>, order: seq<nat>, dev: nat, blockno: nat)
    requires ListOk(bufs, order) && Bget(bufs, order, dev, blockno).Ok?
    requires forall k :: 0 <= k < |bufs| && !Live(bufs[k]) ==> bufs[k].dev == 0 && bufs[k].blockno == 0
    ensures var i := Bget(bufs, order, dev, blockno).value.1;
      forall p, q :: 0 <= p < q < |order| && order[q] == i && dev == 0 && blockno == 0 ==> Live(bufs[order[p]])
  {
    var h := FindHit(bufs, order, 0, dev, blockno);
    var i := Bget(bufs, order, dev, blockno).value.1;
    forall p, q | 0 <= p < q < |order| && order[q] == i && dev == 0 && blockno == 0 ensures Live(bufs[order[p]]) {
      assert h < |order| ==> order[h] == order[q];
      assert h < |order| ==> !Matches(bufs[order[p]], dev, blockno);
      assert h == |order| ==> !Matches(bufs[order[p]], dev, blockno);
    }
  }

  lemma GetKeepsBuf(c: Cache, devOf: nat -> nat, s: nat, blockno: nat, j: nat)
    requires Inv(c, devOf) && InRange(c) && s < |c.sessions| && c.sessions[s].Idle? && j < |c.bufs|
    requires Bget(c.bufs, c.order, devOf(blockno), blockno).Ok?
    ensures BufOk(Do(c, Get(s, devOf(blockno), blockno)).value, devOf, j)
  {
    var (bufs', i) := Bget(c.bufs, c.order, devOf(blockno), blockno).value;
    BgetChooses(c.bufs, c.order, devOf(blockno), blockno);
    assert BufOk(c, devOf, j) && BufOk(c, devOf, i);
    RefsUpdate(c.sessions, s, Waiting(i), j);
    if c.bufs[j].holder.Some? {
      var u := c.bufs[j].holder.value;
      assert SessionOk(c, u);
      RefsPositive(c.sessions, u, j);
    }
  }

  lemma GetKeeps(c: Cache, devOf: nat -> nat, s: nat, blockno: nat)
    requires Inv(c, devOf) && InRange(c) && s < |c.sessions|
    ensures var r := Do(c, Get(s, devOf(blockno), blockno)); r.Ok? ==> Inv(r.value, devOf)
  {
    var r := Do(c, Get(s, devOf(blockno), blockno));
    if c.sessions[s].Idle? && r.Ok? {
      GetKeepsKeys(c, devOf, blockno);
      var i := Bget(c.bufs, c.order, devOf(blockno), blockno).value.1;
      forall j | 0 <= j < |c.bufs| ensures BufOk(r.value, devOf, j) {
        GetKeepsBuf(c, devOf, s, blockno, j);
      }
      forall u | 0 <= u < |c.sessions| ensures SessionOk(r.value, u) {
        assert SessionOk(c, u);
        if !c.sessions[u].Idle? {
          RefsPositive(c.sessions, u, c.sessions[u].i);
          assert BufOk(c, devOf, c.sessions[u].i);
        }
      }
    }
  }

  lemma DropKeepsList(c: Cache, devOf: nat -> nat, i: nat)
    requires Inv(c, devOf) && i < |c.bufs| && c.bufs[i].refc == 1 && c.bufs[i].valid
    ensures var bufs' := c.bufs[i := c.bufs[i].(refc := 0)];
      var order' := [i] + Without(c.order, i);
      && ListOk(bufs', order') && Unique(bufs') && LiveFirst(bufs', order')
      && LruOrder(bufs', order', c.released[i := c.clock])
  {
    hide BufOk;
    hide SessionOk;
    var h := MoveFront(c.bufs, c.order, i);
    var order' := [i] + Without(c.order, i);
    var bufs' := c.bufs[i := c.bufs[i].(refc := 0)];
    forall p, q | 0 <= p < q < |order'| && p > 0
      ensures var p' := if p <= h then p - 1 else p; var q' := if q <= h then q - 1 else q;
        p' < q' && order'[p] == c.order[p'] && order'[q] == c.order[q']
    {
    }
  }

  lemma DropKeepsBuf(c: Cache, c': Cache, devOf: nat -> nat, s: nat, j: nat)
    requires Inv(c, devOf) && s < |c.sessions| && c.sessions[s].Leaving? && j < |c.bufs|
    requires c.sessions[s].i < |c.bufs| && c.bufs[c.sessions[s].i].refc > 0
    requires c'.bufs == c.bufs[c.sessions[s].i := c.bufs[c.sessions[s].i].(refc := c.bufs[c.sessions[s].i].refc - 1)]
    requires c'.sessions == c.sessions[s := Idle] && c'.disk == c.disk
    ensures BufOk(c', devOf, j)
  {
    assert BufOk(c, devOf, j) && SessionOk(c, s);
    RefsUpdate(c.sessions, s, Idle, j);
  }

  lemma DropKeepsSession(c: Cache, c': Cache, s: nat, u: nat)
    requires u < |c.sessions| && s < |c.sessions| && SessionOk(c, u) && c.sessions[s].Leaving?
    requires c.sessions[s].i < |c.bufs| && c.bufs[c.sessions[s].i].refc > 0
    requires c'.bufs == c.bufs[c.sessions[s].i := c.bufs[c.sessions[s].i].(refc := c.bufs[c.sessions[s].i].refc - 1)]
    requires c'.sessions == c.sessions[s := Idle] && c'.disk == c.disk
    ensures SessionOk(c', u)
  {
  }

  lemma DropKeeps(c: Cache, devOf: nat -> nat, s: nat)
    requires Inv(c, devOf) && InRange(c) && s < |c.sessions|
    ensures Do(c, Drop(s)).Ok? && Inv(Do(c, Drop(s)).value, devOf)
  {
    var p := c.sessions[s];
    if p.Leaving? {
      assert SessionOk(c, s) && BufOk(c, devOf, p.i);
      RefsPositive(c.sessions, s, p.i);
      var c' := Do(c, Drop(s)).value;
      hide Refs;
      hide Without;
      if c.bufs[p.i].refc == 1 {
        DropKeepsList(c, devOf, p.i);
      }
      forall j | 0 <= j < |c.bufs| ensures BufOk(c', devOf, j) {
        DropKeepsBuf(c, c', devOf, s, j);
      }
      hide BufOk;
      forall u | 0 <= u < |c.sessions| ensures SessionOk(c', u) {
        DropKeepsSession(c, c', s, u);
      }
      hide SessionOk;
    }
  }

  ghost predicate UsesDev(a: Step, devOf: nat -> nat) {
    a.Get? ==> a.dev == devOf(a.blockno)
  }

  lemma DoKeeps(c: Cache, devOf: nat -> nat, a: Step)
    requires Inv(c, devOf) && UsesDev(a, devOf)
    ensures InRange(c) && (Do(c, a).Ok? ==> Inv(Do(c, a).value, devOf))
    ensures Do(c, a).Panic? ==> a.Get? && forall j :: 0 <= j < |c.bufs| ==> c.bufs[j].refc > 0
  {
    InvInRange(c, devOf);
    if a.s < |c.sessions| {
      match a
      case Get(s, dev, blockno) =>
        GetKeeps(c, devOf, s, blockno);
        BgetChooses(c.bufs, c.order, dev, blockno);
      case Acquire(s) => AcquireKeeps(c, devOf, s);
      case ReadIn(s) => ReadInKeeps(c, devOf, s);
      case Modify(s, data) => ModifyKeeps(c, devOf, s, data);
      case Bwrite(s) => BwriteKeeps(c, devOf, s);
      case Unlock(s) => UnlockKeeps(c, devOf, s);
      case Drop(s) => DropKeeps(c, devOf, s);
    }
  }

  // ---------------------------------------------------------------- whole runs

  /** init_bcache: every buffer has key (0, 0) and is neither referenced nor valid. */
  ghost predicate Init(c: Cache) {
    && (forall i :: 0 <= i < |c.bufs| ==> c.bufs[i] == Buf(0, 0, 0, false, [], None))
    && |c.order| == |c.bufs| && (forall p :: 0 <= p < |c.order| ==> c.order[p] == p)
    && (forall s :: 0 <= s < |c.sessions| ==> c.sessions[s].Idle?)
    && c.disk0 == c.disk && c.log == []
    // the list starts as if the buffers had been released from the last to the first
    && |c.released| == |c.bufs| && c.clock == |c.bufs|
    && (forall i :: 0 <= i < |c.bufs| ==> c.released[i] == |c.bufs| - 1 - i)
  }

  ghost function Run(c: Cache, steps: seq<Step>): Outcome<Cache>
    decreases |steps|
  {
    if steps == [] then Ok(c)
    else if !InRange(c) then Panic
    else
      match Do(c, steps[0])
      case Panic => Panic
      case Ok(c') => Run(c', steps[1..])
  }

  lemma {:induction false} NoRefs(sessions: seq<Phase>, i: nat)
    requires forall s :: 0 <= s < |sessions| ==> sessions[s].Idle?
    ensures Refs(sessions, i) == 0
  {
    if sessions != [] { NoRefs(sessions[..|sessions| - 1], i); }
  }

  lemma InitInv(c: Cache, devOf: nat -> nat)
    requires Init(c)
    ensures Inv(c, devOf)
  {
    forall i | 0 <= i < |c.bufs| ensures BufOk(c, devOf, i) {
      NoRefs(c.sessions, i);
    }
  }

  lemma {:induction false} RunKeeps(c: Cache, devOf: nat -> nat, steps: seq<Step>)
    requires Inv(c, devOf) && forall k :: 0 <= k < |steps| ==> UsesDev(steps[k], devOf)
    ensures Run(c, steps).Ok? ==> Inv(Run(c, steps).value, devOf)
    decreases |steps|
  {
    if steps != [] {
      DoKeeps(c, devOf, steps[0]);
      if Do(c, steps[0]).Ok? {
        RunKeeps(Do(c, steps[0]).value, devOf, steps[1..]);
      }
    }
  }

  // ---------------------------------------------------------------- a flat array of blocks

  /** What a session is doing, in terms of the block it asked for; there are no buffers here. */
  datatype User =
    | Away
    | Asks(blockno: nat)
    | Owns(blockno: nat)
    | Sees(blockno: nat, data: Block, dirty: bool)
    | Leaves(blockno: nat)

  /** An array of blocks, each with a lock, and the writes so far. */
  datatype Flat = Flat(disk: map<nat, Block>, log: seq<Write>, users: seq<User>)

  predicate Has(u: User, blockno: nat) { (u.Owns? || u.Sees?) && u.blockno == blockno }

  ghost predicate Taken(f: Flat, blockno: nat) {
    exists u :: 0 <= u < |f.users| && Has(f.users[u], blockno)
  }

  ghost function FlatDo(f: Flat, a: Step): Flat {
    if a.s >= |f.users| then f
    else
      var u := f.users[a.s];
      match a
      case Get(s, _, blockno) => if u.Away? then f.(users := f.users[s := Asks(blockno)]) else f
      case Acquire(s) =>
        if u.Asks? && !Taken(f, u.blockno) then f.(users := f.users[s := Owns(u.blockno)]) else f
      case ReadIn(s) =>
        if u.Owns? then f.(users := f.users[s := Sees(u.blockno, DiskAt(f.disk, u.blockno), false)]) else f
      case Modify(s, data) => if u.Sees? then f.(users := f.users[s := Sees(u.blockno, data, true)]) else f
      case Bwrite(s) =>
        if u.Sees? then
          Flat(f.disk[u.blockno := u.data], f.log + [Write(u.blockno, u.data)], f.users[s := Sees(u.blockno, u.data, false)])
        else f
      case Unlock(s) => if u.Sees? && !u.dirty then f.(users := f.users[s := Leaves(u.blockno)]) else f
      case Drop(s) => if u.Leaves? then f.(users := f.users[s := Away]) else f
  }

  ghost function FlatRun(f: Flat, steps: seq<Step>): Flat
    decreases |steps|
  {
    if steps == [] then f else FlatRun(FlatDo(f, steps[0]), steps[1..])
  }

  function UserOf(bufs: seq<Buf>, p: Phase): User
    requires !p.Idle? ==> p.i < |bufs|
  {
    match p
    case Idle => Away
    case Waiting(i) => Asks(bufs[i].blockno)
    case Locked(i) => Owns(bufs[i].blockno)
    case Using(i, dirty) => Sees(bufs[i].blockno, bufs[i].data, dirty)
    case Leaving(i) => Leaves(bufs[i].blockno)
  }

  /** What the cache looks like without its buffers. */
  ghost function Abs(c: Cache): (f: Flat)
    requires InRange(c)
    ensures f.disk == c.disk && f.log == c.log && |f.users| == |c.sessions|
    ensures forall s :: 0 <= s < |c.sessions| ==> f.users[s] == UserOf(c.bufs, c.sessions[s])
  {
    Flat(c.disk, c.log, seq(|c.sessions|, s requires 0 <= s < |c.sessions| => UserOf(c.bufs, c.sessions[s])))
  }

  /** Abs of a state in which session s moved and the other sessions' view did not. */
  lemma AbsMoves(c: Cache, c': Cache, s: nat, u: User)
    requires InRange(c) && InRange(c') && s < |c.sessions| == |c'.sessions| && UserOf(c'.bufs, c'.sessions[s]) == u
    requires forall v :: 0 <= v < |c.sessions| && v != s ==> UserOf(c'.bufs, c'.sessions[v]) == UserOf(c.bufs, c.sessions[v])
    ensures Abs(c') == Flat(c'.disk, c'.log, Abs(c).users[s := u])
  {
    assert Abs(c').users == Abs(c).users[s := u];
  }

  /** No buffer is rekeyed under a session that waits for it. */
  lemma GetRefines(c: Cache, devOf: nat -> nat, s: nat, dev: nat, blockno: nat)
    requires Inv(c, devOf) && InRange(c) && Do(c, Get(s, dev, blockno)).Ok? && InRange(Do(c, Get(s, dev, blockno)).value)
    ensures Abs(Do(c, Get(s, dev, blockno)).value) == FlatDo(Abs(c), Get(s, dev, blockno))
  {
    if s < |c.sessions| && c.sessions[s].Idle? {
      BgetChooses(c.bufs, c.order, dev, blockno);
      var c' := Do(c, Get(s, dev, blockno)).value;
      forall v | 0 <= v < |c.sessions| && v != s
        ensures UserOf(c'.bufs, c'.sessions[v]) == UserOf(c.bufs, c.sessions[v])
      {
        if !c.sessions[v].Idle? {
          RefsPositive(c.sessions, v, c.sessions[v].i);
          assert BufOk(c, devOf, c.sessions[v].i);
        }
      }
      hide Inv;
      hide Bget;
      AbsMoves(c, c', s, Asks(blockno));
    }
  }

  /** A buffer's sleep lock is held exactly when its block is. */
  lemma HolderIsTaken(c: Cache, devOf: nat -> nat, s: nat)
    requires Inv(c, devOf) && InRange(c) && s < |c.sessions| && c.sessions[s].Waiting?
    ensures c.bufs[c.sessions[s].i].holder.Some? <==> Taken(Abs(c), c.bufs[c.sessions[s].i].blockno)
  {
    var i, f := c.sessions[s].i, Abs(c);
    var b := c.bufs[i].blockno;
    assert BufOk(c, devOf, i);
    RefsPositive(c.sessions, s, i);
    if c.bufs[i].holder.Some? {
      assert Has(f.users[c.bufs[i].holder.value], b);
    }
    if Taken(f, b) {
      var u :| 0 <= u < |f.users| && Has(f.users[u], b);
      assert SessionOk(c, u);
      RefsPositive(c.sessions, u, c.sessions[u].i);
      assert BufOk(c, devOf, c.sessions[u].i);
    }
  }

  /** Only the holder of a buffer sees its data. */
  lemma OthersSeeNothing(c: Cache, s: nat, v: nat)
    requires s < |c.sessions| && v < |c.sessions| && s != v && SessionOk(c, s) && SessionOk(c, v) && Holds(c.sessions[s])
    ensures Holds(c.sessions[v]) ==> c.sessions[v].i != c.sessions[s].i
  {
  }

  lemma AcquireRefines(c: Cache, devOf: nat -> nat, s: nat)
    requires Inv(c, devOf) && InRange(c) && Do(c, Acquire(s)).Ok? && InRange(Do(c, Acquire(s)).value)
    ensures Abs(Do(c, Acquire(s)).value) == FlatDo(Abs(c), Acquire(s))
  {
    if s < |c.sessions| && c.sessions[s].Waiting? {
      HolderIsTaken(c, devOf, s);
      hide Inv;
      hide Taken;
      var c' := Do(c, Acquire(s)).value;
      if c.bufs[c.sessions[s].i].holder.None? {
        AbsMoves(c, c', s, Owns(c.bufs[c.sessions[s].i].blockno));
      }
    }
  }

  lemma HeldOther(c: Cache, a: Step, v: nat)
    requires InRange(c) && (a.ReadIn? || a.Modify? || a.Bwrite? || a.Unlock?) && Do(c, a).Ok? && InRange(Do(c, a).value)
    requires a.s < |c.sessions| && v < |c.sessions| && v != a.s && Holds(c.sessions[a.s]) && SessionOk(c, a.s) && SessionOk(c, v)
    ensures var c' := Do(c, a).value;
      |c'.sessions| == |c.sessions| && UserOf(c'.bufs, c'.sessions[v]) == UserOf(c.bufs, c.sessions[v])
  {
    OthersSeeNothing(c, a.s, v);
  }

  lemma HeldRefines(c: Cache, devOf: nat -> nat, a: Step)
    requires Inv(c, devOf) && InRange(c) && (a.ReadIn? || a.Modify? || a.Bwrite? || a.Unlock?)
    requires Do(c, a).Ok? && InRange(Do(c, a).value)
    ensures Abs(Do(c, a).value) == FlatDo(Abs(c), a)
  {
    if a.s < |c.sessions| && Holds(c.sessions[a.s]) {
      var s, c' := a.s, Do(c, a).value;
      assert SessionOk(c, s) && BufOk(c, devOf, c.sessions[s].i);
      forall v | 0 <= v < |c.sessions| && v != s
        ensures UserOf(c'.bufs, c'.sessions[v]) == UserOf(c.bufs, c.sessions[v])
      {
        assert SessionOk(c, v);
        hide *;
        HeldOther(c, a, v);
      }
      hide Inv;
      hide SessionOk;
      AbsMoves(c, c', s, FlatDo(Abs(c), a).users[s]);
    }
  }

  lemma DropRefines(c: Cache, devOf: nat -> nat, s: nat)
    requires Inv(c, devOf) && InRange(c) && Do(c, Drop(s)).Ok? && InRange(Do(c, Drop(s)).value)
    ensures Abs(Do(c, Drop(s)).value) == FlatDo(Abs(c), Drop(s))
  {
    hide Inv;
    hide Without;
    if s < |c.sessions| && c.sessions[s].Leaving? {
      AbsMoves(c, Do(c, Drop(s)).value, s, Away);
    }
  }

  lemma DoRefines(c: Cache, devOf: nat -> nat, a: Step)
    requires Inv(c, devOf) && UsesDev(a, devOf) && InRange(c) && Do(c, a).Ok?
    ensures Inv(Do(c, a).value, devOf) && InRange(Do(c, a).value) && Abs(Do(c, a).value) == FlatDo(Abs(c), a)
  {
    DoKeeps(c, devOf, a);
    InvInRange(Do(c, a).value, devOf);
    hide Inv;
    hide InRange;
    hide Do;
    hide FlatDo;
    hide Abs;
    match a
    case Get(s, dev, blockno) => GetRefines(c, devOf, s, dev, blockno);
    case Acquire(s) => AcquireRefines(c, devOf, s);
    case Drop(s) => DropRefines(c, devOf, s);
    case _ => HeldRefines(c, devOf, a);
  }

  lemma {:induction false} RunRefines(c: Cache, devOf: nat -> nat, steps: seq<Step>)
    requires Inv(c, devOf) && InRange(c) && (forall k :: 0 <= k < |steps| ==> UsesDev(steps[k], devOf)) && Run(c, steps).Ok?
    ensures InRange(Run(c, steps).value) && Abs(Run(c, steps).value) == FlatRun(Abs(c), steps)
    decreases |steps|
  {
    hide Inv;
    hide InRange;
    hide Abs;
    if steps != [] {
      DoRefines(c, devOf, steps[0]);
      RunRefines(Do(c, steps[0]).value, devOf, steps[1..]);
    }
  }

  /** The cache is a flat array of blocks with one lock per block: whatever was cached, recycled and
      waited for, each session holds the block it asked for and sees, changes and writes what it would
      in that array, and the disk and the writes to it are the array's. */
  lemma CacheIsFlat(c0: Cache, devOf: nat -> nat, steps: seq<Step>)
    requires Init(c0) && (forall k :: 0 <= k < |steps| ==> UsesDev(steps[k], devOf)) && Run(c0, steps).Ok?
    ensures InRange(c0) && InRange(Run(c0, steps).value) && Abs(Run(c0, steps).value) == FlatRun(Abs(c0), steps)
    ensures Abs(c0).disk == c0.disk && Abs(c0).log == [] && forall u :: u in Abs(c0).users ==> u == Away
  {
    InitInv(c0, devOf);
    InvInRange(c0, devOf);
    RunRefines(c0, devOf, steps);
  }

  /** Session s has the buffer of the block it asked for, and, if it has read it and not changed it, sees
      the last write of that block; u says what it asked for. */
  ghost predicate ReaderCurrent(c: Cache, devOf: nat -> nat, disk: map<nat, Block>, s: nat, u: User)
    requires s < |c.sessions|
  {
    && (c.sessions[s].Idle? <==> u.Away?)
    && (!c.sessions[s].Idle? ==>
          && c.sessions[s].i < |c.bufs|
          && var b := c.bufs[c.sessions[s].i];
          && Matches(b, devOf(u.blockno), u.blockno)
          && (c.sessions[s].Using? && !c.sessions[s].dirty ==> b.valid && b.data == LastWrite(disk, c.log, u.blockno)))
  }

  ghost predicate ReadersCurrent(c: Cache, devOf: nat -> nat, disk: map<nat, Block>, f: Flat) {
    && |f.users| == |c.sessions| && f.log == c.log
    && forall s :: 0 <= s < |c.sessions| ==> ReaderCurrent(c, devOf, disk, s, f.users[s])
  }

  ghost predicate UnlockedCurrent(c: Cache) {
    forall i :: 0 <= i < |c.bufs| && c.bufs[i].valid && c.bufs[i].holder.None? ==>
      c.bufs[i].data == DiskAt(c.disk, c.bufs[i].blockno)
  }

  /** Whoever has read a block and not changed it sees the last write of the block it asked for, however
      the sessions interleaved and the buffers were recycled; from its bget on, a session's buffer
      carries the key it asked for; a valid buffer nobody holds equals its disk block. */
  lemma EveryReadSeesLastWrite(c0: Cache, devOf: nat -> nat, steps: seq<Step>)
    requires Init(c0) && (forall k :: 0 <= k < |steps| ==> UsesDev(steps[k], devOf)) && Run(c0, steps).Ok?
    ensures InRange(c0) && ReadersCurrent(Run(c0, steps).value, devOf, c0.disk, FlatRun(Abs(c0), steps))
    ensures UnlockedCurrent(Run(c0, steps).value)
  {
    InitInv(c0, devOf);
    RunKeeps(c0, devOf, steps);
    RunKeepsDisk0(c0, steps);
    CacheIsFlat(c0, devOf, steps);
    hide Run;
    hide FlatRun;
    var c := Run(c0, steps).value;
    var f := Abs(c);
    forall s | 0 <= s < |c.sessions| ensures ReaderCurrent(c, devOf, c0.disk, s, f.users[s]) {
      if !c.sessions[s].Idle? { HasAsked(c, devOf, s); }
    }
    forall i | 0 <= i < |c.bufs| && c.bufs[i].valid && c.bufs[i].holder.None?
      ensures c.bufs[i].data == DiskAt(c.disk, c.bufs[i].blockno)
    {
      assert BufOk(c, devOf, i);
    }
  }

  lemma HasAsked(c: Cache, devOf: nat -> nat, s: nat)
    requires Inv(c, devOf) && s < |c.sessions| && !c.sessions[s].Idle?
    ensures c.sessions[s].i < |c.bufs|
    ensures ReaderCurrent(c, devOf, c.disk0, s, UserOf(c.bufs, c.sessions[s]))
  {
    assert SessionOk(c, s);
    var i := c.sessions[s].i;
    RefsPositive(c.sessions, s, i);
    assert BufOk(c, devOf, i);
    ReplayIsLastWrite(c.disk0, c.log, c.bufs[i].blockno);
  }

  /** In every run: at most one referenced-or-valid buffer per block, exact reference counts, a locked
      buffer is referenced by its holder alone as owner, and the list is a permutation in LRU order. */
  lemma EveryRun(c0: Cache, devOf: nat -> nat, steps: seq<Step>)
    requires Init(c0) && (forall k :: 0 <= k < |steps| ==> UsesDev(steps[k], devOf)) && Run(c0, steps).Ok?
    ensures var c := Run(c0, steps).value;
      && Unique(c.bufs) && ListOk(c.bufs, c.order) && |c.released| == |c.bufs| && LruOrder(c.bufs, c.order, c.released)
      && (forall i :: 0 <= i < |c.bufs| ==>
            c.bufs[i].refc == Refs(c.sessions, i) && (c.bufs[i].holder.Some? ==> c.bufs[i].refc > 0))
      && (forall s, u :: 0 <= s < u < |c.sessions| && Holds(c.sessions[s]) && Holds(c.sessions[u]) ==>
            c.sessions[s].i != c.sessions[u].i)
  {
    InitInv(c0, devOf);
    RunKeeps(c0, devOf, steps);
    var c := Run(c0, steps).value;
    forall i | 0 <= i < |c.bufs|
      ensures c.bufs[i].refc == Refs(c.sessions, i) && (c.bufs[i].holder.Some? ==> c.bufs[i].refc > 0)
    {
      assert BufOk(c, devOf, i);
      if c.bufs[i].holder.Some? { RefsPositive(c.sessions, c.bufs[i].holder.value, i); }
    }
    forall s, u | 0 <= s < u < |c.sessions| && Holds(c.sessions[s]) && Holds(c.sessions[u])
      ensures c.sessions[s].i != c.sessions[u].i
    {
      assert SessionOk(c, s) && SessionOk(c, u);
    }
  }

  /** The only panic is a miss while every buffer is referenced. */
  lemma PanicMeansExhausted(c0: Cache, devOf: nat -> nat, steps: seq<Step>, a: Step)
    requires Init(c0) && (forall k :: 0 <= k < |steps| ==> UsesDev(steps[k], devOf)) && Run(c0, steps).Ok?
    requires UsesDev(a, devOf)
    ensures var c := Run(c0, steps).value;
      InRange(c) && (Do(c, a).Panic? ==> a.Get? && forall j :: 0 <= j < |c.bufs| ==> c.bufs[j].refc > 0)
  {
    InitInv(c0, devOf);
    RunKeeps(c0, devOf, steps);
    DoKeeps(Run(c0, steps).value, devOf, a);
  }

  lemma {:induction false} RunKeepsDisk0(c: Cache, steps: seq<Step>)
    ensures Run(c, steps).Ok? ==> Run(c, steps).value.disk0 == c.disk0
    decreases |steps|
  {
    if steps != [] && InRange(c) && Do(c, steps[0]).Ok? {
      RunKeepsDisk0(Do(c, steps[0]).value, steps[1..]);
    }
  }

  // ---------------------------------------------------------------- two devices

  lemma RunOne(c: Cache, a: Step, rest: seq<Step>)
    requires InRange(c) && Do(c, a).Ok?
    ensures Run(c, [a] + rest) == Run(Do(c, a).value, rest)
  {
    assert ([a] + rest)[1..] == rest;
  }

  /** One session reads a block through some device; everything else is left alone. */
  lemma ReadThrough(c: Cache, s: nat, dev: nat, blockno: nat, rest: seq<Step>) returns (c': Cache, i: nat)
    requires InRange(c) && ListOk(c.bufs, c.order) && s < |c.sessions| && c.sessions[s].Idle?
    requires forall j :: 0 <= j < |c.bufs| && c.bufs[j].refc == 0 ==> !c.bufs[j].valid && c.bufs[j].holder.None?
    requires forall j :: 0 <= j < |c.bufs| && c.bufs[j].refc > 0 ==> !Matches(c.bufs[j], dev, blockno)
    requires exists j :: 0 <= j < |c.bufs| && c.bufs[j].refc == 0
    ensures Run(c, [Get(s, dev, blockno), Acquire(s), ReadIn(s)] + rest) == Run(c', rest)
    ensures i < |c.bufs| && c.bufs[i].refc == 0
    ensures c' == c.(sessions := c.sessions[s := Using(i, false)],
                     bufs := c.bufs[i := Buf(dev, blockno, 1, true, DiskAt(c.disk, blockno), Some(s))])
    ensures InRange(c')
  {
    i := GetUnused(c, s, dev, blockno);
    hide Run;
    hide Bget;
    hide ListOk;
    var c1 := Do(c, Get(s, dev, blockno)).value;
    var c2 := Do(c1, Acquire(s)).value;
    c' := Do(c2, ReadIn(s)).value;
    RunThree(c, c1, c2, c', Get(s, dev, blockno), Acquire(s), ReadIn(s), rest);
  }

  lemma GetUnused(c: Cache, s: nat, dev: nat, blockno: nat) returns (i: nat)
    requires InRange(c) && ListOk(c.bufs, c.order) && s < |c.sessions| && c.sessions[s].Idle?
    requires forall j :: 0 <= j < |c.bufs| && c.bufs[j].refc == 0 ==> !c.bufs[j].valid && c.bufs[j].holder.None?
    requires forall j :: 0 <= j < |c.bufs| && c.bufs[j].refc > 0 ==> !Matches(c.bufs[j], dev, blockno)
    requires exists j :: 0 <= j < |c.bufs| && c.bufs[j].refc == 0
    ensures i < |c.bufs| && c.bufs[i].refc == 0
    ensures Do(c, Get(s, dev, blockno))
         == Ok(c.(bufs := c.bufs[i := Buf(dev, blockno, 1, false, c.bufs[i].data, None)], sessions := c.sessions[s := Waiting(i)]))
  {
    BgetChooses(c.bufs, c.order, dev, blockno);
    i := Bget(c.bufs, c.order, dev, blockno).value.1;
    hide Bget;
    hide ListOk;
  }

  lemma RunThree(c: Cache, c1: Cache, c2: Cache, c3: Cache, a1: Step, a2: Step, a3: Step, rest: seq<Step>)
    requires InRange(c) && Do(c, a1) == Ok(c1) && InRange(c1) && Do(c1, a2) == Ok(c2) && InRange(c2) && Do(c2, a3) == Ok(c3)
    ensures Run(c, [a1, a2, a3] + rest) == Run(c3, rest)
  {
    hide Do;
    RunOne(c, a1, [a2, a3] + rest);
    RunOne(c1, a2, [a3] + rest);
    RunOne(c2, a3, rest);
    hide Run;
    assert [a1, a2, a3] + rest == [a1] + ([a2, a3] + rest);
    assert [a2, a3] + rest == [a2] + ([a3] + rest);
  }

  /** The driver never looks at the device number, so two devices are two cached copies of one disk
      block: whenever a block is read through two of them, some run returns stale data. */
  lemma TwoDevicesDiverge(c0: Cache, d: nat, e: nat, blockno: nat, data: Block) returns (steps: seq<Step>)
    requires Init(c0) && |c0.bufs| >= 2 && |c0.sessions| >= 2 && d != e && data != DiskAt(c0.disk, blockno)
    ensures Run(c0, steps).Ok?
    ensures var c := Run(c0, steps).value;
      && |c.sessions| >= 2 && c.sessions[1].Using? && !c.sessions[1].dirty && c.sessions[1].i < |c.bufs|
      && var b := c.bufs[c.sessions[1].i]; b.blockno == blockno && b.data != LastWrite(c0.disk, c.log, blockno)
  {
    var tail := [Modify(0, data), Bwrite(0)];
    var mid := [Get(1, e, blockno), Acquire(1), ReadIn(1)] + tail;
    steps := [Get(0, d, blockno), Acquire(0), ReadIn(0)] + mid;
    assert c0.bufs[0].refc == 0;
    hide Run;
    hide Do;
    hide DiskAt;
    hide LastWrite;
    var c1, i := ReadThrough(c0, 0, d, blockno, mid);
    assert c1.bufs[if i == 0 then 1 else 0].refc == 0;
    SecondRead(c0, c1, i, d, e, blockno, data);
  }

  lemma SecondRead(c0: Cache, c1: Cache, i: nat, d: nat, e: nat, blockno: nat, data: Block)
    requires InRange(c1) && ListOk(c1.bufs, c1.order) && |c1.sessions| >= 2 && c1.sessions[1].Idle? && d != e && i < |c1.bufs|
    requires c1.sessions[0] == Using(i, false) && c1.bufs[i] == Buf(d, blockno, 1, true, DiskAt(c0.disk, blockno), Some(0))
    requires c1.disk == c0.disk && data != DiskAt(c0.disk, blockno)
    requires forall j :: 0 <= j < |c1.bufs| && j != i ==> c1.bufs[j].refc == 0 && !c1.bufs[j].valid && c1.bufs[j].holder.None?
    requires exists j :: 0 <= j < |c1.bufs| && c1.bufs[j].refc == 0
    ensures var r := Run(c1, [Get(1, e, blockno), Acquire(1), ReadIn(1)] + [Modify(0, data), Bwrite(0)]);
      r.Ok? && var c := r.value;
      && |c.sessions| >= 2 && c.sessions[1].Using? && !c.sessions[1].dirty && c.sessions[1].i < |c.bufs|
      && var b := c.bufs[c.sessions[1].i]; b.blockno == blockno && b.data != LastWrite(c0.disk, c.log, blockno)
  {
    hide Run;
    hide Do;
    hide DiskAt;
    hide LastWrite;
    var c2, j := ReadThrough(c1, 1, e, blockno, [Modify(0, data), Bwrite(0)]);
    hide ListOk;
    var c3 := StoreThrough(c2, 0, i, data);
    LastIsLast(c0.disk, c2.log, blockno, data);
  }

  lemma LastIsLast(disk: map<nat, Block>, log: seq<Write>, blockno: nat, data: Block)
    ensures LastWrite(disk, log + [Write(blockno, data)], blockno) == data
  {
  }

  lemma StoreThrough(c: Cache, s: nat, i: nat, data: Block) returns (c': Cache)
    requires InRange(c) && s < |c.sessions| && i < |c.bufs| && c.sessions[s] == Using(i, false)
    ensures Run(c, [Modify(s, data), Bwrite(s)]) == Ok(c')
    ensures c'.sessions == c.sessions && c'.bufs == c.bufs[i := c.bufs[i].(data := data)]
    ensures c'.log == c.log + [Write(c.bufs[i].blockno, data)]
  {
    var c1 := Do(c, Modify(s, data)).value;
    c' := Do(c1, Bwrite(s)).value;
    RunOne(c, Modify(s, data), [Bwrite(s)]);
    RunOne(c1, Bwrite(s), []);
    assert [Modify(s, data), Bwrite(s)] == [Modify(s, data)] + [Bwrite(s)] && [Bwrite(s)] == [Bwrite(s)] + [];
  }
}
