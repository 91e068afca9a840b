/** Pipes (kernel/fs/pipe.c): a 64-byte ring with free-running u32 counters, its chunked copy loops,
    and any number of blocking readers and writers. */
module Pipe {
  import opened Base

  const SIZE := 64

  datatype Ring = Ring(buf: seq<bv8>, nread: nat, nwrite: nat)

  // ---------------------------------------------------------------- the ring

  function ReadableSize(r: Ring): nat {
    (r.nwrite - r.nread) % U32
  }

  ghost predicate ValidRing(r: Ring) {
    |r.buf| == SIZE && r.nread < U32 && r.nwrite < U32 && ReadableSize(r) <= SIZE
  }

  /** The bytes in the pipe, oldest first. */
  function Contents(r: Ring): seq<bv8>
    requires |r.buf| == SIZE
  {
    seq(ReadableSize(r), i => r.buf[(r.nread + i) % SIZE])
  }

  /** One turn of the write loop: d goes to consecutive places. */
  function PutChunk(r: Ring, d: seq<bv8>): Ring
    requires |r.buf| == SIZE && r.nwrite % SIZE + |d| <= SIZE
  {
    var start := r.nwrite % SIZE;
    Ring(r.buf[..start] + d + r.buf[start + |d|..], r.nread, (r.nwrite + |d|) % U32)
  }

  /** One turn of the read loop. */
  function GetChunk(r: Ring, n: nat): (seq<bv8>, Ring)
    requires |r.buf| == SIZE && r.nread % SIZE + n <= SIZE
  {
    var start := r.nread % SIZE;
    (r.buf[start..start + n], r.(nread := (r.nread + n) % U32))
  }

  /** Both counters run through the same residues: the slot of offset i from a counter. */
  lemma SlotOf(base: nat, n: nat, end: nat, i: nat)
    requires base < U32 && end < U32 && (end - base) % U32 == n
    ensures (base + n) % U32 == end
    ensures (end + i) % SIZE == (base + n + i) % SIZE
  {
    assert end == base + n || end == base + n - U32;
    assert U32 == SIZE * 0x400_0000;
    if end == base + n - U32 { Shift64(end + i, 0x400_0000); }
  }

  lemma Shift64(a: int, k: int)
    ensures (a + SIZE * k) % SIZE == a % SIZE
  {
  }

  /** Fewer than 64 apart, two offsets share a slot only if equal. */
  lemma SlotsDiffer(a: nat, b: nat)
    requires a < b < a + SIZE
    ensures a % SIZE != b % SIZE
  {
  }

  lemma WithinChunk(a: nat, j: nat)
    requires a % SIZE + j < SIZE
    ensures (a + j) % SIZE == a % SIZE + j
  {
  }

  /** A chunk that fits overwrites no byte still to be read. */
  lemma UnreadKept(r: Ring, d: seq<bv8>, i: nat)
    requires ValidRing(r) && |d| <= SIZE - ReadableSize(r) && r.nwrite % SIZE + |d| <= SIZE && i < ReadableSize(r)
    ensures PutChunk(r, d).buf[(r.nread + i) % SIZE] == r.buf[(r.nread + i) % SIZE]
  {
    var n, start, k := ReadableSize(r), r.nwrite % SIZE, (r.nread + i) % SIZE;
    if start <= k < start + |d| {
      SlotOf(r.nread, n, r.nwrite, k - start);
      SlotsDiffer(r.nread + i, r.nread + n + (k - start));
      WithinChunk(r.nwrite, k - start);
      assert false;
    }
  }

  lemma NewByte(r: Ring, d: seq<bv8>, j: nat)
    requires ValidRing(r) && r.nwrite % SIZE + |d| <= SIZE && j < |d|
    ensures PutChunk(r, d).buf[(r.nread + ReadableSize(r) + j) % SIZE] == d[j]
  {
    SlotOf(r.nread, ReadableSize(r), r.nwrite, j);
    WithinChunk(r.nwrite, j);
  }

  lemma PutChunkAppends(r: Ring, d: seq<bv8>)
    requires ValidRing(r) && |d| <= SIZE - ReadableSize(r) && r.nwrite % SIZE + |d| <= SIZE
    ensures ValidRing(PutChunk(r, d)) && Contents(PutChunk(r, d)) == Contents(r) + d
  {
    var q, n := PutChunk(r, d), ReadableSize(r);
    SizeGrows(r.nread, n, r.nwrite, |d|);
    assert ReadableSize(q) == n + |d|;
    forall i | 0 <= i < n + |d| ensures Contents(q)[i] == (Contents(r) + d)[i] {
      if i < n { UnreadKept(r, d, i); } else { NewByte(r, d, i - n); }
    }
  }

  lemma SizeGrows(base: nat, n: nat, end: nat, k: nat)
    requires base < U32 && end < U32 && (end - base) % U32 == n && n + k <= SIZE
    ensures ((end + k) % U32 - base) % U32 == n + k
  {
  }

  lemma SizeShrinks(base: nat, n: nat, end: nat, k: nat)
    requires base < U32 && end < U32 && (end - base) % U32 == n && k <= n <= SIZE
    ensures (end - (base + k) % U32) % U32 == n - k
  {
  }

  lemma GetChunkTakes(r: Ring, n: nat)
    requires ValidRing(r) && n <= ReadableSize(r) && r.nread % SIZE + n <= SIZE
    ensures var g := GetChunk(r, n);
      ValidRing(g.1) && g.0 == Contents(r)[..n] && Contents(g.1) == Contents(r)[n..]
  {
    var g := GetChunk(r, n);
    SizeShrinks(r.nread, ReadableSize(r), r.nwrite, n);
    assert ReadableSize(g.1) == ReadableSize(r) - n;
    forall i | 0 <= i < n ensures g.0[i] == Contents(r)[i] { ChunkByte(r, n, i); }
    forall i | 0 <= i < ReadableSize(r) - n ensures Contents(g.1)[i] == Contents(r)[n + i] { RestByte(r, n, i); }
    hide GetChunk;
    assert Contents(g.1) == Contents(r)[n..] by { hide ReadableSize; }
  }

  lemma ChunkByte(r: Ring, n: nat, i: nat)
    requires |r.buf| == SIZE && i < n <= ReadableSize(r) && r.nread % SIZE + n <= SIZE
    ensures GetChunk(r, n).0[i] == Contents(r)[i]
  {
    WithinChunk(r.nread, i);
  }

  lemma RestByte(r: Ring, n: nat, i: nat)
    requires ValidRing(r) && n + i < ReadableSize(r) && r.nread % SIZE + n <= SIZE
    requires ReadableSize(GetChunk(r, n).1) == ReadableSize(r) - n
    ensures Contents(GetChunk(r, n).1)[i] == Contents(r)[n + i]
  {
    Advanced(r.nread, n, i);
  }

  lemma Advanced(base: nat, n: nat, i: nat)
    requires base < U32 && n <= SIZE
    ensures ((base + n) % U32 + i) % SIZE == (base + n + i) % SIZE
  {
    assert ((base + n) % U32 - base) % U32 == n;
    SlotOf(base, n, (base + n) % U32, i);
  }

  // ---------------------------------------------------------------- the copy loops

  /** The write loop until the data or the room is used up. */
  function Put(r: Ring, data: seq<bv8>): Ring
    requires |r.buf| == SIZE && ReadableSize(r) <= SIZE
    decreases |data|
  {
    var count := Min(Min(|data|, SIZE - ReadableSize(r)), SIZE - r.nwrite % SIZE);
    if count <= 0 then r
    else
      var q := PutChunk(r, data[..count]);
      if ReadableSize(q) > SIZE then q else Put(q, data[count..])
  }

  /** The read loop for n bytes. */
  function Get(r: Ring, n: nat): (seq<bv8>, Ring)
    requires |r.buf| == SIZE
    decreases n
  {
    if n == 0 then ([], r)
    else
      var count := Min(n, SIZE - r.nread % SIZE);
      var g := GetChunk(r, count);
      var rest := Get(g.1, n - count);
      (g.0 + rest.0, rest.1)
  }

  lemma GetStep(r: Ring, n: nat)
    requires ValidRing(r) && 0 < n <= ReadableSize(r)
    ensures var count := Min(n, SIZE - r.nread % SIZE);
      && 0 < count <= n
      && var g := GetChunk(r, count);
      && ValidRing(g.1) && ReadableSize(g.1) == ReadableSize(r) - count
      && g.0 == Contents(r)[..count] && Contents(g.1) == Contents(r)[count..]
      && Get(r, n) == (g.0 + Get(g.1, n - count).0, Get(g.1, n - count).1)
  {
    var count := Min(n, SIZE - r.nread % SIZE);
    GetChunkTakes(r, count);
    hide Get;
    hide GetChunk;
    assert |Contents(GetChunk(r, count).1)| == |Contents(r)| - count;
  }

  lemma GetZero(r: Ring)
    requires |r.buf| == SIZE
    ensures Get(r, 0) == ([], r)
  {
  }

  lemma {:induction false} GetTakes(r: Ring, n: nat)
    requires ValidRing(r) && n <= ReadableSize(r)
    ensures ValidRing(Get(r, n).1)
    ensures Get(r, n).0 == Contents(r)[..n] && Contents(Get(r, n).1) == Contents(r)[n..]
    decreases n
  {
    ContentsLength(r);
    if n == 0 {
      GetZero(r);
      hide *;
      assert Contents(r)[0..] == Contents(r);
    } else {
      GetStep(r, n);
      hide *;
      var count := Min(n, SIZE - r.nread % SIZE);
      var g := GetChunk(r, count);
      GetTakes(g.1, n - count);
      TakeTwice(Contents(r), count, n);
    }
  }

  lemma TakeTwice(c: seq<bv8>, count: nat, n: nat)
    requires count <= n <= |c|
    ensures c[..n] == c[..count] + c[count..][..n - count] && c[n..] == c[count..][n - count..]
  {
  }

  lemma SlicesWrap(a: nat, n: nat)
    ensures (a % U32 + n) % U32 == (a + n) % U32
  {
  }

  /** One turn of the write loop. */
  lemma PutStep(r: Ring, data: seq<bv8>)
    requires ValidRing(r) && |data| > 0 && ReadableSize(r) < SIZE
    ensures var count := Min(Min(|data|, SIZE - ReadableSize(r)), SIZE - r.nwrite % SIZE);
      && 0 < count <= |data| && ReadableSize(r) + count <= SIZE && r.nwrite % SIZE + count <= SIZE
      && var q := PutChunk(r, data[..count]);
      && ValidRing(q) && ReadableSize(q) == ReadableSize(r) + count && Put(r, data) == Put(q, data[count..])
      && q.nread == r.nread && q.nwrite == (r.nwrite + count) % U32
  {
    var count := Min(Min(|data|, SIZE - ReadableSize(r)), SIZE - r.nwrite % SIZE);
    PutChunkAppends(r, data[..count]);
    assert |Contents(PutChunk(r, data[..count]))| == |Contents(r)| + count;
  }

  lemma PutDone(r: Ring, data: seq<bv8>)
    requires |r.buf| == SIZE && ReadableSize(r) <= SIZE && (data == [] || ReadableSize(r) == SIZE)
    ensures Put(r, data) == r
  {
  }

  lemma ContentsLength(r: Ring)
    requires |r.buf| == SIZE
    ensures |Contents(r)| == ReadableSize(r)
  {
  }

  /** The chunks together append as much of the data as there is room for. */
  lemma {:induction false} PutAppends(r: Ring, data: seq<bv8>)
    requires ValidRing(r)
    ensures ValidRing(Put(r, data))
    ensures Contents(Put(r, data)) == Contents(r) + data[..Min(|data|, SIZE - |Contents(r)|)]
    decreases |data|
  {
    ContentsLength(r);
    if |data| == 0 || ReadableSize(r) == SIZE {
      PutDone(r, data);
      assert data[..0] == [];
    } else {
      PutStep(r, data);
      var count := Min(Min(|data|, SIZE - ReadableSize(r)), SIZE - r.nwrite % SIZE);
      PutChunkAppends(r, data[..count]);
      var q := PutChunk(r, data[..count]);
      hide PutChunk;
      hide Put;
      hide Contents;
      hide ReadableSize;
      hide ValidRing;
      PutAppends(q, data[count..]);
      AppendTwice(Contents(r), data, count, Min(|data|, SIZE - |Contents(r)|));
    }
  }

  lemma AppendTwice(c: seq<bv8>, data: seq<bv8>, count: nat, m: nat)
    requires count <= m <= |data|
    ensures c + data[..count] + data[count..][..m - count] == c + data[..m]
  {
    assert data[..count] + data[count..][..m - count] == data[..m];
  }

  lemma {:induction false} PutCounters(r: Ring, data: seq<bv8>)
    requires ValidRing(r)
    ensures Put(r, data).nread == r.nread && Put(r, data).nwrite == (r.nwrite + Min(|data|, SIZE - ReadableSize(r))) % U32
    decreases |data|
  {
    if |data| == 0 || ReadableSize(r) == SIZE {
      PutDone(r, data);
      hide Put;
      hide ReadableSize;
    } else {
      PutStep(r, data);
      hide *;
      var count := Min(Min(|data|, SIZE - ReadableSize(r)), SIZE - r.nwrite % SIZE);
      var q := PutChunk(r, data[..count]);
      MinLess(|data|, SIZE - ReadableSize(r), count);
      PutCounters(q, data[count..]);
      SlicesWrap(r.nwrite + count, Min(|data| - count, SIZE - ReadableSize(q)));
    }
  }

  lemma MinLess(a: nat, b: nat, c: nat)
    requires c <= a && c <= b
    ensures 0 <= Min(a - c, b - c) == Min(a, b) - c
  {
  }

  lemma {:induction false} GetCounters(r: Ring, n: nat)
    requires |r.buf| == SIZE && r.nread < U32
    ensures Get(r, n).1 == r.(nread := (r.nread + n) % U32) && |Get(r, n).0| == n
    decreases n
  {
    if n > 0 {
      var count := Min(n, SIZE - r.nread % SIZE);
      GetCounters(GetChunk(r, count).1, n - count);
      SlicesWrap(r.nread + count, n - count);
    }
  }

  // ---------------------------------------------------------------- the loops in place

  class Buffer {
    var buf: array<bv8>
    var nread: nat
    var nwrite: nat

    ghost function Model(): Ring
      reads this, buf
    {
      Ring(buf[..], nread, nwrite)
    }

    ghost predicate Valid()
      reads this, buf
    {
      ValidRing(Model())
    }

    /** piperead past its wait: copies out min(len, readable) bytes, at most two runs of places. */
    method Read(len: nat) returns (out: seq<bv8>)
      requires Valid()
      modifies this`nread
      ensures Valid()
      ensures (out, Model()) == Get(old(Model()), Min(len, ReadableSize(old(Model()))))
      ensures |out| == Min(len, |Contents(old(Model()))|)
      ensures out == Contents(old(Model()))[..|out|] && Contents(Model()) == Contents(old(Model()))[|out|..]
    {
      ghost var r0 := Model();
      var bytes: nat := Min(len, (nwrite - nread) % U32);
      ghost var n := bytes;
      GetTakes(r0, n);
      GetCounters(r0, n);
      assert buf.Length == SIZE && |Contents(r0)| == ReadableSize(r0) && n == Min(len, ReadableSize(r0));
      var start := nread % SIZE;
      out := [];
      GotNothing(Get(r0, n));
      hide *;
      while bytes > 0
        invariant start == nread % SIZE && buf.Length == SIZE && nread < U32 && |out| + bytes == n
        invariant |Model().buf| == SIZE && Got(out, Get(Model(), bytes)) == Get(r0, n)
      {
        var d;
        d, start := ReadChunk(bytes, start);
        GotTwice(out, d, Get(Model(), bytes - |d|));
        out := out + d;
        bytes := bytes - |d|;
      }
      GetNothing(Model(), out);
    }

    /** One turn of the read loop. */
    method ReadChunk(bytes: nat, start: nat) returns (d: seq<bv8>, next: nat)
      requires buf.Length == SIZE && nread < U32 && start == nread % SIZE && 0 < bytes
      modifies this`nread
      ensures nread < U32 && next == nread % SIZE && 0 < |d| <= bytes && |Model().buf| == |old(Model()).buf| == SIZE
      ensures Got(d, Get(Model(), bytes - |d|)) == Get(old(Model()), bytes)
    {
      ghost var r := Model();
      var count := Min(bytes, SIZE - start);
      d := buf[start..start + count];
      NextStart(nread, count);
      nread := (nread + count) % U32;
      next := (start + count) % SIZE;
      assert GetChunk(r, count) == (d, Model());
    }

    /** The inner part of pipewrite: copies in until the data or the room is used up. */
    method Write(data: seq<bv8>) returns (n: nat)
      requires Valid()
      modifies this`nwrite, buf
      ensures Valid() && buf == old(buf)
      ensures Model() == Put(old(Model()), data) && n == Min(|data|, SIZE - |Contents(old(Model()))|)
      ensures Contents(Model()) == Contents(old(Model())) + data[..n]
    {
      PutAppends(Model(), data);
      ContentsLength(Model());
      assert data[0..] == data;
      n := WriteLoop(data);
    }

    method WriteLoop(data: seq<bv8>) returns (n: nat)
      requires Valid()
      modifies this`nwrite, buf
      ensures Valid() && buf == old(buf) && Model() == Put(old(Model()), data[0..])
      ensures n == Min(|data|, SIZE - ReadableSize(old(Model())))
    {
      n := 0;
      ghost var r0, r := Model(), Model();
      hide *;
      var writable := WritableSize();
      GoingStarts(r0, data, writable);
      while n < |data| && writable > 0
        invariant n <= |data| && Valid() && r == Model() && Going(r0, r, data, n, writable)
        decreases |data| - n
      {
        GoingIs(r0, r, data, n, writable);
        var count, left := WriteChunk(data, n, writable);
        GoingStep(r0, r, Model(), data, n, count, writable);
        r := Model();
        n, writable := n + count, left;
      }
      GoingEnds(r0, r, data, n, writable);
    }

    /** pipe_writable_size. */
    method WritableSize() returns (w: nat)
      requires Valid()
      ensures w == SIZE - ReadableSize(Model()) && buf.Length == |Model().buf| == SIZE
    {
      w := SIZE - (nwrite - nread) % U32;
    }

    /** One turn of the write loop. */
    method WriteChunk(data: seq<bv8>, n: nat, writable: nat) returns (count: nat, left: nat)
      requires Valid() && n < |data| && 0 < writable == SIZE - ReadableSize(Model())
      modifies this`nwrite, buf
      ensures Valid() && buf == old(buf) && |Model().buf| == SIZE && 0 < count && n + count <= |data|
      ensures left == writable - count && left == SIZE - ReadableSize(Model())
      ensures Put(Model(), data[n + count..]) == Put(old(Model()), data[n..])
    {
      ghost var r := Model();
      PutStep(r, data[n..]);
      assert buf.Length == SIZE;
      hide Put;
      hide Contents;
      count := Store(data, n, writable);
      SubData(data, n, count);
      hide *;
      left := WritableSize();
    }

    /** The stores of one turn. */
    method Store(data: seq<bv8>, n: nat, writable: nat) returns (count: nat)
      requires buf.Length == SIZE && n < |data| && 0 < writable
      modifies this`nwrite, buf
      ensures buf == old(buf) && count == Min(Min(|data| - n, writable), SIZE - old(nwrite) % SIZE)
      ensures Model() == PutChunk(old(Model()), data[n..n + count])
    {
      var start := nwrite % SIZE;
      count := Min(Min(|data| - n, writable), SIZE - start);
      CopyIn(start, data[n..n + count]);
      nwrite := (nwrite + count) % U32;
    }

    /** copy_from_user to consecutive places of the buffer. */
    method CopyIn(start: nat, d: seq<bv8>)
      requires start + |d| <= buf.Length
      modifies buf
      ensures buf[..] == old(buf[..start]) + d + old(buf[start + |d|..])
    {
      var i := 0;
      while i < |d|
        invariant i <= |d|
        invariant buf[..] == old(buf[..start]) + d[..i] + old(buf[start + i..])
      {
        buf[start + i] := d[i];
        i := i + 1;
      }
    }
  }

  function Got(out: seq<bv8>, g: (seq<bv8>, Ring)): (seq<bv8>, Ring) {
    (out + g.0, g.1)
  }

  lemma GotNothing(g: (seq<bv8>, Ring))
    ensures Got([], g) == g
  {
    assert [] + g.0 == g.0;
  }

  lemma GotTwice(out: seq<bv8>, d: seq<bv8>, g: (seq<bv8>, Ring))
    ensures Got(out, Got(d, g)) == Got(out + d, g)
  {
    assert out + (d + g.0) == (out + d) + g.0;
  }

  lemma GetNothing(r: Ring, out: seq<bv8>)
    requires |r.buf| == SIZE
    ensures Got(out, Get(r, 0)) == (out, r)
  {
    assert out + [] == out;
  }

  lemma SubData(data: seq<bv8>, n: nat, count: nat)
    requires n + count <= |data|
    ensures data[n..][..count] == data[n..n + count] && data[n..][count..] == data[n + count..]
  {
  }

  /** The write loop between turns: n bytes of data are in, and there is room for `writable` more. */
  ghost predicate Going(r0: Ring, r: Ring, data: seq<bv8>, n: nat, writable: nat) {
    && |r0.buf| == |r.buf| == SIZE && n <= |data| && writable == SIZE - ReadableSize(r) && n + writable == SIZE - ReadableSize(r0)
    && Put(r, data[n..]) == Put(r0, data[0..])
  }

  lemma GoingStarts(r: Ring, data: seq<bv8>, writable: nat)
    requires |r.buf| == SIZE && writable == SIZE - ReadableSize(r)
    ensures Going(r, r, data, 0, writable)
  {
  }

  lemma GoingIs(r0: Ring, r: Ring, data: seq<bv8>, n: nat, writable: nat)
    requires Going(r0, r, data, n, writable)
    ensures |r.buf| == SIZE && writable == SIZE - ReadableSize(r)
  {
  }

  lemma GoingStep(r0: Ring, r: Ring, r': Ring, data: seq<bv8>, n: nat, count: nat, writable: nat)
    requires Going(r0, r, data, n, writable) && n + count <= |data| && count <= writable
    requires |r'.buf| == SIZE && writable - count == SIZE - ReadableSize(r') && Put(r', data[n + count..]) == Put(r, data[n..])
    ensures Going(r0, r', data, n + count, writable - count)
  {
    hide Put;
    hide ReadableSize;
  }

  lemma GoingEnds(r0: Ring, r: Ring, data: seq<bv8>, n: nat, writable: nat)
    requires Going(r0, r, data, n, writable) && (n == |data| || writable == 0)
    ensures |r0.buf| == SIZE && ReadableSize(r0) <= SIZE
    ensures r == Put(r0, data[0..]) && n == Min(|data|, SIZE - ReadableSize(r0))
  {
    PutDone(r, data[n..]);
    hide Put;
  }

  lemma NextStart(a: nat, k: nat)
    requires a < U32 && k <= SIZE
    ensures (a % SIZE + k) % SIZE == (a + k) % U32 % SIZE
  {
    Advanced(a, k, 0);
  }

  // ---------------------------------------------------------------- readers and writers

  datatype Proc =
    | Idle
    | Reading(len: nat) | ReadAsleep(len: nat)
    | Writing(data: seq<bv8>, done: nat) | WriteAsleep(data: seq<bv8>, done: nat)

  /** history: accepted and delivered bytes in order, with the process each came from or went to, and
      per process the arguments of its write calls, what it has sent and what it got. */
  datatype Sys = Sys(ring: Ring, procs: seq<Proc>, asked: seq<seq<seq<bv8>>>,
                     accepted: seq<bv8>, from: seq<nat>, sent: seq<seq<bv8>>,
                     delivered: seq<bv8>, to: seq<nat>, got: seq<seq<bv8>>)

  datatype Act = StartRead(len: nat) | StartWrite(data: seq<bv8>) | Go

  function WakeReaders(ps: seq<Proc>): seq<Proc> {
    seq(|ps|, i requires 0 <= i < |ps| => if ps[i].ReadAsleep? then Reading(ps[i].len) else ps[i])
  }

  function WakeWriters(ps: seq<Proc>): seq<Proc> {
    seq(|ps|, i requires 0 <= i < |ps| => if ps[i].WriteAsleep? then Writing(ps[i].data, ps[i].done) else ps[i])
  }

  predicate Fits(s: Sys) {
    |s.ring.buf| == SIZE && ReadableSize(s.ring) <= SIZE && |s.sent| == |s.got| == |s.asked| == |s.procs|
  }

  /** piperead from taking the lock to sleeping or to releasing it. */
  function ReadTurn(s: Sys, t: nat): Sys
    requires Fits(s) && t < |s.procs| && s.procs[t].Reading?
  {
    if s.ring.nread == s.ring.nwrite then s.(procs := s.procs[t := ReadAsleep(s.procs[t].len)])
    else
      var n := Min(s.procs[t].len, ReadableSize(s.ring));
      var g := Get(s.ring, n);
      s.(ring := g.1, procs := WakeWriters(s.procs)[t := Idle],
         delivered := s.delivered + g.0, to := s.to + seq(|g.0|, _ => t), got := s.got[t := s.got[t] + g.0])
  }

  /** pipewrite from taking the lock to sleeping on a full pipe or to releasing it. */
  function WriteTurn(s: Sys, t: nat): Sys
    requires Fits(s) && t < |s.procs| && s.procs[t].Writing? && s.procs[t].done <= |s.procs[t].data|
  {
    var data, done := s.procs[t].data, s.procs[t].done;
    var n: nat := Min(|data| - done, SIZE - ReadableSize(s.ring));
    var d := data[done..done + n];
    s.(ring := Put(s.ring, data[done..]),
       procs := WakeReaders(s.procs)[t := if done + n == |data| then Idle else WriteAsleep(data, done + n)],
       accepted := s.accepted + d, from := s.from + seq(|d|, _ => t), sent := s.sent[t := s.sent[t] + d])
  }

  /** The next turn of process t; sleepers do not move until woken. */
  function Do(s: Sys, t: nat, a: Act): Sys
    requires Fits(s) && t < |s.procs| && (s.procs[t].Writing? ==> s.procs[t].done <= |s.procs[t].data|)
  {
    match s.procs[t]
    case Idle =>
      (match a
       case StartRead(len) => s.(procs := s.procs[t := Reading(len)])
       case StartWrite(data) => s.(procs := s.procs[t := Writing(data, 0)], asked := s.asked[t := s.asked[t] + [data]])
       case Go => s)
    case Reading(_) => ReadTurn(s, t)
    case Writing(_, _) => WriteTurn(s, t)
    case ReadAsleep(_) => s
    case WriteAsleep(_, _) => s
  }

  // ---------------------------------------------------------------- invariant

  /** The bytes of a tagged t. */
  function Project(a: seq<bv8>, tags: seq<nat>, t: nat): seq<bv8>
    requires |tags| == |a|
  {
    if a == [] then []
    else
      Project(a[..|a| - 1], tags[..|a| - 1], t) + if tags[|a| - 1] == t then [a[|a| - 1]] else []
  }

  lemma {:induction false} ProjectAppend(a: seq<bv8>, tags: seq<nat>, d: seq<bv8>, u: nat, t: nat)
    requires |tags| == |a|
    ensures Project(a + d, tags + seq(|d|, _ => u), t) == Project(a, tags, t) + if t == u then d else []
  {
    if d == [] {
      assert a + d == a && tags + seq(0, _ => u) == tags;
    } else {
      var e := d[..|d| - 1];
      ProjectAppend(a, tags, e, u, t);
      assert (a + d)[..|a + d| - 1] == a + e;
      assert (tags + seq(|d|, _ => u))[..|a + d| - 1] == tags + seq(|e|, _ => u);
      assert d == e + [d[|d| - 1]];
    }
  }

  ghost predicate ProcOk(s: Sys, t: nat)
    requires Fits(s) && t < |s.procs|
  {
    match s.procs[t]
    case ReadAsleep(_) => Contents(s.ring) == []
    case Writing(data, done) => done <= |data|
    case WriteAsleep(data, done) => done < |data| && |Contents(s.ring)| == SIZE
    case _ => true
  }

  function Joined(ds: seq<seq<bv8>>): seq<bv8> {
    if ds == [] then [] else Joined(ds[..|ds| - 1]) + ds[|ds| - 1]
  }

  /** What a process still has to send. */
  function Rest(p: Proc): seq<bv8> {
    if (p.Writing? || p.WriteAsleep?) && p.done <= |p.data| then p.data[p.done..] else []
  }

  /** What process t sent is what it was asked to, but for the rest of its present call. */
  ghost predicate SentOk(s: Sys, t: nat)
    requires Fits(s) && t < |s.procs|
  {
    Joined(s.asked[t]) == s.sent[t] + Rest(s.procs[t])
  }

  ghost predicate FlowOk(s: Sys) {
    && ValidRing(s.ring)
    && s.accepted == s.delivered + Contents(s.ring)
    && s.ring.nwrite == |s.accepted| % U32 && s.ring.nread == |s.delivered| % U32
  }

  ghost predicate Tagged(s: Sys) {
    |s.from| == |s.accepted| && |s.to| == |s.delivered|
  }

  ghost predicate Inv(s: Sys) {
    && FlowOk(s) && Tagged(s) && Fits(s)
    && (forall t :: 0 <= t < |s.procs| ==> ProcOk(s, t) && SentOk(s, t))
    && (forall t :: 0 <= t < |s.procs| ==>
          Project(s.accepted, s.from, t) == s.sent[t] && Project(s.delivered, s.to, t) == s.got[t])
  }

  lemma ReadTurnFlow(s: Sys, t: nat)
    requires FlowOk(s) && Fits(s) && t < |s.procs| && s.procs[t].Reading? && s.ring.nread != s.ring.nwrite
    ensures var s' := ReadTurn(s, t);
      && FlowOk(s') && Fits(s') && |Get(s.ring, Min(s.procs[t].len, ReadableSize(s.ring))).0| <= |Contents(s.ring)|
  {
    var n := Min(s.procs[t].len, ReadableSize(s.ring));
    GetTakes(s.ring, n);
    GetCounters(s.ring, n);
    SlicesWrap(|s.delivered|, n);
    var s' := ReadTurn(s, t);
    assert s'.delivered + Contents(s'.ring) == s.delivered + Contents(s.ring);
  }

  lemma ReadTurnKeeps(s: Sys, t: nat)
    requires Inv(s) && t < |s.procs| && s.procs[t].Reading?
    ensures Inv(ReadTurn(s, t))
  {
    var s' := ReadTurn(s, t);
    if s.ring.nread != s.ring.nwrite {
      ReadTurnFlow(s, t);
      var g := Get(s.ring, Min(s.procs[t].len, ReadableSize(s.ring)));
      forall u | 0 <= u < |s.procs|
        ensures ProcOk(s', u) && SentOk(s', u)
        ensures Project(s'.delivered, s'.to, u) == s'.got[u] && Project(s'.accepted, s'.from, u) == s'.sent[u]
      {
        assert ProcOk(s, u) && SentOk(s, u);
        ProjectAppend(s.delivered, s.to, g.0, t, u);
      }
    } else {
      forall u | 0 <= u < |s.procs| ensures ProcOk(s', u) && SentOk(s', u) { assert ProcOk(s, u) && SentOk(s, u); }
    }
  }

  lemma WriteTurnFlow(s: Sys, t: nat)
    requires FlowOk(s) && Fits(s) && t < |s.procs| && s.procs[t].Writing? && s.procs[t].done <= |s.procs[t].data|
    ensures var s', data, done := WriteTurn(s, t), s.procs[t].data, s.procs[t].done;
      var n := Min(|data| - done, SIZE - ReadableSize(s.ring));
      FlowOk(s') && Fits(s') && Contents(s'.ring) == Contents(s.ring) + data[done..done + n]
  {
    var data, done := s.procs[t].data, s.procs[t].done;
    var n := Min(|data| - done, SIZE - ReadableSize(s.ring));
    PutAppends(s.ring, data[done..]);
    PutCounters(s.ring, data[done..]);
    ContentsLength(s.ring);
    var s' := WriteTurn(s, t);
    hide Put;
    hide Contents;
    assert data[done..][..n] == data[done..done + n];
    assert s'.accepted == s.delivered + Contents(s'.ring);
    hide ReadableSize;
    SlicesWrap(|s.accepted|, n);
  }

  lemma RestShrinks(sent: seq<bv8>, data: seq<bv8>, done: nat, n: nat)
    requires done + n <= |data|
    ensures sent + data[done..] == sent + data[done..done + n] + data[done + n..]
  {
    assert data[done..] == data[done..done + n] + data[done + n..];
  }

  lemma WriteTurnProc(s: Sys, s': Sys, t: nat, u: nat, n: nat)
    requires Fits(s) && Fits(s') && t < |s.procs| == |s'.procs| && u < |s.procs| && s.procs[t].Writing?
    requires ProcOk(s, t) && ProcOk(s, u) && SentOk(s, u) && s.procs[t].done + n <= |s.procs[t].data|
    requires var data, done := s.procs[t].data, s.procs[t].done;
      && s'.procs == WakeReaders(s.procs)[t := if done + n == |data| then Idle else WriteAsleep(data, done + n)]
      && s'.sent == s.sent[t := s.sent[t] + data[done..done + n]] && s'.asked == s.asked
      && Contents(s'.ring) == Contents(s.ring) + data[done..done + n] && |Contents(s'.ring)| <= SIZE
      && (done + n < |data| ==> |Contents(s'.ring)| == SIZE)
    ensures ProcOk(s', u) && SentOk(s', u)
  {
    hide Contents;
    hide ReadableSize;
    hide Joined;
    RestShrinks(s.sent[t], s.procs[t].data, s.procs[t].done, n);
  }

  lemma WriteTurnEach(s: Sys, t: nat, u: nat)
    requires FlowOk(s) && Tagged(s) && Fits(s) && t < |s.procs| && s.procs[t].Writing? && u < |s.procs|
    requires ProcOk(s, t) && ProcOk(s, u) && SentOk(s, u)
    requires Project(s.accepted, s.from, u) == s.sent[u] && Project(s.delivered, s.to, u) == s.got[u]
    ensures var s' := WriteTurn(s, t);
      && |s'.procs| == |s.procs| && Fits(s') && Tagged(s') && ProcOk(s', u) && SentOk(s', u)
      && Project(s'.accepted, s'.from, u) == s'.sent[u] && Project(s'.delivered, s'.to, u) == s'.got[u]
  {
    WriteTurnFlow(s, t);
    var s', data, done := WriteTurn(s, t), s.procs[t].data, s.procs[t].done;
    var n := Min(|data| - done, SIZE - ReadableSize(s.ring));
    ContentsLength(s.ring);
    ContentsLength(s'.ring);
    hide Put;
    hide Contents;
    hide ReadableSize;
    hide FlowOk;
    hide ProcOk;
    hide SentOk;
    hide Project;
    assert |s'.procs| == |s.procs|;
    hide WakeReaders;
    WriteTurnProc(s, s', t, u, n);
    ProjectAppend(s.accepted, s.from, data[done..done + n], t, u);
  }

  lemma WriteTurnKeeps(s: Sys, t: nat)
    requires Inv(s) && t < |s.procs| && s.procs[t].Writing?
    ensures s.procs[t].done <= |s.procs[t].data| && Inv(WriteTurn(s, t))
  {
    assert ProcOk(s, t);
    WriteTurnFlow(s, t);
    var s' := WriteTurn(s, t);
    WriteTurnEach(s, t, t);
    hide WriteTurn;
    hide FlowOk;
    hide Fits;
    hide Project;
    hide ProcOk;
    hide SentOk;
    forall u | 0 <= u < |s.procs|
      ensures ProcOk(s', u) && SentOk(s', u)
      ensures Project(s'.delivered, s'.to, u) == s'.got[u] && Project(s'.accepted, s'.from, u) == s'.sent[u]
    {
      WriteTurnEach(s, t, u);
    }
  }

  lemma StartKeeps(s: Sys, t: nat, a: Act)
    requires Inv(s) && t < |s.procs| && s.procs[t].Idle?
    ensures Inv(Do(s, t, a))
  {
    var s' := Do(s, t, a);
    forall u | 0 <= u < |s.procs| ensures ProcOk(s', u) && SentOk(s', u) {
      assert ProcOk(s, u) && SentOk(s, u);
      if u == t && a.StartWrite? {
        assert s'.asked[t][..|s.asked[t]|] == s.asked[t];
        assert a.data[0..] == a.data;
      }
    }
  }

  lemma DoKeeps(s: Sys, t: nat, a: Act)
    requires Inv(s) && t < |s.procs|
    ensures s.procs[t].Writing? ==> s.procs[t].done <= |s.procs[t].data|
    ensures Inv(Do(s, t, a))
  {
    match s.procs[t]
    case Idle => StartKeeps(s, t, a);
    case Reading(_) => ReadTurnKeeps(s, t);
    case Writing(_, _) => WriteTurnKeeps(s, t);
    case ReadAsleep(_) =>
    case WriteAsleep(_, _) =>
  }

  // ---------------------------------------------------------------- runs

  ghost predicate Init(s: Sys) {
    && Fits(s) && s.ring.nread == s.ring.nwrite == 0
    && s.accepted == s.delivered == [] && s.from == s.to == []
    && forall t :: 0 <= t < |s.procs| ==> s.procs[t] == Idle && s.sent[t] == s.got[t] == [] && s.asked[t] == []
  }

  ghost function Run(s: Sys, steps: seq<(nat, Act)>): Sys {
    if steps == [] then s
    else
      var r, a := Run(s, steps[..|steps| - 1]), steps[|steps| - 1];
      if a.0 < |r.procs| && Fits(r) && (r.procs[a.0].Writing? ==> r.procs[a.0].done <= |r.procs[a.0].data|)
      then Do(r, a.0, a.1) else r
  }

  lemma {:induction false} RunKeeps(s: Sys, steps: seq<(nat, Act)>)
    requires Init(s)
    ensures Inv(Run(s, steps))
  {
    if steps == [] {
      assert Contents(s.ring) == [];
    } else {
      RunKeeps(s, steps[..|steps| - 1]);
      var r, a := Run(s, steps[..|steps| - 1]), steps[|steps| - 1];
      if a.0 < |r.procs| { DoKeeps(r, a.0, a.1); }
    }
  }

  /** First in, first out: what all readers got, in order, is the front of what was accepted from the
      writers, in order; the rest, at most 64 bytes, is in the ring, however often the counters have
      wrapped.  Each process's own bytes keep their order on both ends, and what it sent is the whole of
      every write call it finished, one after the other, and the front of the one it is in. */
  lemma EveryRun(s0: Sys, steps: seq<(nat, Act)>)
    requires Init(s0)
    ensures var s := Run(s0, steps);
      && |s.ring.buf| == SIZE && s.accepted == s.delivered + Contents(s.ring) && |Contents(s.ring)| <= SIZE
      && |s.from| == |s.accepted| && |s.to| == |s.delivered| && |s.sent| == |s.got| == |s.procs|
      && |s.asked| == |s.procs|
      && forall t :: 0 <= t < |s.procs| ==>
           && Project(s.accepted, s.from, t) == s.sent[t] && Project(s.delivered, s.to, t) == s.got[t]
           && Joined(s.asked[t]) == s.sent[t] + Rest(s.procs[t])
  {
    RunKeeps(s0, steps);
    var s := Run(s0, steps);
    forall t | 0 <= t < |s.procs| ensures Joined(s.asked[t]) == s.sent[t] + Rest(s.procs[t]) { assert SentOk(s, t); }
  }

  /** The arguments of the write calls process t started, as the run was told. */
  ghost function Calls(s: Sys, steps: seq<(nat, Act)>, t: nat): seq<seq<bv8>> {
    if steps == [] then []
    else
      var before, a := steps[..|steps| - 1], steps[|steps| - 1];
      var r := Run(s, before);
      Calls(s, before, t) + if a.0 == t < |r.procs| && r.procs[t].Idle? && a.1.StartWrite? then [a.1.data] else []
  }

  lemma {:induction false} AskedIsCalls(s: Sys, steps: seq<(nat, Act)>, t: nat)
    requires Init(s) && t < |s.procs|
    ensures |Run(s, steps).procs| == |s.procs| == |Run(s, steps).asked| && Run(s, steps).asked[t] == Calls(s, steps, t)
  {
    if steps != [] {
      var before, a := steps[..|steps| - 1], steps[|steps| - 1];
      AskedIsCalls(s, before, t);
      RunKeeps(s, before);
      var r := Run(s, before);
      if a.0 < |r.procs| {
        DoKeeps(r, a.0, a.1);
        AskedStep(r, a.0, a.1, t);
      }
    }
  }

  lemma AskedStep(s: Sys, u: nat, a: Act, t: nat)
    requires Fits(s) && u < |s.procs| && t < |s.procs| && (s.procs[u].Writing? ==> s.procs[u].done <= |s.procs[u].data|)
    ensures |Do(s, u, a).procs| == |s.procs| == |Do(s, u, a).asked|
    ensures Do(s, u, a).asked[t] == s.asked[t] + if u == t && s.procs[t].Idle? && a.StartWrite? then [a.data] else []
  {
    hide Get;
    hide Put;
  }

  /** A process that is not in a write call has sent exactly the arguments of its write calls. */
  lemma FinishedWrites(s0: Sys, steps: seq<(nat, Act)>, t: nat)
    requires Init(s0) && t < |s0.procs|
    requires t < |Run(s0, steps).procs| && !Run(s0, steps).procs[t].Writing? && !Run(s0, steps).procs[t].WriteAsleep?
    ensures var s := Run(s0, steps);
      |s.from| == |s.accepted| && Project(s.accepted, s.from, t) == Joined(Calls(s0, steps, t))
  {
    EveryRun(s0, steps);
    AskedIsCalls(s0, steps, t);
    var s := Run(s0, steps);
    assert s.sent[t] + [] == s.sent[t];
  }

  /** A sleeping reader means the pipe is empty, a sleeping writer means it is full, so the two are
      never asleep together; and a writer asleep still has bytes to send. */
  lemma Sleepers(s0: Sys, steps: seq<(nat, Act)>, t: nat, u: nat)
    requires Init(s0)
    requires var s := Run(s0, steps); t < |s.procs| && u < |s.procs|
    ensures var s := Run(s0, steps); |s.ring.buf| == SIZE
    ensures var s := Run(s0, steps); s.procs[t].ReadAsleep? ==> Contents(s.ring) == []
    ensures var s := Run(s0, steps);
      s.procs[u].WriteAsleep? ==> |Contents(s.ring)| == SIZE && s.procs[u].done < |s.procs[u].data|
    ensures var s := Run(s0, steps); !(s.procs[t].ReadAsleep? && s.procs[u].WriteAsleep?)
  {
    RunKeeps(s0, steps);
    var s := Run(s0, steps);
    assert ProcOk(s, t) && ProcOk(s, u);
  }

  // ---------------------------------------------------------------- a queue of bytes

  /** What a process is doing, by the arguments of its call: bytes it wants, or bytes it has left. */
  datatype User = Rests | Reads(len: nat, asleep: bool) | Writes(left: seq<bv8>, asleep: bool)

  /** A queue of at most 64 bytes; there are no places and no counters here. */
  datatype Queue = Queue(bytes: seq<bv8>, users: seq<User>, got: seq<seq<bv8>>)

  function AwakeReaders(us: seq<User>): (r: seq<User>)
    ensures |r| == |us| && forall u :: 0 <= u < |us| ==> r[u] == if us[u].Reads? then Reads(us[u].len, false) else us[u]
  {
    seq(|us|, u requires 0 <= u < |us| => if us[u].Reads? then Reads(us[u].len, false) else us[u])
  }

  function AwakeWriters(us: seq<User>): (r: seq<User>)
    ensures |r| == |us| && forall u :: 0 <= u < |us| ==> r[u] == if us[u].Writes? then Writes(us[u].left, false) else us[u]
  {
    seq(|us|, u requires 0 <= u < |us| => if us[u].Writes? then Writes(us[u].left, false) else us[u])
  }

  function QueueDo(q: Queue, t: nat, a: Act): Queue
    requires t < |q.users| == |q.got| && |q.bytes| <= 64
  {
    match q.users[t]
    case Rests =>
      (match a
       case StartRead(len) => q.(users := q.users[t := Reads(len, false)])
       case StartWrite(data) => q.(users := q.users[t := Writes(data, false)])
       case Go => q)
    case Reads(len, asleep) =>
      if asleep then q
      else if q.bytes == [] then q.(users := q.users[t := Reads(len, true)])
      else
        var n := if len < |q.bytes| then len else |q.bytes|;
        Queue(q.bytes[n..], AwakeWriters(q.users)[t := Rests], q.got[t := q.got[t] + q.bytes[..n]])
    case Writes(left, asleep) =>
      if asleep then q
      else
        var n := if |left| < 64 - |q.bytes| then |left| else 64 - |q.bytes|;
        var next := if n == |left| then Rests else Writes(left[n..], true);
        Queue(q.bytes + left[..n], AwakeReaders(q.users)[t := next], q.got)
  }

  function QueueRun(q: Queue, steps: seq<(nat, Act)>): Queue {
    if steps == [] then q
    else
      var r, a := QueueRun(q, steps[..|steps| - 1]), steps[|steps| - 1];
      if a.0 < |r.users| == |r.got| && |r.bytes| <= 64 then QueueDo(r, a.0, a.1) else r
  }

  function UserOf(p: Proc): User {
    match p
    case Idle => Rests
    case Reading(len) => Reads(len, false)
    case ReadAsleep(len) => Reads(len, true)
    case Writing(_, _) => Writes(Rest(p), false)
    case WriteAsleep(_, _) => Writes(Rest(p), true)
  }

  function UsersOf(ps: seq<Proc>): (r: seq<User>)
    ensures |r| == |ps| && forall u :: 0 <= u < |ps| ==> r[u] == UserOf(ps[u])
  {
    seq(|ps|, u requires 0 <= u < |ps| => UserOf(ps[u]))
  }

  /** What a pipe is for its users. */
  function Abs(s: Sys): Queue
    requires |s.ring.buf| == SIZE
  {
    Queue(Contents(s.ring), UsersOf(s.procs), s.got)
  }

  lemma EmptyIs(r: Ring)
    requires ValidRing(r)
    ensures r.nread == r.nwrite <==> Contents(r) == []
  {
  }

  lemma ReadTurnIs(s: Sys, t: nat)
    requires Inv(s) && t < |s.procs| && s.procs[t].Reading?
    ensures |ReadTurn(s, t).ring.buf| == SIZE && Abs(ReadTurn(s, t)) == QueueDo(Abs(s), t, Go)
  {
    ReadTurnKeeps(s, t);
    EmptyIs(s.ring);
    ContentsLength(s.ring);
    var s', q := ReadTurn(s, t), QueueDo(Abs(s), t, Go);
    if s.ring.nread != s.ring.nwrite {
      GetTakes(s.ring, Min(s.procs[t].len, ReadableSize(s.ring)));
    }
    hide Contents;
    hide Get;
    hide ReadableSize;
    hide Project;
    assert UsersOf(s'.procs) == q.users;
  }

  lemma WriteTurnIs(s: Sys, t: nat)
    requires Inv(s) && t < |s.procs| && s.procs[t].Writing?
    ensures s.procs[t].done <= |s.procs[t].data| && |WriteTurn(s, t).ring.buf| == SIZE
    ensures Abs(WriteTurn(s, t)) == QueueDo(Abs(s), t, Go)
  {
    WriteTurnKeeps(s, t);
    assert ProcOk(s, t);
    var data, done := s.procs[t].data, s.procs[t].done;
    PutAppends(s.ring, data[done..]);
    ContentsLength(s.ring);
    hide Contents;
    hide Put;
    hide ReadableSize;
    hide Project;
    var n := Min(|data| - done, SIZE - |Contents(s.ring)|);
    assert data[done..][n..] == data[done + n..];
    assert UsersOf(WriteTurn(s, t).procs) == QueueDo(Abs(s), t, Go).users;
  }

  lemma StartIs(s: Sys, t: nat, a: Act)
    requires Inv(s) && t < |s.procs| && !s.procs[t].Reading? && !s.procs[t].Writing?
    ensures |Do(s, t, a).ring.buf| == SIZE && Abs(Do(s, t, a)) == QueueDo(Abs(s), t, a)
  {
    ContentsLength(s.ring);
    hide Contents;
    assert UsersOf(Do(s, t, a).procs) == QueueDo(Abs(s), t, a).users;
  }

  lemma DoIs(s: Sys, t: nat, a: Act)
    requires Inv(s) && t < |s.procs|
    ensures s.procs[t].Writing? ==> s.procs[t].done <= |s.procs[t].data|
    ensures |Do(s, t, a).ring.buf| == SIZE && Abs(Do(s, t, a)) == QueueDo(Abs(s), t, a)
  {
    hide Inv;
    match s.procs[t]
    case Reading(_) => ReadTurnIs(s, t);
    case Writing(_, _) => WriteTurnIs(s, t);
    case _ => StartIs(s, t, a);
  }

  /** Every run of the pipe is a run of a queue of bytes: a read call ends with the oldest bytes, as many as
      it asked for if there are, and sleeps exactly on an empty queue; a write call puts in what fits and
      sleeps exactly with bytes left; nobody sleeps past a turn of the other kind. */
  lemma {:induction false} PipeIsQueue(s0: Sys, steps: seq<(nat, Act)>)
    requires Init(s0)
    ensures |Run(s0, steps).ring.buf| == SIZE && Abs(Run(s0, steps)) == QueueRun(Abs(s0), steps)
    ensures Abs(s0).bytes == [] && forall u :: 0 <= u < |s0.procs| ==> Abs(s0).users[u] == Rests && Abs(s0).got[u] == []
  {
    RunKeeps(s0, steps);
    EmptyStart(s0);
    if steps != [] {
      var before, a := steps[..|steps| - 1], steps[|steps| - 1];
      PipeIsQueue(s0, before);
      RunKeeps(s0, before);
      var r := Run(s0, before);
      ContentsLength(r.ring);
      if a.0 < |r.procs| { DoIs(r, a.0, a.1); }
      hide Do;
      hide QueueDo;
      hide Contents;
    }
  }

  lemma EmptyStart(s0: Sys)
    requires Init(s0)
    ensures Abs(s0).bytes == [] && forall u :: 0 <= u < |s0.procs| ==> Abs(s0).users[u] == Rests && Abs(s0).got[u] == []
  {
  }
}
