/** Directories (kernel/fs/dir.c): blocks of a counter and 31 name slots, scanned with an early exit.

    A C string is given by its bytes before the terminating NUL, so it holds no zero. */
module Directory {
  import opened Base
  import Files

  const DLENGTH := 28
  const SLOTS := 31        // DENTRY_MAXCNT_PER_BLOCK

  type Name = seq<nat>     // a C string

  datatype Dentry = Dentry(inum: nat, name: seq<nat>)
  datatype Block = Block(cnt: nat, slots: seq<Dentry>)
  type Dir = seq<Block>

  predicate NoNul(s: Name) {
    forall i :: 0 <= i < |s| ==> s[i] != 0
  }

  /** Byte i of a C string that is at least that long. */
  function ByteAt(s: Name, i: nat): nat {
    if i < |s| then s[i] else 0
  }

  // ---------------------------------------------------------------- names

  /** dentry_name_set from byte i on. */
  function NameSet(dst: seq<nat>, s: Name, i: nat): seq<nat>
    requires |dst| == DLENGTH
    decreases DLENGTH - i
  {
    if i >= DLENGTH then dst
    else if ByteAt(s, i) == 0 then dst[i := 0]
    else NameSet(dst[i := ByteAt(s, i)], s, i + 1)
  }

  /** dentry_name_equal from byte i on. */
  function NameEqual(field: seq<nat>, s: Name, i: nat): bool
    requires |field| == DLENGTH
    decreases DLENGTH - i
  {
    if i >= DLENGTH then ByteAt(s, i) == 0
    else if field[i] != ByteAt(s, i) then false
    else if field[i] == 0 then true
    else NameEqual(field, s, i + 1)
  }

  /** The name a slot holds: its bytes up to the first NUL, or all of them. */
  function Stem(field: seq<nat>): Name {
    if field == [] || field[0] == 0 then [] else [field[0]] + Stem(field[1..])
  }

  lemma {:induction false} StemIs(field: seq<nat>)
    ensures |Stem(field)| <= |field| && Stem(field) == field[..|Stem(field)|] && NoNul(Stem(field))
    ensures |Stem(field)| < |field| ==> field[|Stem(field)|] == 0
  {
    if field != [] && field[0] != 0 { StemIs(field[1..]); }
  }

  lemma {:induction false} EqualFrom(field: seq<nat>, s: Name, i: nat)
    requires |field| == DLENGTH && NoNul(s) && i <= DLENGTH && i <= |s|
    ensures NameEqual(field, s, i) <==> Stem(field[i..]) == s[i..]
    decreases DLENGTH - i
  {
    if i < DLENGTH {
      assert field[i..][1..] == field[i + 1..];
      if i < |s| {
        EqualFrom(field, s, i + 1);
        assert s[i..] == [s[i]] + s[i + 1..];
        if Stem(field[i..]) == s[i..] { assert Stem(field[i..])[0] == s[i] && Stem(field[i..])[1..] == s[i..][1..]; }
      }
    }
  }

  /** dentry_name_equal is equality with the name the slot holds, for names of every length. */
  lemma NameEqualIs(field: seq<nat>, s: Name)
    requires |field| == DLENGTH && NoNul(s)
    ensures NameEqual(field, s, 0) <==> Stem(field) == s
  {
    EqualFrom(field, s, 0);
    assert field[0..] == field && s[0..] == s;
  }

  function Shortened(s: Name): Name {
    if |s| <= DLENGTH then s else s[..DLENGTH]
  }

  lemma {:induction false} SetFrom(dst: seq<nat>, s: Name, i: nat)
    requires |dst| == DLENGTH && NoNul(s) && i <= DLENGTH && i <= |s| && dst[..i] == s[..i]
    ensures |NameSet(dst, s, i)| == DLENGTH && NameSet(dst, s, i)[..|Shortened(s)|] == Shortened(s)
    ensures |s| < DLENGTH ==> NameSet(dst, s, i)[|s|] == 0
    decreases DLENGTH - i
  {
    if i < DLENGTH && i < |s| {
      assert dst[i := s[i]][..i + 1] == s[..i + 1];
      SetFrom(dst[i := s[i]], s, i + 1);
    }
  }

  lemma {:induction false} StemOf(field: seq<nat>, n: nat)
    requires n <= |field| && NoNul(field[..n]) && (n < |field| ==> field[n] == 0)
    ensures Stem(field) == field[..n]
  {
    if n > 0 {
      assert field[..n][0] != 0;
      assert field[1..][..n - 1] == field[..n][1..];
      StemOf(field[1..], n - 1);
    }
  }

  /** Whatever bytes a slot held before, it then holds the new name, cut to 28 bytes. */
  lemma NameSetIs(dst: seq<nat>, s: Name)
    requires |dst| == DLENGTH && NoNul(s)
    ensures |NameSet(dst, s, 0)| == DLENGTH && Stem(NameSet(dst, s, 0)) == Shortened(s)
  {
    SetFrom(dst, s, 0);
    StemOf(NameSet(dst, s, 0), |Shortened(s)|);
  }

  // ---------------------------------------------------------------- one block

  predicate IsEmpty(d: Dentry) {
    d.name != [] ==> d.name[0] == 0
  }

  function Count(slots: seq<Dentry>): nat {
    if slots == [] then 0 else (if IsEmpty(slots[0]) then 0 else 1) + Count(slots[1..])
  }

  predicate Shaped(b: Block) {
    |b.slots| == SLOTS && forall j :: 0 <= j < SLOTS ==> |b.slots[j].name| == DLENGTH
  }

  /** The header counts the slots in use. */
  predicate Counted(b: Block) {
    Shaped(b) && b.cnt == Count(b.slots)
  }

  /** The scan of dentry_find and dentry_del from slot j on, having passed k names. */
  function Scan(b: Block, s: Name, j: nat, k: nat): Option<nat>
    requires Shaped(b)
    decreases SLOTS - j
  {
    if j >= SLOTS || k >= b.cnt then None
    else if NameEqual(b.slots[j].name, s, 0) then Some(j)
    else Scan(b, s, j + 1, if IsEmpty(b.slots[j]) then k else k + 1)
  }

  /** The first slot from j on that holds the name s. */
  function First(b: Block, s: Name, j: nat): Option<nat>
    requires Shaped(b)
    decreases SLOTS - j
  {
    if j >= SLOTS then None else if Stem(b.slots[j].name) == s then Some(j) else First(b, s, j + 1)
  }

  lemma {:induction false} CountNone(slots: seq<Dentry>)
    requires Count(slots) == 0
    ensures forall j :: 0 <= j < |slots| ==> IsEmpty(slots[j])
  {
    if slots != [] {
      CountNone(slots[1..]);
      forall j | 0 <= j < |slots| ensures IsEmpty(slots[j]) { if j > 0 { assert slots[j] == slots[1..][j - 1]; } }
    }
  }

  lemma {:induction false} NoneLeft(b: Block, s: Name, j: nat)
    requires Shaped(b) && s != [] && j <= SLOTS && forall i :: j <= i < SLOTS ==> IsEmpty(b.slots[i])
    ensures First(b, s, j) == None
    decreases SLOTS - j
  {
    if j < SLOTS { NoneLeft(b, s, j + 1); }
  }

  lemma {:induction false} ScanFrom(b: Block, s: Name, j: nat, k: nat)
    requires Shaped(b) && NoNul(s) && s != [] && j <= SLOTS && b.cnt == k + Count(b.slots[j..])
    ensures Scan(b, s, j, k) == First(b, s, j)
    decreases SLOTS - j
  {
    if j < SLOTS {
      if k >= b.cnt {
        CountNone(b.slots[j..]);
        forall i | j <= i < SLOTS ensures IsEmpty(b.slots[i]) { assert b.slots[j..][i - j] == b.slots[i]; }
        NoneLeft(b, s, j);
      } else {
        NameEqualIs(b.slots[j].name, s);
        assert b.slots[j..][1..] == b.slots[j + 1..];
        ScanFrom(b, s, j + 1, if IsEmpty(b.slots[j]) then k else k + 1);
      }
    }
  }

  /** Stopping after cnt names misses nothing. */
  lemma ScanIsFull(b: Block, s: Name)
    requires Counted(b) && NoNul(s) && s != []
    ensures Scan(b, s, 0, 0) == First(b, s, 0)
  {
    assert b.slots[0..] == b.slots;
    ScanFrom(b, s, 0, 0);
  }

  /** The first empty slot. */
  function FirstEmpty(slots: seq<Dentry>): nat {
    if slots == [] || IsEmpty(slots[0]) then 0 else 1 + FirstEmpty(slots[1..])
  }

  lemma {:induction false} FirstEmptyIs(slots: seq<Dentry>)
    ensures FirstEmpty(slots) <= |slots| && (FirstEmpty(slots) < |slots| ==> IsEmpty(slots[FirstEmpty(slots)]))
    ensures Count(slots) < |slots| ==> FirstEmpty(slots) < |slots|
    ensures Count(slots) <= |slots| && (Count(slots) == |slots| ==> FirstEmpty(slots) == |slots|)
  {
    if slots != [] {
      FirstEmptyIs(slots[1..]);
      if IsEmpty(slots[0]) { FewerThanAll(slots); }
    }
  }

  lemma {:induction false} FewerThanAll(slots: seq<Dentry>)
    ensures Count(slots) <= |slots|
  {
    if slots != [] { FewerThanAll(slots[1..]); }
  }

  lemma {:induction false} CountSet(slots: seq<Dentry>, j: nat, d: Dentry)
    requires j < |slots|
    ensures Count(slots[j := d]) == Count(slots) - (if IsEmpty(slots[j]) then 0 else 1) + if IsEmpty(d) then 0 else 1
  {
    if j == 0 {
      assert slots[0 := d][1..] == slots[1..];
    } else {
      CountSet(slots[1..], j - 1, d);
      assert slots[j := d][1..] == slots[1..][j - 1 := d];
    }
  }

  // ---------------------------------------------------------------- a directory

  ghost predicate Valid(d: Dir) {
    forall i :: 0 <= i < |d| ==> Counted(d[i])
  }

  ghost predicate AllShaped(d: Dir) {
    forall i :: 0 <= i < |d| ==> Shaped(d[i])
  }

  /** The slot dentry_find and dentry_del stop at, from block i on. */
  ghost function Find(d: Dir, s: Name, i: nat): Option<(nat, nat)>
    requires AllShaped(d)
    decreases |d| - i
  {
    if i >= |d| then None
    else
      var r := Scan(d[i], s, 0, 0);
      if r.Some? then Some((i, r.value)) else Find(d, s, i + 1)
  }

  function Fill(b: Block, j: nat, inum: nat, s: Name): Block
    requires Shaped(b) && j < SLOTS
  {
    Block(b.cnt + 1, b.slots[j := Dentry(inum, NameSet(b.slots[j].name, s, 0))])
  }

  /** A zeroed block, with its first slot filled. */
  function ZeroBlock(): Block {
    Block(0, seq(SLOTS, _ => Dentry(0, seq(DLENGTH, _ => 0))))
  }

  /** dentry_add from block i on.  A directory of exactly 24 blocks refuses a 25th. */
  ghost function Add(d: Dir, inum: nat, s: Name, i: nat): Outcome<Dir>
    requires AllShaped(d)
    decreases |d| - i
  {
    if i >= |d| then
      if |d| == Files.LIMIT || |d| >= Files.MAX_BLOCKS then Panic else Ok(d + [Fill(ZeroBlock(), 0, inum, s)])
    else if d[i].cnt == SLOTS || FirstEmpty(d[i].slots) >= SLOTS then Add(d, inum, s, i + 1)
    else Ok(d[i := Fill(d[i], FirstEmpty(d[i].slots), inum, s)])
  }

  /** Clears the first eight bytes of the name. */
  function Blank(e: Dentry): Dentry
    requires |e.name| == DLENGTH
  {
    Dentry(e.inum, seq(8, _ => 0) + e.name[8..])
  }

  /** Emptied: the block's last entry went, and the block itself is to be removed. */
  datatype Removal = Missing | Emptied(i: nat) | Removed(d: Dir)

  ghost function Del(d: Dir, s: Name): Removal
    requires AllShaped(d)
  {
    var r := Find(d, s, 0);
    if r.None? then Missing
    else
      var i, j := r.value.0, r.value.1;
      if i >= |d| || j >= SLOTS || d[i].cnt == 0 then Missing
      else if d[i].cnt == 1 then Emptied(i)
      else Removed(d[i := Block(d[i].cnt - 1, d[i].slots[j := Blank(d[i].slots[j])])])
  }

  /** What slot j of block i binds. */
  function EntryAt(d: Dir, i: nat, j: nat): Option<(Name, nat)> {
    if i < |d| && j < |d[i].slots| && !IsEmpty(d[i].slots[j]) then Some((Stem(d[i].slots[j].name), d[i].slots[j].inum)) else None
  }

  /** d' has one more binding than d, at a slot that was empty. */
  ghost predicate OneAdded(d: Dir, d': Dir, i: nat, j: nat, e: (Name, nat)) {
    && EntryAt(d, i, j) == None && EntryAt(d', i, j) == Some(e)
    && forall i': nat, j': nat :: (i', j') != (i, j) ==> EntryAt(d', i', j') == EntryAt(d, i', j')
  }

  lemma FillIs(b: Block, j: nat, inum: nat, s: Name)
    requires Shaped(b) && j < SLOTS && IsEmpty(b.slots[j]) && NoNul(s)
    ensures var f := Fill(b, j, inum, s);
      && Shaped(f) && Stem(f.slots[j].name) == Shortened(s) && f.slots[j].inum == inum
      && (IsEmpty(f.slots[j]) <==> s == [])
      && (b.cnt == Count(b.slots) ==> (f.cnt == Count(f.slots) <==> s != []))
  {
    var f := Fill(b, j, inum, s);
    NameSetIs(b.slots[j].name, s);
    CountSet(b.slots, j, f.slots[j]);
    StemIs(f.slots[j].name);
  }

  lemma ZeroBlockIs()
    ensures Counted(ZeroBlock()) && ZeroBlock().cnt == 0 && forall j :: 0 <= j < SLOTS ==> IsEmpty(ZeroBlock().slots[j])
  {
    AllEmpty(ZeroBlock().slots);
  }

  lemma {:induction false} AllEmpty(slots: seq<Dentry>)
    requires forall j :: 0 <= j < |slots| ==> IsEmpty(slots[j])
    ensures Count(slots) == 0
  {
    if slots != [] { AllEmpty(slots[1..]); }
  }

  ghost predicate HasRoom(d: Dir, i: nat) {
    exists k :: i <= k < |d| && d[k].cnt < SLOTS
  }

  /** dentry_add puts exactly one binding, in an old block or a new one, and panics exactly when no
      block has room and none can be added.  It keeps the counts right exactly when the name is not
      empty. */
  lemma {:induction false} AddAdds(d: Dir, inum: nat, s: Name, i: nat) returns (a: nat, b: nat)
    requires Valid(d) && AllShaped(d) && NoNul(s) && i <= |d|
    ensures Add(d, inum, s, i).Panic? <==> !HasRoom(d, i) && (|d| == Files.LIMIT || |d| >= Files.MAX_BLOCKS)
    ensures Add(d, inum, s, i).Ok? ==> (Valid(Add(d, inum, s, i).value) <==> s != [])
    ensures Add(d, inum, s, i).Ok? && s != [] ==> OneAdded(d, Add(d, inum, s, i).value, a, b, (Shortened(s), inum))
    decreases |d| - i
  {
    a, b := 0, 0;
    if i >= |d| {
      if !(|d| == Files.LIMIT || |d| >= Files.MAX_BLOCKS) {
        ZeroBlockIs();
        FillIs(ZeroBlock(), 0, inum, s);
        a, b := |d|, 0;
        AddedAtEnd(d, inum, s);
      }
    } else {
      assert Counted(d[i]);
      FirstEmptyIs(d[i].slots);
      if d[i].cnt == SLOTS {
        a, b := AddAdds(d, inum, s, i + 1);
      } else {
        var j := FirstEmpty(d[i].slots);
        FillIs(d[i], j, inum, s);
        a, b := i, j;
        AddedInPlace(d, inum, s, i, j);
      }
    }
  }

  lemma AddedAtEnd(d: Dir, inum: nat, s: Name)
    requires Valid(d) && NoNul(s)
    ensures var d' := d + [Fill(ZeroBlock(), 0, inum, s)];
      (Valid(d') <==> s != []) && (s != [] ==> OneAdded(d, d', |d|, 0, (Shortened(s), inum)))
  {
    ZeroBlockIs();
    FillIs(ZeroBlock(), 0, inum, s);
    var f := Fill(ZeroBlock(), 0, inum, s);
    var d' := d + [f];
    assert d'[|d|] == f;
    if s != [] {
      forall i': nat, j': nat | (i', j') != (|d|, 0) ensures EntryAt(d', i', j') == EntryAt(d, i', j') {
        if i' == |d| && j' < SLOTS { assert f.slots[j'] == ZeroBlock().slots[j']; }
      }
    }
  }

  lemma AddedInPlace(d: Dir, inum: nat, s: Name, i: nat, j: nat)
    requires Valid(d) && NoNul(s) && i < |d| && j < SLOTS && IsEmpty(d[i].slots[j])
    ensures var d' := d[i := Fill(d[i], j, inum, s)];
      (Valid(d') <==> s != []) && (s != [] ==> OneAdded(d, d', i, j, (Shortened(s), inum)))
  {
    assert Counted(d[i]);
    FillIs(d[i], j, inum, s);
    var d' := d[i := Fill(d[i], j, inum, s)];
    assert d'[i] == Fill(d[i], j, inum, s);
  }

  // ---------------------------------------------------------------- lookup and removal

  lemma {:induction false} FirstIs(b: Block, s: Name, j: nat)
    requires Shaped(b) && j <= SLOTS
    ensures First(b, s, j).Some? ==> j <= First(b, s, j).value < SLOTS && Stem(b.slots[First(b, s, j).value].name) == s
    ensures First(b, s, j).None? ==> forall k :: j <= k < SLOTS ==> Stem(b.slots[k].name) != s
    decreases SLOTS - j
  {
    if j < SLOTS { FirstIs(b, s, j + 1); }
  }

  ghost predicate Binds(d: Dir, i: nat, j: nat, s: Name) {
    EntryAt(d, i, j).Some? && EntryAt(d, i, j).value.0 == s
  }

  /** The early-exit search finds a binding of the name if and only if there is one. */
  lemma {:induction false} FindIs(d: Dir, s: Name, i: nat)
    requires Valid(d) && AllShaped(d) && NoNul(s) && s != []
    ensures Find(d, s, i).Some? ==>
      var r := Find(d, s, i).value; i <= r.0 < |d| && r.1 < SLOTS && Binds(d, r.0, r.1, s)
    ensures Find(d, s, i).None? ==> forall i', j' :: i <= i' < |d| && 0 <= j' ==> !Binds(d, i', j', s)
    decreases |d| - i
  {
    if i < |d| {
      assert Counted(d[i]);
      ScanIsFull(d[i], s);
      FirstIs(d[i], s, 0);
      FindIs(d, s, i + 1);
      if Find(d, s, i).None? {
        forall i', j' | i <= i' < |d| && 0 <= j' ensures !Binds(d, i', j', s) { }
      }
    }
  }

  ghost predicate OneRemoved(d: Dir, d': Dir, i: nat, j: nat) {
    && EntryAt(d', i, j) == None
    && forall i': nat, j': nat :: (i', j') != (i, j) ==> EntryAt(d', i', j') == EntryAt(d, i', j')
  }

  /** dentry_del removes exactly the binding found, whatever stale bytes it leaves in the slot, and
      does nothing when the name is not there. */
  lemma DelRemoves(d: Dir, s: Name)
    requires Valid(d) && AllShaped(d) && NoNul(s) && s != []
    ensures Del(d, s).Missing? <==> forall i, j :: 0 <= i && 0 <= j ==> !Binds(d, i, j, s)
    ensures Del(d, s).Emptied? ==>
      && Find(d, s, 0).Some? && Find(d, s, 0).value.0 == Del(d, s).i < |d|
      && var r := Find(d, s, 0).value; Binds(d, r.0, r.1, s) && forall j: nat :: j != r.1 ==> EntryAt(d, r.0, j) == None
    ensures Del(d, s).Removed? ==>
      && Find(d, s, 0).Some? && Valid(Del(d, s).d)
      && var r := Find(d, s, 0).value; Binds(d, r.0, r.1, s) && OneRemoved(d, Del(d, s).d, r.0, r.1)
  {
    FindIs(d, s, 0);
    if Find(d, s, 0).Some? {
      var i, j := Find(d, s, 0).value.0, Find(d, s, 0).value.1;
      assert Counted(d[i]) && Binds(d, i, j, s);
      if d[i].cnt == 0 {
        CountNone(d[i].slots);
        assert false;
      }
      if d[i].cnt > 1 { BlankRemoves(d, i, j); } else { OnlyEntry(d, i, j); }
    }
  }

  lemma OnlyEntry(d: Dir, i: nat, j: nat)
    requires Valid(d) && i < |d| && Shaped(d[i]) && j < SLOTS && !IsEmpty(d[i].slots[j]) && d[i].cnt == 1
    ensures forall k: nat :: k != j ==> EntryAt(d, i, k) == None
  {
    assert Counted(d[i]);
    var e := Blank(d[i].slots[j]);
    CountSet(d[i].slots, j, e);
    CountNone(d[i].slots[j := e]);
    forall k: nat | k != j ensures EntryAt(d, i, k) == None {
      if k < SLOTS { assert d[i].slots[j := e][k] == d[i].slots[k]; }
    }
  }

  lemma BlankRemoves(d: Dir, i: nat, j: nat)
    requires Valid(d) && i < |d| && Shaped(d[i]) && j < SLOTS && !IsEmpty(d[i].slots[j]) && d[i].cnt > 1
    ensures var d' := d[i := Block(d[i].cnt - 1, d[i].slots[j := Blank(d[i].slots[j])])]; Valid(d') && OneRemoved(d, d', i, j)
  {
    assert Counted(d[i]);
    CountSet(d[i].slots, j, Blank(d[i].slots[j]));
  }

  /** A block with an empty slot before one in use. */
  ghost predicate HoledAt(b: Block) {
    exists j, k :: 0 <= j < k < |b.slots| && IsEmpty(b.slots[j]) && !IsEmpty(b.slots[k])
  }

  ghost predicate Holed(d: Dir) {
    exists i :: 0 <= i < |d| && HoledAt(d[i])
  }

  /** With an empty name the scan stops at the first empty slot, if a name is still to come. */
  lemma {:induction false} ScanEmptyName(b: Block, j: nat, k: nat)
    requires Shaped(b) && j <= SLOTS && b.cnt == k + Count(b.slots[j..])
    ensures Scan(b, [], j, k).Some? ==>
      var r := Scan(b, [], j, k).value;
      j <= r < SLOTS && IsEmpty(b.slots[r]) && b.cnt > 0 && exists m :: r < m < SLOTS && !IsEmpty(b.slots[m])
    ensures Scan(b, [], j, k).None? ==>
      forall i, m :: j <= i < m < SLOTS && IsEmpty(b.slots[i]) ==> IsEmpty(b.slots[m])
    decreases SLOTS - j
  {
    if j < SLOTS {
      if k >= b.cnt {
        CountNone(b.slots[j..]);
        forall m | j <= m < SLOTS ensures IsEmpty(b.slots[m]) { assert b.slots[j..][m - j] == b.slots[m]; }
      } else {
        EqualsNothing(b.slots[j]);
        assert Count(b.slots[j..]) == Count(b.slots[j + 1..]) + if IsEmpty(b.slots[j]) then 0 else 1 by {
          assert b.slots[j..][1..] == b.slots[j + 1..];
        }
        hide NameEqual;
        hide IsEmpty;
        hide Count;
        if IsEmpty(b.slots[j]) {
          NameStillToCome(b.slots, j + 1);
        } else {
          ScanEmptyName(b, j + 1, k + 1);
        }
      }
    }
  }

  lemma EqualsNothing(d: Dentry)
    requires |d.name| == DLENGTH
    ensures NameEqual(d.name, [], 0) <==> IsEmpty(d)
  {
    NameEqualIs(d.name, []);
  }

  lemma NameStillToCome(slots: seq<Dentry>, j: nat)
    requires j <= |slots| && Count(slots[j..]) > 0
    ensures exists m :: j <= m < |slots| && !IsEmpty(slots[m])
  {
    if forall m :: j <= m < |slots| ==> IsEmpty(slots[m]) {
      forall i | 0 <= i < |slots[j..]| ensures IsEmpty(slots[j..][i]) { assert slots[j..][i] == slots[j + i]; }
      AllEmpty(slots[j..]);
    }
  }

  lemma {:induction false} FindEmptyName(d: Dir, i: nat)
    requires Valid(d) && AllShaped(d)
    ensures Find(d, [], i).Some? <==> exists k :: i <= k < |d| && HoledAt(d[k])
    ensures Find(d, [], i).Some? ==>
      var r := Find(d, [], i).value;
      i <= r.0 < |d| && r.1 < SLOTS && IsEmpty(d[r.0].slots[r.1]) && HoledAt(d[r.0]) && d[r.0].cnt > 0
    decreases |d| - i
  {
    if i < |d| {
      assert Counted(d[i]) && d[i].slots[0..] == d[i].slots;
      ScanEmptyName(d[i], 0, 0);
      FindEmptyName(d, i + 1);
      if Scan(d[i], [], 0, 0).None? { assert !HoledAt(d[i]); }
    }
  }

  /** What the deletion of a name that is not there must not do. */
  ghost predicate DelIsWrong(d: Dir, s: Name)
    requires AllShaped(d)
  {
    match Del(d, s)
    case Missing => false
    case Removed(d') => !Valid(d')
    case Emptied(i) => exists j: nat :: EntryAt(d, i, j).Some?
  }

  /** Deleting the empty name, which no entry has, goes wrong exactly when some block has an empty slot
      before one in use: it then breaks that block's count, or has the block removed with a live entry
      in it.  Otherwise nothing happens. */
  lemma DelEmptyName(d: Dir)
    requires Valid(d) && AllShaped(d)
    ensures DelIsWrong(d, []) <==> Holed(d)
    ensures !Holed(d) <==> Del(d, []).Missing?
    ensures Del(d, []).Removed? ==> exists i :: 0 <= i < |d| && HoledAt(d[i]) && d[i].cnt > 1
    ensures Del(d, []).Emptied? ==> Del(d, []).i < |d| && HoledAt(d[Del(d, []).i]) && d[Del(d, []).i].cnt == 1
  {
    FindEmptyName(d, 0);
    if Find(d, [], 0).Some? {
      var i, j := Find(d, [], 0).value.0, Find(d, [], 0).value.1;
      assert Counted(d[i]);
      var a, b :| 0 <= a < b < |d[i].slots| && IsEmpty(d[i].slots[a]) && !IsEmpty(d[i].slots[b]);
      if d[i].cnt == 1 {
        assert EntryAt(d, i, b).Some?;
      } else {
        CountSet(d[i].slots, j, Blank(d[i].slots[j]));
        assert Del(d, []).d[i].cnt != Count(Del(d, []).d[i].slots);
      }
    }
  }

  // ---------------------------------------------------------------- a finite map

  ghost predicate Unique(d: Dir) {
    forall i: nat, j: nat, i': nat, j': nat :: EntryAt(d, i, j).Some? && EntryAt(d, i', j').Some? && (i, j) != (i', j') ==>
      EntryAt(d, i, j).value.0 != EntryAt(d, i', j').value.0
  }

  /** What dentry_find looks up. */
  ghost function Lookup(d: Dir, s: Name): Option<nat>
    requires AllShaped(d)
  {
    var r := Find(d, s, 0);
    if r.Some? && EntryAt(d, r.value.0, r.value.1).Some? then Some(EntryAt(d, r.value.0, r.value.1).value.1) else None
  }

  lemma LookupIs(d: Dir, s: Name, x: nat)
    requires Valid(d) && AllShaped(d) && Unique(d) && NoNul(s) && s != []
    ensures Lookup(d, s) == Some(x) <==> exists i: nat, j: nat :: EntryAt(d, i, j) == Some((s, x))
  {
    FindIs(d, s, 0);
    hide Find;
    if i: nat, j: nat :| EntryAt(d, i, j) == Some((s, x)) {
      assert Binds(d, i, j, s);
      var r := Find(d, s, 0);
      assert r.Some? && Binds(d, r.value.0, r.value.1, s);
      hide EntryAt;
      assert (i, j) == r.value;
    }
  }

  lemma SameLookup(d: Dir, d': Dir, s: Name)
    requires Valid(d) && AllShaped(d) && Unique(d) && Valid(d') && AllShaped(d') && Unique(d') && NoNul(s) && s != []
    requires forall x :: (exists i: nat, j: nat :: EntryAt(d, i, j) == Some((s, x))) <==>
                         (exists i: nat, j: nat :: EntryAt(d', i, j) == Some((s, x)))
    ensures Lookup(d, s) == Lookup(d', s)
  {
    forall x: nat ensures Lookup(d, s) == Some(x) <==> Lookup(d', s) == Some(x) {
      LookupIs(d, s, x);
      LookupIs(d', s, x);
    }
    if Lookup(d, s).Some? { assert Lookup(d', s) == Some(Lookup(d, s).value); }
    if Lookup(d', s).Some? { assert Lookup(d, s) == Some(Lookup(d', s).value); }
  }

  /** As a map from names to inode numbers: adding a new name ... */
  lemma AddIsInsert(d: Dir, inum: nat, s: Name, q: Name)
    requires Valid(d) && AllShaped(d) && Unique(d) && Add(d, inum, s, 0).Ok?
    requires NoNul(s) && 0 < |s| <= DLENGTH && Lookup(d, s) == None && NoNul(q) && q != []
    ensures var d' := Add(d, inum, s, 0).value;
      && Valid(d') && AllShaped(d') && Unique(d')
      && Lookup(d', q) == if q == s then Some(inum) else Lookup(d, q)
  {
    var d' := Add(d, inum, s, 0).value;
    var a, b := AddAdds(d, inum, s, 0);
    FindIs(d, s, 0);
    forall i: nat, j: nat, i': nat, j': nat | EntryAt(d', i, j).Some? && EntryAt(d', i', j').Some? && (i, j) != (i', j')
      ensures EntryAt(d', i, j).value.0 != EntryAt(d', i', j').value.0
    {
      if EntryAt(d, i, j).Some? { assert !Binds(d, i, j, s); }
      if EntryAt(d, i', j').Some? { assert !Binds(d, i', j', s); }
    }
    if q == s {
      LookupIs(d', s, inum);
      assert EntryAt(d', a, b) == Some((s, inum));
    } else {
      forall x: nat ensures (exists i: nat, j: nat :: EntryAt(d, i, j) == Some((q, x))) <==>
                            (exists i: nat, j: nat :: EntryAt(d', i, j) == Some((q, x)))
      {
        if i: nat, j: nat :| EntryAt(d, i, j) == Some((q, x)) { assert EntryAt(d', i, j) == Some((q, x)); }
        if i: nat, j: nat :| EntryAt(d', i, j) == Some((q, x)) { assert EntryAt(d, i, j) == Some((q, x)); }
      }
      SameLookup(d, d', q);
    }
  }

  /** ... and removing one. */
  lemma DelIsRemove(d: Dir, s: Name, q: Name)
    requires Valid(d) && AllShaped(d) && Unique(d) && NoNul(s) && s != [] && Del(d, s).Removed? && NoNul(q) && q != []
    ensures var d' := Del(d, s).d;
      && Valid(d') && AllShaped(d') && Unique(d')
      && Lookup(d', q) == if q == s then None else Lookup(d, q)
  {
    var d' := Del(d, s).d;
    DelRemoves(d, s);
    FindIs(d, s, 0);
    var r := Find(d, s, 0).value;
    assert forall i: nat, j: nat :: EntryAt(d', i, j).Some? ==> EntryAt(d', i, j) == EntryAt(d, i, j) && (i, j) != r;
    assert Unique(d');
    if q == s {
      FindIs(d', s, 0);
    } else {
      forall x: nat ensures (exists i: nat, j: nat :: EntryAt(d, i, j) == Some((q, x))) <==>
                            (exists i: nat, j: nat :: EntryAt(d', i, j) == Some((q, x)))
      {
        if i: nat, j: nat :| EntryAt(d, i, j) == Some((q, x)) { assert EntryAt(d', i, j) == Some((q, x)); }
        if i: nat, j: nat :| EntryAt(d', i, j) == Some((q, x)) { assert EntryAt(d, i, j) == Some((q, x)); }
      }
      SameLookup(d, d', q);
    }
  }

  // ---------------------------------------------------------------- runs

  /** What callers ask for; they add only names that a lookup did not find. */
  datatype Op = AddOp(s: Name, inum: nat) | DelOp(s: Name)

  predicate GoodOp(op: Op) {
    NoNul(op.s) && 0 < |op.s| <= DLENGTH
  }

  /** A directory and the map it stands for, from d0 and m0 on; None once it overflows or a block is to
      be removed. */
  ghost function Run(d0: Dir, m0: map<Name, nat>, ops: seq<Op>): Option<(Dir, map<Name, nat>)> {
    if ops == [] then Some((d0, m0))
    else
      var r, op := Run(d0, m0, ops[..|ops| - 1]), ops[|ops| - 1];
      if r.None? || !AllShaped(r.value.0) then None
      else
        var d, m := r.value.0, r.value.1;
        match op
        case AddOp(s, inum) =>
          if Lookup(d, s).Some? then r
          else if Add(d, inum, s, 0).Panic? then None else Some((Add(d, inum, s, 0).value, m[s := inum]))
        case DelOp(s) =>
          match Del(d, s)
          case Missing => r
          case Emptied(_) => None
          case Removed(d') => Some((d', m - {s}))
  }

  ghost predicate Agrees(d: Dir, m: map<Name, nat>, q: Name)
    requires AllShaped(d)
  {
    Lookup(d, q) == if q in m then Some(m[q]) else None
  }

  /** d is a directory that stands for m. */
  ghost predicate Denotes(d: Dir, m: map<Name, nat>) {
    && Valid(d) && AllShaped(d) && Unique(d)
    && forall q: Name :: NoNul(q) && q != [] ==> Agrees(d, m, q)
  }

  lemma EmptyDenotes()
    ensures Denotes([], map[])
  {
  }

  /** Every directory with right counts and unique names stands for some map. */
  lemma EveryDirectoryDenotes(d: Dir) returns (m: map<Name, nat>)
    requires Valid(d) && AllShaped(d) && Unique(d)
    ensures Denotes(d, m)
  {
    var names := set i, j | 0 <= i < |d| && 0 <= j < SLOTS && EntryAt(d, i, j).Some? :: EntryAt(d, i, j).value.0;
    m := map q | q in names && Lookup(d, q).Some? :: Lookup(d, q).value;
    forall q: Name | NoNul(q) && q != [] ensures Agrees(d, m, q) {
      if Lookup(d, q).Some? {
        var x := Lookup(d, q).value;
        LookupIs(d, q, x);
        var i: nat, j: nat :| EntryAt(d, i, j) == Some((q, x));
        assert i < |d| && Shaped(d[i]);
        assert q in names;
      }
    }
  }

  /** In every run the directory is that finite map, wherever it started. */
  lemma {:induction false} EveryRun(d0: Dir, m0: map<Name, nat>, ops: seq<Op>)
    requires Denotes(d0, m0) && Run(d0, m0, ops).Some? && (forall i :: 0 <= i < |ops| ==> GoodOp(ops[i]))
    ensures Denotes(Run(d0, m0, ops).value.0, Run(d0, m0, ops).value.1)
  {
    if ops != [] {
      var before, op := ops[..|ops| - 1], ops[|ops| - 1];
      assert GoodOp(op);
      EveryRun(d0, m0, before);
      var d, m := Run(d0, m0, before).value.0, Run(d0, m0, before).value.1;
      StepDenotes(d, m, op);
    }
  }

  lemma StepDenotes(d: Dir, m: map<Name, nat>, op: Op)
    requires Denotes(d, m) && GoodOp(op)
    ensures op.AddOp? && Lookup(d, op.s).None? && Add(d, op.inum, op.s, 0).Ok? ==>
      Denotes(Add(d, op.inum, op.s, 0).value, m[op.s := op.inum])
    ensures op.DelOp? && Del(d, op.s).Removed? ==> Denotes(Del(d, op.s).d, m - {op.s})
  {
    if op.AddOp? && Lookup(d, op.s).None? && Add(d, op.inum, op.s, 0).Ok? {
      var d' := Add(d, op.inum, op.s, 0).value;
      AddIsInsert(d, op.inum, op.s, op.s);
      forall q: Name | NoNul(q) && q != [] ensures Agrees(d', m[op.s := op.inum], q) {
        AddIsInsert(d, op.inum, op.s, q);
        assert Agrees(d, m, q);
      }
    }
    if op.DelOp? && Del(d, op.s).Removed? {
      var d' := Del(d, op.s).d;
      DelIsRemove(d, op.s, op.s);
      forall q: Name | NoNul(q) && q != [] ensures Agrees(d', m - {op.s}, q) {
        DelIsRemove(d, op.s, q);
        assert Agrees(d, m, q);
      }
    }
  }

  // ---------------------------------------------------------------- a hole made by ordinary use

  const A: Name := [97]
  const B: Name := [98]
  const C: Name := [99]

  /** A new directory with entries in its first slots. */
  ghost predicate Packed(d: Dir, n: nat) {
    && |d| == 1 && Valid(d) && AllShaped(d) && n <= SLOTS && d[0].cnt == n
    && forall j :: 0 <= j < SLOTS ==> (IsEmpty(d[0].slots[j]) <==> j >= n)
  }

  lemma {:induction false} FirstEmptyAt(slots: seq<Dentry>, n: nat)
    requires n <= |slots| && forall j :: 0 <= j < |slots| ==> (IsEmpty(slots[j]) <==> j >= n)
    ensures FirstEmpty(slots) == n
  {
    if n > 0 {
      forall j | 0 <= j < |slots[1..]| ensures IsEmpty(slots[1..][j]) <==> j >= n - 1 { assert slots[1..][j] == slots[j + 1]; }
      FirstEmptyAt(slots[1..], n - 1);
    }
  }

  lemma AddPacked(d: Dir, n: nat, inum: nat, s: Name)
    requires Packed(d, n) && n < SLOTS && NoNul(s) && s != []
    ensures Add(d, inum, s, 0).Ok? && Packed(Add(d, inum, s, 0).value, n + 1)
    ensures Stem(Add(d, inum, s, 0).value[0].slots[n].name) == Shortened(s)
    ensures forall j :: 0 <= j < SLOTS && j != n ==> Add(d, inum, s, 0).value[0].slots[j] == d[0].slots[j]
  {
    FirstEmptyAt(d[0].slots, n);
    FillIs(d[0], n, inum, s);
  }

  lemma FirstPacked(inum: nat, s: Name)
    requires NoNul(s) && s != []
    ensures Add([], inum, s, 0).Ok? && Packed(Add([], inum, s, 0).value, 1)
    ensures Stem(Add([], inum, s, 0).value[0].slots[0].name) == Shortened(s)
  {
    ZeroBlockIs();
    FillIs(ZeroBlock(), 0, inum, s);
  }

  /** Two additions, or three, and one deletion leave such a directory: deleting the empty name then has
      the block of a live entry removed, or makes its count wrong. */
  lemma HolesHappen()
    ensures var r := Run([], map[], [AddOp(A, 1), AddOp(B, 2), DelOp(A)]);
      r.Some? && Denotes(r.value.0, r.value.1) && B in r.value.1 && Del(r.value.0, []) == Emptied(0)
    ensures var r := Run([], map[], [AddOp(A, 1), AddOp(B, 2), AddOp(C, 3), DelOp(A)]);
      r.Some? && Denotes(r.value.0, r.value.1) && Del(r.value.0, []).Removed? && !Valid(Del(r.value.0, []).d)
  {
    var d2, d3 := ThreeAdded();
    var ab, abc := [AddOp(A, 1), AddOp(B, 2)], [AddOp(A, 1), AddOp(B, 2), AddOp(C, 3)];
    hide *;
    HoleAfter(ab, d2, map[A := 1, B := 2], 2);
    HoleAfter(abc, d3, map[A := 1, B := 2, C := 3], 3);
    assert ab + [DelOp(A)] == [AddOp(A, 1), AddOp(B, 2), DelOp(A)];
    assert abc + [DelOp(A)] == [AddOp(A, 1), AddOp(B, 2), AddOp(C, 3), DelOp(A)];
  }

  /** One more addition of a new name. */
  lemma AddedNext(ops: seq<Op>, d: Dir, m: map<Name, nat>, n: nat, s: Name, inum: nat)
    requires Run([], map[], ops) == Some((d, m)) && Packed(d, n) && 1 <= n < SLOTS && GoodOp(AddOp(s, inum))
    requires forall j :: 0 <= j < n ==> Stem(d[0].slots[j].name) != s
    ensures Add(d, inum, s, 0).Ok? && Run([], map[], ops + [AddOp(s, inum)]) == Some((Add(d, inum, s, 0).value, m[s := inum]))
  {
    NewName(d, s);
    AddPacked(d, n, inum, s);
    assert (ops + [AddOp(s, inum)])[..|ops|] == ops;
    hide Add;
    hide Lookup;
    hide Packed;
  }

  lemma FirstAdded() returns (d: Dir)
    ensures Run([], map[], [AddOp(A, 1)]) == Some((d, map[A := 1])) && Packed(d, 1) && Stem(d[0].slots[0].name) == A
  {
    FirstPacked(1, A);
    d := Add([], 1, A, 0).value;
    assert [AddOp(A, 1)][..0] == [];
  }

  lemma ThreeAdded() returns (d2: Dir, d3: Dir)
    ensures Run([], map[], [AddOp(A, 1), AddOp(B, 2)]) == Some((d2, map[A := 1, B := 2]))
    ensures Run([], map[], [AddOp(A, 1), AddOp(B, 2), AddOp(C, 3)]) == Some((d3, map[A := 1, B := 2, C := 3]))
    ensures Packed(d2, 2) && Stem(d2[0].slots[0].name) == A && Packed(d3, 3) && Stem(d3[0].slots[0].name) == A
    ensures forall op :: op in {AddOp(A, 1), AddOp(B, 2), AddOp(C, 3)} ==> GoodOp(op)
  {
    hide Run;
    hide Add;
    hide Stem;
    hide IsEmpty;
    hide Counted;
    hide Lookup;
    var a, ab := [AddOp(A, 1)], [AddOp(A, 1), AddOp(B, 2)];
    var d1 := FirstAdded();
    AddPacked(d1, 1, 2, B);
    AddedNext(a, d1, map[A := 1], 1, B, 2);
    d2 := Add(d1, 2, B, 0).value;
    AddPacked(d2, 2, 3, C);
    assert a + [AddOp(B, 2)] == ab && map[A := 1][B := 2] == map[A := 1, B := 2];
    AddedNext(ab, d2, map[A := 1, B := 2], 2, C, 3);
    d3 := Add(d2, 3, C, 0).value;
    assert ab + [AddOp(C, 3)] == [AddOp(A, 1), AddOp(B, 2), AddOp(C, 3)];
    assert map[A := 1, B := 2][C := 3] == map[A := 1, B := 2, C := 3];
  }

  /** A name no slot holds is not found. */
  lemma NewName(d: Dir, s: Name)
    requires Valid(d) && AllShaped(d) && |d| == 1 && NoNul(s) && s != []
    requires forall j :: 0 <= j < SLOTS && !IsEmpty(d[0].slots[j]) ==> Stem(d[0].slots[j].name) != s
    ensures Lookup(d, s) == None
  {
    FindIs(d, s, 0);
  }

  lemma DelFirst(d: Dir, n: nat)
    requires n >= 2 && Packed(d, n) && Stem(d[0].slots[0].name) == A
    ensures var d' := [Block(n - 1, d[0].slots[0 := Blank(d[0].slots[0])])];
      Del(d, A) == Removed(d') && HoledAt(d'[0]) && AllShaped(d')
  {
    NameEqualIs(d[0].slots[0].name, A);
    var d' := [Block(n - 1, d[0].slots[0 := Blank(d[0].slots[0])])];
    assert Find(d, A, 0) == Some((0, 0));
    assert d[0 := d'[0]] == d';
    assert IsEmpty(d'[0].slots[0]) && !IsEmpty(d'[0].slots[1]);
  }

  lemma {:induction false} HoleAfter(ops: seq<Op>, d: Dir, m: map<Name, nat>, n: nat)
    requires n >= 2 && Packed(d, n) && Stem(d[0].slots[0].name) == A && (forall i :: 0 <= i < |ops| ==> GoodOp(ops[i]))
    requires Run([], map[], ops) == Some((d, m)) && B in m
    ensures var r := Run([], map[], ops + [DelOp(A)]);
      && r.Some? && Denotes(r.value.0, r.value.1) && B in r.value.1
      && (n == 2 ==> Del(r.value.0, []) == Emptied(0))
      && (n > 2 ==> Del(r.value.0, []).Removed? && !Valid(Del(r.value.0, []).d))
  {
    DelFirst(d, n);
    var d' := [Block(n - 1, d[0].slots[0 := Blank(d[0].slots[0])])];
    assert (ops + [DelOp(A)])[..|ops|] == ops;
    assert Run([], map[], ops + [DelOp(A)]) == Some((d', m - {A})) by { hide Del; hide Packed; }
    EmptyDenotes();
    assert GoodOp(DelOp(A));
    hide Run;
    hide Lookup;
    hide Unique;
    hide Packed;
    hide Stem;
    EveryRun([], map[], ops + [DelOp(A)]);
    DelEmptyName(d');
    hide Agrees;
    hide HoledAt;
  }

  // ---------------------------------------------------------------- the loops

  method CompareName(field: seq<nat>, s: Name) returns (same: bool)
    requires |field| == DLENGTH && NoNul(s)
    ensures same <==> Stem(field) == s
  {
    NameEqualIs(field, s);
    var i := 0;
    while i < DLENGTH
      invariant i <= DLENGTH && NameEqual(field, s, 0) == NameEqual(field, s, i)
    {
      if field[i] != ByteAt(s, i) { return false; }
      if field[i] == 0 && ByteAt(s, i) == 0 { return true; }
      i := i + 1;
    }
    return ByteAt(s, i) == 0;
  }

  method WriteName(dst: array<nat>, s: Name)
    requires dst.Length == DLENGTH && NoNul(s)
    modifies dst
    ensures dst[..] == NameSet(old(dst[..]), s, 0) && Stem(dst[..]) == Shortened(s)
  {
    ghost var d0 := dst[..];
    NameSetIs(d0, s);
    var i := 0;
    while i < DLENGTH
      invariant i <= DLENGTH && NameSet(d0, s, 0) == NameSet(dst[..], s, i)
    {
      ghost var d := dst[..];
      dst[i] := ByteAt(s, i);
      assert dst[..] == d[i := ByteAt(s, i)];
      if ByteAt(s, i) == 0 { break; }
      i := i + 1;
    }
  }

  class Folder {
    var blocks: Dir

    /** The double loop of dentry_find for one path component. */
    method FindEntry(s: Name) returns (r: Option<(nat, nat)>)
      requires Valid(blocks) && AllShaped(blocks) && NoNul(s)
      ensures r == Find(blocks, s, 0)
      ensures s != [] ==> (r.Some? <==> exists i: nat, j: nat :: Binds(blocks, i, j, s))
    {
      if s != [] { FindIs(blocks, s, 0); }
      var i := 0;
      while i < |blocks|
        invariant i <= |blocks| && Find(blocks, s, 0) == Find(blocks, s, i)
      {
        var b := blocks[i];
        var j, k := 0, 0;
        while j < SLOTS && k < b.cnt
          invariant j <= SLOTS && Scan(b, s, 0, 0) == Scan(b, s, j, k)
        {
          NameEqualIs(b.slots[j].name, s);
          var same := CompareName(b.slots[j].name, s);
          if same { return Some((i, j)); }
          if b.slots[j].name[0] != 0 { k := k + 1; }
          j := j + 1;
        }
        i := i + 1;
      }
      return None;
    }

    /** dentry_add; false where the source panics. */
    method AddEntry(inum: nat, s: Name) returns (ok: bool)
      requires Valid(blocks) && AllShaped(blocks) && NoNul(s)
      modifies this
      ensures ok <==> Add(old(blocks), inum, s, 0).Ok?
      ensures blocks == if ok then Add(old(blocks), inum, s, 0).value else old(blocks)
    {
      var i := 0;
      while i < |blocks|
        invariant i <= |blocks| && blocks == old(blocks)
        invariant Add(blocks, inum, s, 0) == Add(blocks, inum, s, i)
      {
        if blocks[i].cnt != SLOTS {
          var j := EmptySlot(blocks[i].slots);
          if j < SLOTS {
            blocks := blocks[i := Fill(blocks[i], j, inum, s)];
            return true;
          }
        }
        i := i + 1;
      }
      if |blocks| == Files.LIMIT || |blocks| >= Files.MAX_BLOCKS { return false; }
      blocks := blocks + [Fill(ZeroBlock(), 0, inum, s)];
      return true;
    }

    method EmptySlot(slots: seq<Dentry>) returns (j: nat)
      ensures j == FirstEmpty(slots) <= |slots|
    {
      FirstEmptyIs(slots);
      j := 0;
      while j < |slots| && !IsEmpty(slots[j])
        invariant j <= |slots| && FirstEmpty(slots) == j + FirstEmpty(slots[j..])
      {
        assert slots[j..][1..] == slots[j + 1..];
        j := j + 1;
      }
    }

    /** dentry_del, up to the removal of a block whose count became zero: that is reported, with nothing
        written. */
    method DeleteEntry(s: Name) returns (r: Removal)
      requires Valid(blocks) && AllShaped(blocks) && NoNul(s)
      modifies this
      ensures r == Del(old(blocks), s)
      ensures blocks == if r.Removed? then r.d else old(blocks)
    {
      if s == [] { FindEmptyName(blocks, 0); } else { FindIs(blocks, s, 0); DelRemoves(blocks, s); }
      var f := FindEntry(s);
      if f.None? { return Missing; }
      var i, j := f.value.0, f.value.1;
      if blocks[i].cnt == 1 { return Emptied(i); }
      blocks := blocks[i := Block(blocks[i].cnt - 1, blocks[i].slots[j := Blank(blocks[i].slots[j])])];
      return Removed(blocks);
    }
  }
}
