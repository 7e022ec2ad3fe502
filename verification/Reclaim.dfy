/**
  fsinit's last step: free the inodes that a crash left allocated but unlinked.
 */
module Reclaim {
  import opened Layout
  import opened Ownership
  import opened FileLayer

  predicate Orphan(d: Dinode) {
    d.kind != 0 && d.nlink == 0
  }

  // The loop of ireclaim starts at inode 1.
  predicate Doomed(table: Table, i: nat, n: nat)
    requires i < |table|
  {
    1 <= i < n && Orphan(table[i])
  }

  /** The inode table with the orphans below n freed. */
  function Freeing(table: Table, n: nat): (r: Table)
    ensures |r| == |table|
    ensures forall i :: 0 <= i < |table| ==> r[i] == if Doomed(table, i, n) then FreedInode(table[i]) else table[i]
  {
    seq(|table|, i requires 0 <= i < |table| => if Doomed(table, i, n) then FreedInode(table[i]) else table[i])
  }

  /** The owned blocks that remain. */
  ghost function Keeping(table: Table, owner: Owner, n: nat): (r: Owner)
    ensures forall b :: b in r <==> b in owner && (owner[b].inum < |table| ==> !Doomed(table, owner[b].inum, n))
    ensures forall b :: b in r ==> r[b] == owner[b]
  {
    map b | b in owner && (owner[b].inum < |table| ==> !Doomed(table, owner[b].inum, n)) :: owner[b]
  }

  /** Freeing below n what was freed below k already is freeing once, up to the larger of the two. */
  lemma FreeingResumes(table: Table, owner: Owner, k: nat, n: nat)
    ensures Freeing(Freeing(table, k), n) == Freeing(table, Max(k, n))
    ensures Keeping(Freeing(table, k), Keeping(table, owner, k), n) == Keeping(table, owner, Max(k, n))
  {
    assert forall i :: 0 <= i < |table| ==> (Doomed(Freeing(table, k), i, n) <==> Doomed(table, i, n) && !Doomed(table, i, k));
  }

  function Max(k: nat, n: nat): nat {
    if k <= n then n else k
  }

  // The files of inodes that are not orphans below n.
  ghost predicate SurvivorsKept(view: Image, view': Image, table: Table, n: nat) {
    forall i :: 0 <= i < |table| && !Doomed(table, i, n) ==> SameFile(view, view', table[i])
  }

  lemma SurvivorsStep(view: Image, mid: Image, view': Image, table: Table, t: Table, t': Table, n: nat)
    requires SurvivorsKept(view, mid, table, n) && 1 <= n < |table| && t == Freeing(table, n)
    requires OthersKept(mid, view', t, t', n) && Orphan(table[n])
    ensures SurvivorsKept(view, view', table, n + 1)
  {
    hide Addr;
    forall i | 0 <= i < |table| && !Doomed(table, i, n + 1)
      ensures SameFile(view, view', table[i])
    {
      if i != n {
        assert SameFile(mid, view', t[i]);
      }
    }
  }

  lemma SurvivorsSame(view: Image, view': Image, table: Table, n: nat)
    requires SurvivorsKept(view, view', table, n) && n < |table| && !Orphan(table[n])
    ensures Freeing(table, n + 1) == Freeing(table, n)
    ensures SurvivorsKept(view, view', table, n + 1)
  {
  }

  lemma FreeingStep(table: Table, owner: Owner, n: nat)
    requires 1 <= n < |table| && Orphan(table[n])
    ensures Freeing(table, n)[n := FreedInode(table[n])] == Freeing(table, n + 1)
    ensures Keeping(table, owner, n) - OwnedBy(Keeping(table, owner, n), n) == Keeping(table, owner, n + 1)
    ensures Freeing(table, n)[n] == table[n]
  {
  }

  lemma FreeingSkip(table: Table, owner: Owner, n: nat)
    requires n < |table| && (n < 1 || !Orphan(table[n]))
    ensures Freeing(table, n + 1) == Freeing(table, n)
    ensures Keeping(table, owner, n + 1) == Keeping(table, owner, n)
    ensures Freeing(table, n)[n] == table[n]
  {
    assert forall i :: 0 <= i < |table| ==> (Doomed(table, i, n + 1) <==> Doomed(table, i, n));
  }

  lemma FreeingNone(table: Table, owner: Owner)
    ensures Freeing(table, 1) == table && Keeping(table, owner, 1) == owner
  {
  }

  // A moment between two turns of ireclaim; `logged` are the blocks that the turn before it wrote.
  datatype Moment = Moment(view: Image, n: nat, logged: set<nat>)

  ghost predicate GoodMoment(sb: Superblock, m: Moment, table: Table, owner: Owner) {
    m.n <= |table| && Consistent(sb, m.view, Freeing(table, m.n), Keeping(table, owner, m.n), {}, {})
  }

  // One turn of the loop: the transaction that frees inode m.n, or nothing.
  ghost predicate Turned(sb: Superblock, m: Moment, m': Moment, table: Table, owner: Owner) {
    && m'.n == m.n + 1 <= |table| && Within(m.view, m'.view, m'.logged)
    && m'.logged == if Orphan(table[m.n]) then Touched(sb, owner, m.n) else {}
  }

  /** The moments of a reclaim that has got this far. */
  ghost predicate Reclaims(sb: Superblock, ms: seq<Moment>, table: Table, owner: Owner) {
    && ms != [] && ms[0].n == 1
    && (forall i :: 0 <= i < |ms| ==> GoodMoment(sb, ms[i], table, owner) && SurvivorsKept(ms[0].view, ms[i].view, table, ms[i].n))
    && (forall i :: 0 < i < |ms| ==> Turned(sb, ms[i - 1], ms[i], table, owner))
  }

  lemma ReclaimsStart(sb: Superblock, view: Image, table: Table, owner: Owner)
    requires Consistent(sb, view, table, owner, {}, {})
    ensures Reclaims(sb, [Moment(view, 1, {})], table, owner)
  {
    hide Marks; hide Synced; hide Addr; hide Freeing; hide Keeping;
    FreeingNone(table, owner);
    SurvivorsRefl(view, table);
  }

  lemma ReclaimsMore(sb: Superblock, ms: seq<Moment>, table: Table, owner: Owner, m: Moment)
    requires Reclaims(sb, ms, table, owner) && GoodMoment(sb, m, table, owner)
    requires SurvivorsKept(ms[0].view, m.view, table, m.n) && Turned(sb, ms[|ms| - 1], m, table, owner)
    ensures Reclaims(sb, ms + [m], table, owner)
  {
    hide GoodMoment; hide SurvivorsKept; hide Turned;
  }

  /**
    ireclaim frees every orphan and its blocks, one transaction each, and leaves every
    other inode and its contents alone.  A turn logs exactly the bitmap blocks of the
    blocks it frees and the inode's block.
   */
  method Ireclaim(fs: Fs) returns (ghost moments: seq<Moment>)
    requires fs.Valid() && fs.dirty == {} && fs.loose == {}
    modifies fs
    ensures fs.Valid() && fs.dirty == {} && fs.loose == {}
    ensures fs.table == Freeing(old(fs.table), |old(fs.table)|)
    ensures fs.owner == Keeping(old(fs.table), old(fs.owner), |old(fs.table)|)
    ensures SurvivorsKept(old(fs.view), fs.view, old(fs.table), |old(fs.table)|)
    ensures Reclaims(fs.sb, moments, old(fs.table), old(fs.owner)) && |moments| == |old(fs.table)|
    ensures moments[0].view == old(fs.view) && moments[|moments| - 1].view == fs.view
  {
    hide Consistent; hide SameFile; hide Freeing; hide Keeping; hide SurvivorsKept; hide GoodMoment; hide Turned; hide Reclaims;
    ghost var view0, table, owner := fs.view, fs.table, fs.owner;
    fs.Shape();
    FreeingNone(table, owner);
    ReclaimsStart(fs.sb, view0, table, owner);
    SurvivorsRefl(view0, table);
    moments := [Moment(view0, 1, {})];
    var inum := 1;
    while inum < fs.sb.ninodes
      invariant 1 <= inum <= fs.sb.ninodes == |table|
      invariant fs.Valid() && fs.dirty == {} && fs.loose == {}
      invariant fs.table == Freeing(table, inum) && fs.owner == Keeping(table, owner, inum)
      invariant SurvivorsKept(view0, fs.view, table, inum)
      invariant Reclaims(fs.sb, moments, table, owner) && |moments| == inum
      invariant moments[0].view == view0 && moments[inum - 1].view == fs.view && moments[inum - 1].n == inum
    {
      ghost var was := moments[inum - 1];
      ReclaimOne(fs, inum, view0, table, owner);
      ghost var m := Moment(fs.view, inum + 1, fs.logged);
      IsGoodMoment(fs, m, table, owner);
      TurnedMeans(fs.sb, was, m, table, owner);
      ReclaimsMore(fs.sb, moments, table, owner, m);
      moments := moments + [m];
      inum := inum + 1;
    }
  }

  lemma IsGoodMoment(fs: Fs, m: Moment, table: Table, owner: Owner)
    requires fs.Valid() && fs.dirty == {} && fs.loose == {} && m.view == fs.view && m.n <= |table|
    requires fs.table == Freeing(table, m.n) && fs.owner == Keeping(table, owner, m.n)
    ensures GoodMoment(fs.sb, m, table, owner)
  {
  }

  lemma TurnedMeans(sb: Superblock, m: Moment, m': Moment, table: Table, owner: Owner)
    requires m'.n == m.n + 1 <= |table| && Within(m.view, m'.view, m'.logged)
    requires m'.logged == if Orphan(table[m.n]) then Touched(sb, owner, m.n) else {}
    ensures Turned(sb, m, m', table, owner)
  {
  }

  // One turn of the loop: the transaction that iput runs for an orphan.
  method ReclaimOne(fs: Fs, inum: nat, ghost view0: Image, ghost table: Table, ghost owner: Owner)
    requires fs.Valid() && fs.dirty == {} && fs.loose == {} && 1 <= inum < fs.sb.ninodes == |table|
    requires fs.table == Freeing(table, inum) && fs.owner == Keeping(table, owner, inum)
    requires SurvivorsKept(view0, fs.view, table, inum)
    modifies fs
    ensures fs.Valid() && fs.dirty == {} && fs.loose == {}
    ensures fs.table == Freeing(table, inum + 1) && fs.owner == Keeping(table, owner, inum + 1)
    ensures SurvivorsKept(view0, fs.view, table, inum + 1)
    ensures Within(old(fs.view), fs.view, fs.logged)
    ensures fs.logged == if Orphan(table[inum]) then Touched(fs.sb, owner, inum) else {}
  {
    hide Consistent; hide SameFile; hide Freeing; hide Keeping; hide OthersKept; hide SurvivorsKept; hide Touched;
    fs.Shape();
    ReadsTable(fs, inum);
    FreeingAt(table, inum);
    fs.logged := {};
    var dip := DinodeAt(fs.sb, fs.view, inum);
    if dip.kind != 0 && dip.nlink == 0 {
      FreeingStep(table, owner, inum);
      TouchedKept(fs.sb, table, owner, inum);
      var ip := new Inode(inum, dip);
      ghost var was, t := fs.view, fs.table;
      fs.Ifree(ip);
      SurvivorsStep(view0, was, fs.view, table, t, fs.table, inum);
    } else {
      FreeingSkip(table, owner, inum);
      SurvivorsSame(view0, fs.view, table, inum);
    }
  }

  lemma TouchedKept(sb: Superblock, table: Table, owner: Owner, n: nat)
    requires n < |table|
    ensures Touched(sb, Keeping(table, owner, n), n) == Touched(sb, owner, n)
  {
    assert OwnedBy(Keeping(table, owner, n), n) == OwnedBy(owner, n);
  }

  lemma FreeingAt(table: Table, n: nat)
    requires n < |table|
    ensures Freeing(table, n)[n] == table[n]
  {
  }

  lemma ReadsTable(fs: Fs, inum: nat)
    requires fs.Valid() && fs.dirty == {} && inum < fs.sb.ninodes
    ensures fs.sb.Valid() && |fs.view| == fs.sb.size && inum < |fs.table|
    ensures DinodeAt(fs.sb, fs.view, inum) == fs.table[inum]
  {
    hide Owns; hide Marks;
    OwnsUnfolds(fs.sb, fs.view, fs.table, fs.owner);
  }

  lemma SurvivorsRefl(view: Image, table: Table)
    requires forall i :: 0 <= i < |table| ==> table[i].Valid()
    ensures SurvivorsKept(view, view, table, 1)
  {
  }

  /** After ireclaim no inode above 0 is an orphan, and exactly the blocks of the orphans became free. */
  lemma NoOrphansLeft(sb: Superblock, view: Image, table: Table, owner: Owner, view': Image)
    requires Consistent(sb, view, table, owner, {}, {})
    requires Consistent(sb, view', Freeing(table, |table|), Keeping(table, owner, |table|), {}, {})
    ensures forall i :: 1 <= i < |table| ==> !Orphan(Freeing(table, |table|)[i])
    ensures forall b :: 0 <= b < sb.size ==>
      (InUse(sb, view', b) <==> InUse(sb, view, b) && (b in owner ==> !Doomed(table, owner[b].inum, |table|)))
  {
    hide InUse; hide Synced; hide Addr; hide Freeing; hide Keeping;
    ConsistentOwns(sb, view, table, owner, {}, {});
  }

  /** One table and one set of owners leave no choice to the bitmap and the inode blocks. */
  lemma SameMetadata(sb: Superblock, view: Image, view': Image, table: Table, owner: Owner)
    requires Consistent(sb, view, table, owner, {}, {}) && Consistent(sb, view', table, owner, {}, {})
    ensures forall b :: 0 <= b < sb.size ==> (InUse(sb, view, b) <==> InUse(sb, view', b))
    ensures forall i :: 0 <= i < |table| ==> DinodeAt(sb, view, i) == DinodeAt(sb, view', i)
  {
    hide InUse; hide DinodeAt; hide Addr;
  }
}
