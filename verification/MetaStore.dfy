/** The shadow metadata store: what the guest asked for where the host cannot hold it. */
module MetaStores {
  import opened Basics
  import opened Text
  import opened MetaRecords

  // ----- the store that keeps everything -------------------------------------------

  function ModeSet(r: MetaRecord, mode: u32): MetaRecord {
    r.(mode := Perm(mode), have := r.have.(mode := true))
  }

  function OwnerSet(r: MetaRecord, uid: u32, gid: u32): MetaRecord {
    var r1 := if uid != NONE then r.(uid := uid, have := r.have.(uid := true)) else r;
    if gid != NONE then r1.(gid := gid, have := r1.have.(gid := true)) else r1
  }

  function FifoSet(r: MetaRecord): MetaRecord { r.(have := r.have.(fifo := true)) }

  /** Record every chmod, whatever the host's inode says. */
  function KeepMode(n: Table, p: string, mode: u32): Table { n[p := ModeSet(At(n, p), mode)] }

  /** Record every chown. */
  function KeepOwner(n: Table, p: string, uid: u32, gid: u32): Table { n[p := OwnerSet(At(n, p), uid, gid)] }

  function KeepFifo(n: Table, p: string): Table { n[p := FifoSet(At(n, p))] }

  function KeepRename(n: Table, from: string, to: string): Table {
    if from in n then (n - {from})[to := n[from]] else n - {from, to}
  }

  // ----- how the two stores relate ---------------------------------------------------

  /** `r` shows whatever `n` shows, a symlink's mode apart. Where `r` has dropped a mode, the host
      inode that was seen at that moment carries it. */
  ghost predicate Shows(r: MetaRecord, n: MetaRecord, seen: Option<nat>, link: bool) {
    && (if r.have.uid then r.uid else 0) == (if n.have.uid then n.uid else 0)
    && (if r.have.gid then r.gid else 0) == (if n.have.gid then n.gid else 0)
    && r.have.fifo == n.have.fifo
    && (!link && r.have.mode ==> n.have.mode && Perm(r.mode) == Perm(n.mode))
    && (!link && !r.have.mode && n.have.mode ==> seen.Some? && Perm(seen.value) == Perm(n.mode))
  }

  function SeenAt(seen: map<string, nat>, p: string): Option<nat> { if p in seen then Some(seen[p]) else None }

  /** On every path the store shows what keeping everything would, the mode of symlinks apart. */
  ghost predicate Agrees(t: Table, n: Table, seen: map<string, nat>, symlinks: set<string>) {
    forall p :: Shows(At(t, p), At(n, p), SeenAt(seen, p), p in symlinks)
  }

  /** Hence no stat can tell them apart, on an inode with the permissions that were seen. */
  lemma SameStat(r: MetaRecord, n: MetaRecord, seen: Option<nat>, host: nat)
    requires Shows(r, n, seen, false) && (seen.Some? ==> Perm(seen.value) == Perm(host)) && host < 65536
    ensures GuestStat(host, r) == GuestStat(host, n)
  {
    if !r.have.mode && n.have.mode {
      var h := if r.have.fifo && FileType(host) == REGULAR then host - REGULAR + FIFO else host;
      assert h == FileType(h) + Perm(h) && Perm(h) == Perm(host);
    }
  }

  /** The owner every path shows, symlinks included, is the same. */
  ghost predicate SameOwners(t: Table, u: Table) {
    forall p :: GuestStat(0, At(t, p)).uid == GuestStat(0, At(u, p)).uid
             && GuestStat(0, At(t, p)).gid == GuestStat(0, At(u, p)).gid
  }

  lemma AgreeingOwners(t: Table, n: Table, seen: map<string, nat>, symlinks: set<string>)
    requires Agrees(t, n, seen, symlinks)
    ensures SameOwners(t, n) && SameOwners(n, t)
  {
    forall p ensures Shows(At(t, p), At(n, p), SeenAt(seen, p), p in symlinks) {}
  }

  /** Changing what is kept at one path leaves the others in agreement. */
  lemma AgreesAt(t: Table, n: Table, seen: map<string, nat>, symlinks: set<string>, t2: Table, n2: Table,
                 seen2: map<string, nat>, p: string)
    requires Agrees(t, n, seen, symlinks)
    requires forall q :: q != p ==>
      At(t2, q) == At(t, q) && At(n2, q) == At(n, q) && SeenAt(seen2, q) == SeenAt(seen, q)
    requires Shows(At(t2, p), At(n2, p), SeenAt(seen2, p), p in symlinks)
    ensures Agrees(t2, n2, seen2, symlinks)
  {
  }

  ghost predicate NoneRedundant(t: Table) {
    forall p :: p in t ==> !Redundant(t[p]) && (!t[p].have.nlink ==> t[p].nlink == 0)
  }

  /** A record that is dropped is one that shows nothing of its own, on any inode, and counts no
      links. */
  lemma RedundantIff(r: MetaRecord)
    ensures Redundant(r) <==> !r.have.nlink && forall host :: host < 65536 ==> GuestStat(host, r) == Stat(host, 0, 0)
  {
    if !r.have.nlink && forall host :: host < 65536 ==> GuestStat(host, r) == Stat(host, 0, 0) {
      var regular, other := 0x8000, 0x8001;
      assert GuestStat(regular, r) == Stat(regular, 0, 0) && GuestStat(other, r) == Stat(other, 0, 0);
      assert FileType(regular) == REGULAR == FileType(other) && FileType(regular - REGULAR + FIFO) == FIFO;
    }
  }

  function WithoutMode(r: MetaRecord): MetaRecord { r.(have := r.have.(mode := false)) }

  /** What the store holds after a chmod on an inode that now shows `host`. */
  function ModeKept(t: Table, p: string, mode: u32, host: u32): Table {
    if host != NONE && Perm(host) == Perm(mode)
    then if p in t then Apply(t, Put(p, WithoutMode(t[p]))) else t
    else Apply(t, Put(p, ModeSet(At(t, p), mode)))
  }

  function OwnerKept(t: Table, p: string, uid: u32, gid: u32): Table {
    if p !in t && (uid == 0 || uid == NONE) && (gid == 0 || gid == NONE) then t
    else Apply(t, Put(p, OwnerSet(At(t, p), uid, gid)))
  }

  function SeenAfterChmod(seen: map<string, nat>, p: string, host: u32): map<string, nat> {
    if host != NONE then seen[p := host as nat] else seen - {p}
  }

  /** A redundant record shows what no record shows. */
  lemma PutShows(t: Table, p: string, r: MetaRecord, n: MetaRecord, seen: Option<nat>, link: bool)
    requires Shows(r, n, seen, link)
    ensures Shows(At(Apply(t, Put(p, r)), p), n, seen, link)
  {
  }

  lemma PutElsewhere(t: Table, p: string, r: MetaRecord)
    requires NoneRedundant(t) && (!r.have.nlink ==> r.nlink == 0)
    ensures NoneRedundant(Apply(t, Put(p, r)))
    ensures forall q :: q != p ==> At(Apply(t, Put(p, r)), q) == At(t, q)
  {
  }

  /** Dropping a mode the inode carries, and with it a record that says nothing more,
      is invisible. */
  lemma ModeAgrees(t: Table, n: Table, seen: map<string, nat>, symlinks: set<string>, p: string, mode: u32, host: u32)
    requires NoneRedundant(t) && Agrees(t, n, seen, symlinks)
    ensures NoneRedundant(ModeKept(t, p, mode, host))
    ensures Agrees(ModeKept(t, p, mode, host), KeepMode(n, p, mode), SeenAfterChmod(seen, p, host), symlinks)
  {
    var t2, s2 := ModeKept(t, p, mode, host), SeenAfterChmod(seen, p, host);
    var r := if host != NONE && Perm(host) == Perm(mode) then WithoutMode(At(t, p)) else ModeSet(At(t, p), mode);
    PutElsewhere(t, p, r);
    assert Shows(At(t, p), At(n, p), SeenAt(seen, p), p in symlinks);
    PutShows(t, p, r, ModeSet(At(n, p), mode), SeenAt(s2, p), p in symlinks);
    AgreesAt(t, n, seen, symlinks, t2, KeepMode(n, p, mode), s2, p);
  }

  /** So is not recording root:root. */
  lemma OwnerAgrees(t: Table, n: Table, seen: map<string, nat>, symlinks: set<string>, p: string, uid: u32, gid: u32)
    requires NoneRedundant(t) && Agrees(t, n, seen, symlinks)
    ensures NoneRedundant(OwnerKept(t, p, uid, gid))
    ensures Agrees(OwnerKept(t, p, uid, gid), KeepOwner(n, p, uid, gid), seen, symlinks)
  {
    PutElsewhere(t, p, OwnerSet(At(t, p), uid, gid));
    OwnerShows(At(t, p), At(n, p), SeenAt(seen, p), p in symlinks, uid, gid);
    PutShows(t, p, OwnerSet(At(t, p), uid, gid), OwnerSet(At(n, p), uid, gid), SeenAt(seen, p), p in symlinks);
    AgreesAt(t, n, seen, symlinks, OwnerKept(t, p, uid, gid), KeepOwner(n, p, uid, gid), seen, p);
  }

  lemma OwnerShows(r: MetaRecord, n: MetaRecord, seen: Option<nat>, link: bool, uid: u32, gid: u32)
    requires Shows(r, n, seen, link)
    ensures Shows(OwnerSet(r, uid, gid), OwnerSet(n, uid, gid), seen, link)
  {
  }

  lemma FifoAgrees(t: Table, n: Table, seen: map<string, nat>, symlinks: set<string>, p: string)
    requires NoneRedundant(t) && Agrees(t, n, seen, symlinks)
    ensures NoneRedundant(KeepFifo(t, p)) && Agrees(KeepFifo(t, p), KeepFifo(n, p), seen, symlinks)
    ensures Apply(t, Put(p, FifoSet(At(t, p)))) == KeepFifo(t, p)
  {
    PutElsewhere(t, p, FifoSet(At(t, p)));
    assert Shows(At(t, p), At(n, p), SeenAt(seen, p), p in symlinks);
    AgreesAt(t, n, seen, symlinks, KeepFifo(t, p), KeepFifo(n, p), seen, p);
  }

  lemma ForgetAgrees(t: Table, n: Table, seen: map<string, nat>, symlinks: set<string>, p: string)
    requires NoneRedundant(t) && Agrees(t, n, seen, symlinks)
    ensures NoneRedundant(t - {p}) && Agrees(t - {p}, n - {p}, seen - {p}, symlinks - {p})
  {
    forall q ensures Shows(At(t - {p}, q), At(n - {p}, q), SeenAt(seen - {p}, q), q in symlinks - {p}) {
      assert q == p || Shows(At(t, q), At(n, q), SeenAt(seen, q), q in symlinks);
    }
  }

  function SeenMoved(seen: map<string, nat>, from: string, to: string): map<string, nat> {
    (seen - {from, to}) + (if from in seen then map[to := seen[from]] else map[])
  }

  function LinksMoved(symlinks: set<string>, from: string, to: string): set<string> {
    (symlinks - {from, to}) + (if from in symlinks then {to} else {})
  }

  lemma RenameAgrees(t: Table, n: Table, seen: map<string, nat>, symlinks: set<string>, from: string, to: string)
    requires NoneRedundant(t) && Agrees(t, n, seen, symlinks)
    ensures NoneRedundant(KeepRename(t, from, to))
    ensures Agrees(KeepRename(t, from, to), KeepRename(n, from, to), SeenMoved(seen, from, to),
      LinksMoved(symlinks, from, to))
  {
    var t2, n2, s2, l2 := KeepRename(t, from, to), KeepRename(n, from, to), SeenMoved(seen, from, to),
        LinksMoved(symlinks, from, to);
    forall q ensures Shows(At(t2, q), At(n2, q), SeenAt(s2, q), q in l2) {
      var o := if q == to then from else q;
      assert (q == from && q != to) || Shows(At(t, o), At(n, o), SeenAt(seen, o), o in symlinks);
    }
  }

  // ----- the store's calls, and what each writes -----------------------------------------

  datatype Op = Chmod(path: string, mode: u32, host: u32) | Chown(path: string, uid: u32, gid: u32)
              | Mkfifo(path: string) | Carry(from: string, to: string) | Remove(path: string)

  function Paths(op: Op): set<string> { if op.Carry? then {op.from, op.to} else {op.path} }

  /** What the store holds after a call. */
  function Kept(t: Table, op: Op): Table {
    match op
    case Chmod(p, mode, host) => ModeKept(t, p, mode, host)
    case Chown(p, uid, gid) => OwnerKept(t, p, uid, gid)
    case Mkfifo(p) => KeepFifo(t, p)
    case Carry(from, to) => KeepRename(t, from, to)
    case Remove(p) => t - {p}
  }

  /** What the store that keeps everything holds after it. */
  function AllKept(n: Table, op: Op): Table {
    match op
    case Chmod(p, mode, _) => KeepMode(n, p, mode)
    case Chown(p, uid, gid) => KeepOwner(n, p, uid, gid)
    case Mkfifo(p) => KeepFifo(n, p)
    case Carry(from, to) => KeepRename(n, from, to)
    case Remove(p) => n - {p}
  }

  function SeenAfter(seen: map<string, nat>, op: Op): map<string, nat> {
    match op
    case Chmod(p, _, host) => SeenAfterChmod(seen, p, host)
    case Carry(from, to) => SeenMoved(seen, from, to)
    case Remove(p) => seen - {p}
    case _ => seen
  }

  function LinksAfter(symlinks: set<string>, op: Op): set<string> {
    match op
    case Carry(from, to) => LinksMoved(symlinks, from, to)
    case Remove(p) => symlinks - {p}
    case _ => symlinks
  }

  function PutOrGone(p: string, r: MetaRecord): Change { if Redundant(r) then Gone(p) else Put(p, r) }

  /** The lines a call appends, none when nothing changes. */
  function Changes(t: Table, op: Op): seq<Change> {
    match op
    case Chmod(p, mode, host) =>
      if host == NONE || Perm(host) != Perm(mode) then [Put(p, ModeSet(At(t, p), mode))]
      else if p in t then [PutOrGone(p, WithoutMode(t[p]))] else []
    case Chown(p, uid, gid) =>
      if p !in t && (uid == 0 || uid == NONE) && (gid == 0 || gid == NONE) then []
      else [PutOrGone(p, OwnerSet(At(t, p), uid, gid))]
    case Mkfifo(p) => [Put(p, FifoSet(At(t, p)))]
    case Carry(from, to) =>
      if from in t then [Gone(from), Put(to, t[from])] else if to in t then [Gone(to)] else []
    case Remove(p) => if p in t then [Gone(p)] else []
  }

  /** A chmod keeps a mode just where the inode does not carry it, and one that changes nothing
      leaves no line. */
  lemma ChmodKeeps(t: Table, p: string, mode: u32, host: u32)
    ensures At(ModeKept(t, p, mode, host), p).have.mode <==> host == NONE || Perm(host) != Perm(mode)
    ensures host != NONE && Perm(host) == Perm(mode) && p !in t ==>
      ModeKept(t, p, mode, host) == t && Changes(t, Chmod(p, mode, host)) == []
    ensures |Changes(t, Chmod(p, mode, host))| <= 1
  {
  }

  /** Nor does a chown to root of a path without a record. */
  lemma ChownKeeps(t: Table, p: string, uid: u32, gid: u32)
    ensures p !in t && (uid == 0 || uid == 0xffff_ffff) && (gid == 0 || gid == 0xffff_ffff) ==>
      OwnerKept(t, p, uid, gid) == t && Changes(t, Chown(p, uid, gid)) == []
    ensures |Changes(t, Chown(p, uid, gid))| <= 1
  {
  }

  lemma FoldOne(t: Table, c: Change)
    ensures Fold(Apply, t, [c]) == Apply(t, c)
  {
    assert [c][1..] == [];
  }

  lemma FoldTwo(t: Table, c: Change, d: Change)
    ensures Fold(Apply, t, [c, d]) == Apply(Apply(t, c), d)
  {
    assert [c, d][1..] == [d];
    FoldOne(Apply(t, c), d);
  }

  /** The lines of a call amount to the call on the table, and on any table with the same
      paths they leave the same record at the call's paths and all others alone. */
  lemma ChangesGive(t: Table, j: Table, op: Op)
    requires NoneRedundant(t) && j.Keys == t.Keys
    ensures var t2, j2 := Fold(Apply, t, Changes(t, op)), Fold(Apply, j, Changes(t, op));
      && t2 == Kept(t, op) && j2.Keys == t2.Keys
      && (forall q :: q in Paths(op) ==> At(j2, q) == At(t2, q))
      && (forall q :: q !in Paths(op) ==> At(j2, q) == At(j, q))
  {
    var cs := Changes(t, op);
    if |cs| == 1 {
      assert cs == [cs[0]];
      FoldOne(t, cs[0]);
      FoldOne(j, cs[0]);
      if op.Carry? { assert Kept(t, op) == t - {op.to}; }
    } else if |cs| == 2 {
      assert op.Carry?;
      FoldTwo(t, cs[0], cs[1]);
      FoldTwo(j, cs[0], cs[1]);
      CarryGives(t, j, op.from, op.to);
    } else {
      assert Kept(t, op) == t;
    }
  }

  lemma CarryGives(t: Table, j: Table, from: string, to: string)
    requires NoneRedundant(t) && j.Keys == t.Keys && from in t
    ensures var t2, j2 := Apply(Apply(t, Gone(from)), Put(to, t[from])), Apply(Apply(j, Gone(from)), Put(to, t[from]));
      && t2 == KeepRename(t, from, to) && j2.Keys == t2.Keys
      && (forall q :: q in {from, to} ==> At(j2, q) == At(t2, q))
      && (forall q :: q !in {from, to} ==> At(j2, q) == At(j, q))
  {
    var j2 := (j - {from})[to := t[from]];
    assert Apply(Apply(j, Gone(from)), Put(to, t[from])) == j2;
  }

  /** A table that leaves every call's paths as the store does agrees as the store does. */
  lemma MirrorAgrees(j: Table, n: Table, seen: map<string, nat>, symlinks: set<string>, op: Op, t2: Table, j2: Table)
    requires Agrees(j, n, seen, symlinks)
    requires Agrees(t2, AllKept(n, op), SeenAfter(seen, op), LinksAfter(symlinks, op))
    requires forall q :: q in Paths(op) ==> At(j2, q) == At(t2, q)
    requires forall q :: q !in Paths(op) ==> At(j2, q) == At(j, q)
    ensures Agrees(j2, AllKept(n, op), SeenAfter(seen, op), LinksAfter(symlinks, op))
  {
    forall q
      ensures Shows(At(j2, q), At(AllKept(n, op), q), SeenAt(SeenAfter(seen, op), q), q in LinksAfter(symlinks, op))
    {
      if q in Paths(op) {
        assert Shows(At(t2, q), At(AllKept(n, op), q), SeenAt(SeenAfter(seen, op), q), q in LinksAfter(symlinks, op));
      } else {
        assert Shows(At(j, q), At(n, q), SeenAt(seen, q), q in symlinks);
        ElsewhereSame(n, seen, symlinks, op, q);
      }
    }
  }

  lemma ElsewhereSame(n: Table, seen: map<string, nat>, symlinks: set<string>, op: Op, q: string)
    requires q !in Paths(op)
    ensures At(AllKept(n, op), q) == At(n, q) && SeenAt(SeenAfter(seen, op), q) == SeenAt(seen, q)
    ensures q in LinksAfter(symlinks, op) <==> q in symlinks
  {
  }

  lemma KeptAgrees(t: Table, n: Table, seen: map<string, nat>, symlinks: set<string>, op: Op)
    requires NoneRedundant(t) && Agrees(t, n, seen, symlinks)
    ensures NoneRedundant(Kept(t, op))
    ensures Agrees(Kept(t, op), AllKept(n, op), SeenAfter(seen, op), LinksAfter(symlinks, op))
  {
    match op {
      case Chmod(p, mode, host) => ModeAgrees(t, n, seen, symlinks, p, mode, host);
      case Chown(p, uid, gid) => OwnerAgrees(t, n, seen, symlinks, p, uid, gid);
      case Mkfifo(p) => FifoAgrees(t, n, seen, symlinks, p);
      case Carry(from, to) => RenameAgrees(t, n, seen, symlinks, from, to);
      case Remove(p) => ForgetAgrees(t, n, seen, symlinks, p);
    }
  }

  /** The journal's table has the store's paths, and shows what the store shows. */
  ghost predicate Mirrors(j: Table, t: Table, n: Table, seen: map<string, nat>, symlinks: set<string>) {
    j.Keys == t.Keys && Agrees(j, n, seen, symlinks)
  }

  /** The store and its journal both show what keeping everything would. */
  ghost predicate Sound(t: Table, j: Table, n: Table, seen: map<string, nat>, symlinks: set<string>) {
    NoneRedundant(t) && Agrees(t, n, seen, symlinks) && Mirrors(j, t, n, seen, symlinks)
  }

  /** One call on the store and one on its journal. */
  lemma CallAgrees(t: Table, j: Table, n: Table, seen: map<string, nat>, symlinks: set<string>, op: Op)
    requires Sound(t, j, n, seen, symlinks)
    ensures var t2, j2 := Fold(Apply, t, Changes(t, op)), Fold(Apply, j, Changes(t, op));
      t2 == Kept(t, op) && Sound(t2, j2, AllKept(n, op), SeenAfter(seen, op), LinksAfter(symlinks, op))
  {
    ChangesGive(t, j, op);
    KeptAgrees(t, n, seen, symlinks, op);
    MirrorAgrees(j, n, seen, symlinks, op, Kept(t, op), Fold(Apply, j, Changes(t, op)));
  }

  /** The paths a call names can all be trusted to the journal. */
  predicate FitOp(op: Op) { forall p :: p in Paths(op) ==> Fit(p) }

  predicate Readable(log: seq<Change>) { forall i :: 0 <= i < |log| ==> Loggable(log[i]) }

  ghost predicate Fitting(t: Table) { forall p :: p in t ==> Fit(p) }

  lemma ChangesFit(t: Table, op: Op)
    requires NoneRedundant(t) && FitOp(op)
    ensures Readable(Changes(t, op))
    ensures Fitting(t) ==> Fitting(Kept(t, op))
  {
    var cs := Changes(t, op);
    forall i | 0 <= i < |cs| ensures Loggable(cs[i]) {
      assert cs[i].path in Paths(op);
      FitIsLoggable(cs[i]);
    }
  }

  lemma NextOp(f: (Table, Op) -> Table, t: Table, ops: seq<Op>, i: nat)
    requires i < |ops|
    ensures Fold(f, t, ops[..i + 1]) == f(Fold(f, t, ops[..i]), ops[i])
  {
    assert ops[..i + 1] == ops[..i] + [ops[i]];
    FoldAppend(f, t, ops[..i], ops[i]);
  }

  class MetaStore {
    var table: Table
    const file: LogFile<Table, Change>
    /** The store that keeps everything, the host modes the store was shown, and the
        paths whose mode compaction dropped because they are symlinks. */
    ghost var naive: Table
    ghost var seen: map<string, nat>
    ghost var symlinks: set<string>

    /** What the journal's changes amount to; the table itself while there is none. */
    ghost function Journal(): Table
      reads this, file
    {
      if file.on then file.Folded() else table
    }

    ghost predicate Writable()
      reads this, file
    {
      file.apply == Apply && file.render == Render && file.Valid()
    }

    ghost predicate Valid()
      reads this, file
    {
      Writable() && Sound(table, Journal(), naive, seen, symlinks)
    }

    /** The journal's changes amount to the very table in memory. */
    ghost predicate Synced()
      reads this, file
    {
      Journal() == table
    }

    /** Every line of the journal can be read back. */
    ghost predicate Journaled()
      reads this, file
    {
      && Fitting(table)
      && (file.on ==>
            && Complete(file.base) && file.start == FoldLines(ReadLine, map[], file.base)
            && Readable(file.log))
    }

    constructor ()
      ensures Valid() && Synced() && Journaled() && fresh(file) && table == map[] && naive == map[] && !file.on
    {
      file := new LogFile<Table, Change>(Apply, Render, map[]);
      table, naive, seen, symlinks := map[], map[], map[], {};
    }

    /** Every change reaches the table and the journal together. */
    method Commit(c: Change)
      requires Writable()
      modifies this`table, file`text, file`log
      ensures Writable() && table == Apply(old(table), c) && Journal() == Apply(old(Journal()), c)
      ensures file.log == if file.on then old(file.log) + [c] else old(file.log)
    {
      table := Apply(table, c);
      file.Append(c);
    }

    /** The call's bookkeeping, once its lines are written. */
    twostate predicate Did(op: Op)
      reads this, file
    {
      && table == Fold(Apply, old(table), Changes(old(table), op))
      && Journal() == Fold(Apply, old(Journal()), Changes(old(table), op))
      && file.log == if file.on then old(file.log) + Changes(old(table), op) else old(file.log)
    }

    /** The bookkeeping of the store that keeps everything, beside a call's lines. */
    twostate predicate Noted(op: Op)
      reads this
    {
      && naive == AllKept(old(naive), op)
      && seen == SeenAfter(old(seen), op) && symlinks == LinksAfter(old(symlinks), op)
    }

    /** What every call keeps. */
    twostate lemma Concludes(op: Op)
      requires old(Valid()) && Writable() && file.on == old(file.on)
      requires file.base == old(file.base) && file.start == old(file.start)
      requires Did(op) && Noted(op)
      ensures Valid() && (old(Synced()) ==> Synced()) && table == Kept(old(table), op)
      ensures old(Journaled()) && FitOp(op) ==> Journaled()
    {
      CallAgrees(old(table), old(Journal()), old(naive), old(seen), old(symlinks), op);
      if FitOp(op) { ChangesFit(old(table), op); }
    }

    /** A guest chmod. `host` is the mode the host inode carries now, if known; when it
        carries what was asked for, no mode is kept. */
    method SetMode(p: string, mode: u32, host: u32)
      requires Valid()
      modifies this, file`text, file`log
      ensures Valid() && (old(Synced()) ==> Synced()) && Did(Chmod(p, mode, host))
      ensures old(Journaled()) && FitOp(Chmod(p, mode, host)) ==> Journaled()
      ensures table == ModeKept(old(table), p, mode, host)
      ensures naive == KeepMode(old(naive), p, mode)
      ensures seen == SeenAfterChmod(old(seen), p, host) && symlinks == old(symlinks)
    {
      naive, seen := KeepMode(naive, p, mode), SeenAfterChmod(seen, p, host);
      WriteMode(p, mode, host);
      Concludes(Chmod(p, mode, host));
    }

    method WriteMode(p: string, mode: u32, host: u32)
      requires Writable()
      modifies this`table, file`text, file`log
      ensures Writable() && Did(Chmod(p, mode, host))
    {
      if host != NONE && Perm(host) == Perm(mode) {
        if p !in table { return; }
        var r := WithoutMode(table[p]);
        WriteOne(if Redundant(r) then Gone(p) else Put(p, r));
      } else {
        WriteOne(Put(p, ModeSet(At(table, p), mode)));
      }
    }

    method WriteOne(c: Change)
      requires Writable()
      modifies this`table, file`text, file`log
      ensures Writable() && table == Fold(Apply, old(table), [c]) && Journal() == Fold(Apply, old(Journal()), [c])
      ensures file.log == if file.on then old(file.log) + [c] else old(file.log)
    {
      FoldOne(table, c);
      FoldOne(Journal(), c);
      Commit(c);
    }

    /** A guest chown; root:root on a path without a record leaves no trace. */
    method SetOwner(p: string, uid: u32, gid: u32)
      requires Valid()
      modifies this, file`text, file`log
      ensures Valid() && (old(Synced()) ==> Synced()) && Did(Chown(p, uid, gid))
      ensures old(Journaled()) && FitOp(Chown(p, uid, gid)) ==> Journaled()
      ensures table == OwnerKept(old(table), p, uid, gid)
      ensures naive == KeepOwner(old(naive), p, uid, gid) && seen == old(seen) && symlinks == old(symlinks)
    {
      naive := KeepOwner(naive, p, uid, gid);
      WriteOwner(p, uid, gid);
      Concludes(Chown(p, uid, gid));
    }

    method WriteOwner(p: string, uid: u32, gid: u32)
      requires Writable()
      modifies this`table, file`text, file`log
      ensures Writable() && Did(Chown(p, uid, gid))
    {
      if p !in table && (uid == 0 || uid == NONE) && (gid == 0 || gid == NONE) { return; }
      var r := OwnerSet(At(table, p), uid, gid);
      WriteOne(if Redundant(r) then Gone(p) else Put(p, r));
    }

    method SetFifo(p: string)
      requires Valid()
      modifies this, file`text, file`log
      ensures Valid() && (old(Synced()) ==> Synced()) && Did(Mkfifo(p))
      ensures old(Journaled()) && FitOp(Mkfifo(p)) ==> Journaled()
      ensures table == KeepFifo(old(table), p)
      ensures naive == KeepFifo(old(naive), p) && seen == old(seen) && symlinks == old(symlinks)
    {
      naive := KeepFifo(naive, p);
      WriteFifo(p);
      Concludes(Mkfifo(p));
    }

    method WriteFifo(p: string)
      requires Writable()
      modifies this`table, file`text, file`log
      ensures Writable() && Did(Mkfifo(p))
    {
      WriteOne(Put(p, FifoSet(At(table, p))));
    }

    /** An unlinked path starts afresh. */
    method Forget(p: string)
      requires Valid()
      modifies this, file`text, file`log
      ensures Valid() && (old(Synced()) ==> Synced()) && Did(Op.Remove(p))
      ensures old(Journaled()) && FitOp(Op.Remove(p)) ==> Journaled()
      ensures table == old(table) - {p} && naive == old(naive) - {p}
      ensures seen == old(seen) - {p} && symlinks == old(symlinks) - {p}
    {
      naive, seen, symlinks := naive - {p}, seen - {p}, symlinks - {p};
      WriteGone(p);
      Concludes(Op.Remove(p));
    }

    method WriteGone(p: string)
      requires Writable()
      modifies this`table, file`text, file`log
      ensures Writable() && Did(Op.Remove(p))
    {
      if p in table { WriteOne(Gone(p)); }
    }

    /** The record travels with the file, and replaces what was recorded at `to`. */
    method Rename(from: string, to: string)
      requires Valid()
      modifies this, file`text, file`log
      ensures Valid() && (old(Synced()) ==> Synced()) && Did(Carry(from, to))
      ensures old(Journaled()) && FitOp(Carry(from, to)) ==> Journaled()
      ensures table == KeepRename(old(table), from, to) && naive == KeepRename(old(naive), from, to)
      ensures seen == SeenMoved(old(seen), from, to) && symlinks == LinksMoved(old(symlinks), from, to)
    {
      naive, seen, symlinks := KeepRename(naive, from, to), SeenMoved(seen, from, to), LinksMoved(symlinks, from, to);
      Move(from, to);
      Concludes(Carry(from, to));
    }

    method Move(from: string, to: string)
      requires Writable()
      modifies this`table, file`text, file`log
      ensures Writable() && Did(Carry(from, to))
    {
      if from in table {
        var r := table[from];
        FoldTwo(table, Gone(from), Put(to, r));
        FoldTwo(Journal(), Gone(from), Put(to, r));
        Commit(Gone(from));
        Commit(Put(to, r));
      } else if to in table {
        WriteOne(Gone(to));
      }
    }

    // ----- runs ---------------------------------------------------------------------

    /** Any one call; a journal that could be read back still can. */
    method Perform(op: Op)
      requires Valid()
      modifies this, file`text, file`log
      ensures Valid()
      ensures (old(Synced()) ==> Synced()) && table == Kept(old(table), op) && naive == AllKept(old(naive), op)
      ensures old(Journaled()) && FitOp(op) ==> Journaled()
    {
      match op {
        case Chmod(p, mode, host) => SetMode(p, mode, host);
        case Chown(p, uid, gid) => SetOwner(p, uid, gid);
        case Mkfifo(p) => SetFifo(p);
        case Carry(from, to) => Rename(from, to);
        case Remove(p) => Forget(p);
      }
    }

    /** Any run of calls over paths the journal can be trusted with. */
    method Run(ops: seq<Op>)
      requires Valid() && Journaled() && forall i :: 0 <= i < |ops| ==> FitOp(ops[i])
      modifies this, file`text, file`log
      ensures Valid() && Journaled() && (old(Synced()) ==> Synced())
      ensures table == Fold(Kept, old(table), ops) && naive == Fold(AllKept, old(naive), ops)
    {
      var i := 0;
      assert ops[..0] == [];
      while i < |ops|
        invariant 0 <= i <= |ops| && Valid() && Journaled() && (old(Synced()) ==> Synced())
        invariant table == Fold(Kept, old(table), ops[..i]) && naive == Fold(AllKept, old(naive), ops[..i])
      {
        NextOp(Kept, old(table), ops, i);
        NextOp(AllKept, old(naive), ops, i);
        Perform(ops[i]);
        i := i + 1;
      }
      assert ops[..i] == ops;
    }

    /** THE JOURNAL AT ANY MOMENT. Its text folds to what its changes amount to: the very
        table, unless a compaction trimmed modes and rewrote nothing; and even then no
        stat can tell the replayed table, the table and the store that keeps
        everything apart, on inodes with the permissions that were seen. */
    lemma ReplayShows()
      requires Valid() && Journaled() && file.on
      ensures Complete(file.text) && FoldLines(ReadLine, map[], file.text) == Journal()
      ensures Synced() ==> FoldLines(ReadLine, map[], file.text) == table
      ensures forall p, host :: Steady(this, p, host) ==>
        GuestStat(host, At(Journal(), p)) == GuestStat(host, At(table, p)) == GuestStat(host, At(naive, p))
      ensures SameOwners(Journal(), table) && SameOwners(table, naive)
    {
      JournalRebuilds(file.base, file.log);
      JournalComplete(file.base, file.log);
      AgreeingOwners(table, naive, seen, symlinks);
      AgreeingOwners(Journal(), naive, seen, symlinks);
      forall p, host | Steady(this, p, host)
        ensures GuestStat(host, At(Journal(), p)) == GuestStat(host, At(table, p)) == GuestStat(host, At(naive, p))
      {
        SameStat(At(table, p), At(naive, p), SeenAt(seen, p), host);
        SameStat(At(Journal(), p), At(naive, p), SeenAt(seen, p), host);
      }
    }

    /** Start: fold the journal found, and in the root process compact. `inode` has the
        mode of every path the host can lstat. A mode the inode already carries is
        dropped, the journal is rewritten only when a record went or it is mostly dead. */
    method Attach(text: string, compact: bool, inode: map<string, nat>) returns (rewritten: bool)
      requires Valid() && table == map[]
      modifies this, file
      ensures Valid() && naive == FoldLines(ReadLine, map[], text) && file.on
      ensures table == if compact then Compacted(naive, inode) else naive
      ensures compact ==> seen == inode && symlinks == Symlinks(inode)
      ensures !compact ==> symlinks == {}
      ensures rewritten <==> compact && (|table| < |naive| || (LineCount(text) > 1024 && LineCount(text) > 4 * |table|))
      ensures !compact || rewritten ==> Synced()
      ensures Complete(text) && Fitting(naive) ==> Journaled()
    {
      var lines := Load(text);
      rewritten := false;
      if compact { rewritten := Prune(lines, inode); }
    }

    method Prune(lines: nat, inode: map<string, nat>) returns (rewritten: bool)
      requires Valid() && Synced() && table == naive && file.on
      modifies this, file
      ensures Valid() && naive == old(naive) && table == Compacted(naive, inode) && file.on
      ensures seen == inode && symlinks == Symlinks(inode)
      ensures rewritten <==> |table| < |naive| || (lines > 1024 && lines > 4 * |table|)
      ensures rewritten ==> Synced()
      ensures old(Journaled()) ==> Journaled()
    {
      ghost var all := table;
      RewrittenMirrors(all, inode);
      var pruned := Compact(inode);
      rewritten := pruned > 0 || (lines > 1024 && lines > 4 * |table|);
      if rewritten { Rewrite(); } else { TrimmedMirrors(all, inode); }
      seen, symlinks := inode, Symlinks(inode);
    }

    method Load(text: string) returns (lines: nat)
      requires Valid() && table == map[]
      modifies this, file
      ensures Valid() && table == naive == FoldLines(ReadLine, map[], text)
      ensures seen == map[] && symlinks == {} && lines == LineCount(text)
      ensures file.on && file.text == text == file.base && file.start == naive && file.log == [] && Synced()
    {
      lines := Replay(text);
      naive, seen, symlinks := table, map[], {};
      SelfSound(table);
      file.Reopen(text, table);
    }

    method Replay(text: string) returns (lines: nat)
      requires table == map[]
      modifies this`table
      ensures NoneRedundant(table) && table == FoldLines(ReadLine, map[], text) && lines == LineCount(text)
    {
      var rest := text;
      lines := 0;
      while rest != ""
        invariant NoneRedundant(table)
        invariant FoldLines(ReadLine, table, rest) == FoldLines(ReadLine, map[], text)
        invariant lines + LineCount(rest) == LineCount(text)
        decreases |rest|
      {
        var line := FirstLine(rest);
        ReadLineKeeps(table, line);
        table, rest, lines := ReadLine(table, line), rest[|line|..], lines + 1;
      }
    }

    method Compact(inode: map<string, nat>) returns (pruned: nat)
      modifies this`table
      ensures table == Compacted(old(table), inode) && pruned == |old(table)| - |table|
    {
      pruned := 0;
      var todo := table.Keys;
      ghost var all := table;
      ghost var goal := Compacted(all, inode);
      while todo != {}
        invariant todo <= table.Keys <= all.Keys
        invariant forall p :: p in todo ==> table[p] == all[p]
        invariant forall p :: p in all && p !in todo ==> (p in table <==> p in goal)
        invariant forall p :: p in table && p !in todo ==> table[p] == goal[p]
        invariant |table| + pruned == |all|
      {
        var p :| p in todo;
        todo := todo - {p};
        var gone := CompactOne(p, inode);
        pruned := pruned + gone;
      }
    }

    method CompactOne(p: string, inode: map<string, nat>) returns (gone: nat)
      requires p in table
      modifies this`table
      ensures var r := Trimmed(old(table)[p], p, inode);
        table == if Redundant(r) then old(table) - {p} else old(table)[p := r]
      ensures |table| + gone == |old(table)|
    {
      var r := Trimmed(table[p], p, inode);
      if Redundant(r) {
        assert table.Keys == (table - {p}).Keys + {p};
        table, gone := table - {p}, 1;
      } else {
        assert table[p := r].Keys == table.Keys;
        table, gone := table[p := r], 0;
      }
    }

    /** The journal becomes exactly the live records. */
    method Rewrite()
      requires file.apply == Apply && file.render == Render && NoneRedundant(table)
      modifies file
      ensures file.Valid() && file.on && file.base == "" && file.start == map[] && file.Folded() == table
      ensures Fitting(table) ==> Readable(file.log)
    {
      file.Reopen("", map[]);
      var todo := table.Keys;
      ghost var done: Table := map[];
      while todo != {}
        invariant todo <= table.Keys && file.Valid() && file.on && file.base == "" && file.start == map[]
        invariant file.Folded() == done
        invariant done.Keys == table.Keys - todo && forall p :: p in done ==> done[p] == table[p]
        invariant Fitting(table) ==> Readable(file.log)
      {
        var p :| p in todo;
        todo := todo - {p};
        done := done[p := table[p]];
        WriteLive(p);
      }
      assert done == table;
    }

    method WriteLive(p: string)
      requires p in table
      requires NoneRedundant(table) && file.apply == Apply && file.render == Render && file.Valid() && file.on
      modifies file`text, file`log
      ensures file.Valid() && file.Folded() == old(file.Folded())[p := table[p]]
      ensures Fit(p) && Readable(old(file.log)) ==> Readable(file.log)
    {
      if Fit(p) { FitIsLoggable(Put(p, table[p])); }
      file.Append(Put(p, table[p]));
    }
  }

  // ----- compaction ------------------------------------------------------------------

  /** The record as compaction leaves it on the inode it looked at. */
  function Trimmed(r: MetaRecord, p: string, inode: map<string, nat>): MetaRecord {
    if r.have.mode && p in inode && (FileType(inode[p]) == SYMLINK || Perm(inode[p]) == r.mode) then WithoutMode(r)
    else r
  }

  function Compacted(t: Table, inode: map<string, nat>): Table {
    map p | p in t && !Redundant(Trimmed(t[p], p, inode)) :: Trimmed(t[p], p, inode)
  }

  function Symlinks(inode: map<string, nat>): set<string> { set p | p in inode && FileType(inode[p]) == SYMLINK }

  /** Compaction is invisible but for the mode of symlinks, which nobody asks for. */
  lemma CompactionAgrees(t: Table, inode: map<string, nat>)
    requires NoneRedundant(t)
    ensures NoneRedundant(Compacted(t, inode))
    ensures Agrees(Compacted(t, inode), t, inode, Symlinks(inode))
  {
    forall p ensures Shows(At(Compacted(t, inode), p), At(t, p), SeenAt(inode, p), p in Symlinks(inode)) {
      var r := Trimmed(At(t, p), p, inode);
      assert Shows(r, At(t, p), SeenAt(inode, p), p in Symlinks(inode));
    }
  }

  /** WHAT COMPACTION DOES, to symlinks as to all else: a mode goes just where the inode is a
      symlink or carries it, nothing else a record says is lost, and a record goes just when
      it then says nothing. */
  lemma CompactionIs(t: Table, inode: map<string, nat>, p: string)
    requires NoneRedundant(t)
    ensures var before, after := At(t, p), At(Compacted(t, inode), p);
      && (after.have.mode <==>
            before.have.mode && !(p in inode && (FileType(inode[p]) == SYMLINK || Perm(inode[p]) == before.mode)))
      && (after.have.mode ==> after.mode == before.mode)
      && GuestStat(0, after).uid == GuestStat(0, before).uid && GuestStat(0, after).gid == GuestStat(0, before).gid
      && after.have.fifo == before.have.fifo && after.have.nlink == before.have.nlink
      && (after.have.nlink ==> after.nlink == before.nlink)
      && (p in Compacted(t, inode) <==> p in t && !Redundant(after))
  {
  }

  /** A compaction that dropped no record kept every path. */
  lemma SamePaths(t: Table, inode: map<string, nat>)
    requires |Compacted(t, inode)| == |t|
    ensures Compacted(t, inode).Keys == t.Keys
  {
    var c := Compacted(t, inode).Keys;
    if c < t.Keys { Smaller(c, t.Keys); }
  }

  lemma Smaller(a: set<string>, b: set<string>)
    requires a < b
    ensures |a| < |b|
  {
    assert b == a + (b - a);
    assert b - a != {};
  }

  /** Where compaction only trims, the journal it leaves alone still shows the same. */
  lemma TrimmedMirrors(t: Table, inode: map<string, nat>)
    requires |Compacted(t, inode)| == |t|
    requires NoneRedundant(t)
    ensures Sound(Compacted(t, inode), t, t, inode, Symlinks(inode))
  {
    CompactionAgrees(t, inode);
    SamePaths(t, inode);
    SelfShows(t, inode, Symlinks(inode));
  }

  lemma RewrittenMirrors(t: Table, inode: map<string, nat>)
    requires NoneRedundant(t)
    ensures Sound(Compacted(t, inode), Compacted(t, inode), t, inode, Symlinks(inode))
  {
    CompactionAgrees(t, inode);
  }

  lemma SelfShows(t: Table, seen: map<string, nat>, symlinks: set<string>)
    ensures Agrees(t, t, seen, symlinks)
  {
  }

  lemma JournalComplete(base: string, log: seq<Change>)
    requires Complete(base) && Readable(log)
    ensures Complete(base + Written(Render, log))
  {
    forall i | 0 <= i < |log| ensures IsLine(Render(log[i]), LINE_MAX) { RenderIsLine(log[i]); }
    WrittenComplete(Render, log);
    CompleteJoin(base, Written(Render, log));
  }

  /** A start and a run, and what the journal then holds. */
  method Session(text: string, compact: bool, inode: map<string, nat>, ops: seq<Op>) returns (store: MetaStore)
    requires Complete(text) && Fitting(FoldLines(ReadLine, map[], text)) && forall i :: 0 <= i < |ops| ==> FitOp(ops[i])
    ensures fresh(store) && store.Valid() && (!compact ==> store.Synced())
    ensures store.naive == Fold(AllKept, FoldLines(ReadLine, map[], text), ops)
    ensures Complete(store.file.text) && Fitting(FoldLines(ReadLine, map[], store.file.text))
    ensures store.Synced() ==> FoldLines(ReadLine, map[], store.file.text) == store.table
    ensures forall p, host :: Steady(store, p, host) ==>
      GuestStat(host, At(FoldLines(ReadLine, map[], store.file.text), p))
        == GuestStat(host, At(store.table, p)) == GuestStat(host, At(store.naive, p))
    ensures SameOwners(FoldLines(ReadLine, map[], store.file.text), store.table)
    ensures SameOwners(store.table, store.naive)
  {
    store := Started(text, compact, inode);
    store.Run(ops);
    store.ReplayShows();
  }

  method Started(text: string, compact: bool, inode: map<string, nat>) returns (store: MetaStore)
    requires Complete(text) && Fitting(FoldLines(ReadLine, map[], text))
    ensures fresh(store) && fresh(store.file) && store.Valid() && store.Journaled() && store.file.on
    ensures store.naive == FoldLines(ReadLine, map[], text) && (!compact ==> store.Synced())
    ensures store.table == if compact then Compacted(store.naive, inode) else store.naive
    ensures SameOwners(store.table, store.naive)
    ensures forall p, host :: Steady(store, p, host) ==>
      GuestStat(host, At(store.table, p)) == GuestStat(host, At(store.naive, p))
  {
    store := new MetaStore();
    var _ := store.Attach(text, compact, inode);
    store.ReplayShows();
  }

  /** A RESTART, after any start and any run: the journal found is read by a store of its
      own, compacting or not. Before it compacts it holds the same table, if the first start
      rewrote or did not compact, and it shows the guest the same in every case. Its journal
      is fit for the next start. */
  method Restart(text: string, compact: bool, inode: map<string, nat>, ops: seq<Op>, again: bool,
                 later: map<string, nat>)
      returns (was: MetaStore, now: MetaStore)
    requires Complete(text) && Fitting(FoldLines(ReadLine, map[], text)) && forall i :: 0 <= i < |ops| ==> FitOp(ops[i])
    ensures was.Valid() && now.Valid() && now.Journaled()
    ensures was.naive == Fold(AllKept, FoldLines(ReadLine, map[], text), ops)
    ensures was.Synced() ==> now.table == if again then Compacted(was.table, later) else was.table
    ensures !compact ==> was.Synced()
    ensures forall p, host :: Steady(was, p, host) && Steady(now, p, host) ==>
      GuestStat(host, At(now.table, p)) == GuestStat(host, At(was.table, p)) == GuestStat(host, At(was.naive, p))
    ensures SameOwners(now.table, was.table) && SameOwners(was.table, was.naive)
  {
    was := Session(text, compact, inode, ops);
    now := Started(was.file.text, again, later);
  }

  /** A path that is no symlink, on an inode with the mode the store last saw there. */
  ghost predicate Steady(store: MetaStore, p: string, host: nat)
    reads store
  {
    p !in store.symlinks && host < 65536 && (p in store.seen ==> Perm(store.seen[p]) == Perm(host))
  }

  lemma SelfSound(t: Table)
    requires NoneRedundant(t)
    ensures Sound(t, t, t, map[], {})
  {
    SelfShows(t, map[], {});
  }

  lemma ReadLineKeeps(t: Table, line: string)
    requires NoneRedundant(t)
    ensures NoneRedundant(ReadLine(t, line))
  {
  }

  /** Reading back the journal of a synchronised store gives the table, for every run
      whose paths fit the journal's lines. */
  lemma JournalRebuilds(base: string, log: seq<Change>)
    requires Complete(base) && Readable(log)
    ensures FoldLines(ReadLine, map[], base + Written(Render, log)) ==
      Fold(Apply, FoldLines(ReadLine, map[], base), log)
  {
    forall i | 0 <= i < |log| ensures ReadsBack(Apply, Render, ReadLine, log[i]) { ChangeReadsBack(log[i]); }
    FoldLinesAppend(ReadLine, map[], base, Written(Render, log));
    LogReadsBack(Apply, Render, ReadLine, FoldLines(ReadLine, map[], base), log);
  }
}
