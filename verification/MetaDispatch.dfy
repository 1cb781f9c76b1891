/** chmod, chown and the write-open repair of the dispatcher, over the shadow store. */
module MetaDispatch {
  import opened MetaRecords
  import opened MetaStores

  /** What the host made of a chmod: the inode now shows `perm` (all it was asked for,
      or what a mount or missing privilege left of it), or it refused, or the file is
      not there. */
  datatype Answer = Landed(perm: nat) | Refused | Missing

  /** `m | 0600`. */
  function OwnerRw(m: nat): (r: nat)
    ensures r / 512 == m / 512 && r % 128 == m % 128 && HasOwnerRw(r)
  {
    m / 512 * 512 + 384 + m % 128
  }

  /** `(m & 0600) == 0600`. */
  predicate HasOwnerRw(m: nat) { m / 128 % 4 == 3 }

  /** The type a guest sees: an emulated FIFO is a regular file on the host. */
  function ShownType(host: nat, r: MetaRecord): nat {
    if r.have.fifo && FileType(host) == REGULAR then FIFO else FileType(host)
  }

  /** After a chmod the guest sees the mode it asked for, whatever the host kept of it. */
  lemma ChmodShows(t: Table, p: string, mode: u32, landed: u32, host: nat)
    requires host < 65536 && (landed != NONE ==> Perm(landed) == Perm(host))
    ensures EffectiveMode(host, At(ModeKept(t, p, mode, landed), p)) == ShownType(host, At(t, p)) + Perm(mode)
    ensures var before, after := GuestStat(host, At(t, p)), GuestStat(host, At(ModeKept(t, p, mode, landed), p));
      after.uid == before.uid && after.gid == before.gid
    ensures forall q :: q != p ==> At(ModeKept(t, p, mode, landed), q) == At(t, q)
  {
    var r := At(ModeKept(t, p, mode, landed), p);
    assert r.have.fifo == At(t, p).have.fifo;
    var h := if r.have.fifo && FileType(host) == REGULAR then host - REGULAR + FIFO else host;
    assert FileType(h) == ShownType(host, At(t, p)) && Perm(h) == Perm(host);
    assert h == FileType(h) + Perm(h);
  }

  /** A chown shows exactly the components it set and changes no other. */
  lemma ChownShows(t: Table, p: string, uid: u32, gid: u32, host: nat)
    ensures var before, after := GuestStat(host, At(t, p)), GuestStat(host, At(OwnerKept(t, p, uid, gid), p));
      && after.mode == before.mode
      && after.uid == (if uid != NONE then uid else before.uid)
      && after.gid == (if gid != NONE then gid else before.gid)
    ensures forall q :: q != p ==> At(OwnerKept(t, p, uid, gid), q) == At(t, q)
  {
  }

  /** The FIFO mark shows a regular inode as a FIFO, with the permissions and owner shown before,
      and changes no other path. */
  lemma FifoShows(t: Table, p: string, host: nat)
    requires host < 65536
    ensures var before, after := GuestStat(host, At(t, p)), GuestStat(host, At(KeepFifo(t, p), p));
      && FileType(after.mode) == (if FileType(host) == 0x8000 then 0x1000 else FileType(host))
      && Perm(after.mode) == Perm(before.mode) && after.uid == before.uid && after.gid == before.gid
    ensures forall q :: q != p ==> At(KeepFifo(t, p), q) == At(t, q)
  {
    ModeIs(At(t, p), host);
    ModeIs(At(KeepFifo(t, p), p), host);
  }

  /** The end of mkfifo(2) on a host that forbids it, with an empty regular file made in its place
      and `mode` what the umask left of the mode asked for. */
  method Mkfifo(store: MetaStore, path: string, mode: u32, host: nat)
    requires store.Valid() && FileType(host) == REGULAR && host < 65536
    modifies store, store.file`text, store.file`log
    ensures store.Valid() && (old(store.Synced()) ==> store.Synced())
    ensures GuestStat(host, At(store.table, path)).mode == 0x1000 + Perm(mode)
    ensures var before, after := GuestStat(host, At(old(store.table), path)), GuestStat(host, At(store.table, path));
      after.uid == before.uid && after.gid == before.gid
    ensures forall q :: q != path ==> At(store.table, q) == At(old(store.table), q)
  {
    ChmodShows(store.table, path, mode, NONE, host);
    store.SetMode(path, mode, NONE);
    FifoShows(store.table, path, host);
    ModeIs(At(KeepFifo(store.table, path), path), host);
    store.SetFifo(path);
  }

  lemma Retyped(host: nat, perm: nat)
    requires host < 65536 && perm < 4096
    ensures var m := FileType(host) + perm; m < 65536 && FileType(m) == FileType(host) && Perm(m) == perm
  {
  }

  /** The tail of chmod(2) on a file or directory the lookup found. `host` is the mode of
      its inode, `ours` whether there is an upper copy to change, `statOk` whether the
      mode could be read back. */
  method Chmod(store: MetaStore, path: string, mode: u32, host: nat, ours: bool, answer: Answer, statOk: bool)
      returns (ok: bool, asked: nat, after: nat)
    requires store.Valid() && host < 65536 && FileType(host) != SYMLINK && (answer.Landed? ==> answer.perm < 4096)
    modifies store, store.file`text, store.file`log
    ensures store.Valid() && (old(store.Synced()) ==> store.Synced())
    ensures FileType(after) == FileType(host) && after < 65536
    ensures ok <==> !(ours && answer.Missing?)
    ensures asked == if FileType(host) == REGULAR then OwnerRw(Perm(mode)) else Perm(mode)
    ensures ok ==>
      EffectiveMode(after, At(store.table, path)) == ShownType(host, At(old(store.table), path)) + Perm(mode)
    ensures ok ==> after == if ours && answer.Landed? then FileType(host) + answer.perm else host
    ensures forall q :: q != path ==> At(store.table, q) == At(old(store.table), q)
    ensures !ok ==> store.table == old(store.table) && after == host
  {
    asked := if FileType(host) == REGULAR then OwnerRw(Perm(mode)) else Perm(mode);
    after := host;
    var landed: u32 := NONE;
    if ours {
      match answer {
        case Landed(perm) =>
          after := FileType(host) + perm;
          Retyped(host, perm);
          if statOk { landed := after; }
        case Missing => return false, asked, after;
        case Refused =>
      }
    }
    NoteMode(store, path, mode, landed, after);
    ok := true;
  }

  /** The mode asked for is recorded, unless that is what landed on the inode. */
  method NoteMode(store: MetaStore, path: string, mode: u32, landed: u32, host: nat)
    requires store.Valid() && host < 65536 && (landed != NONE ==> Perm(landed) == Perm(host))
    modifies store, store.file`text, store.file`log
    ensures store.Valid() && (old(store.Synced()) ==> store.Synced())
    ensures EffectiveMode(host, At(store.table, path)) == ShownType(host, At(old(store.table), path)) + Perm(mode)
    ensures forall q :: q != path ==> At(store.table, q) == At(old(store.table), q)
  {
    ChmodShows(store.table, path, mode, landed, host);
    store.SetMode(path, mode, landed);
  }

  // ----- removal and rename: the record goes before the host is asked ------------------

  predicate ShownFifo(r: MetaRecord, host: nat) { r.have.fifo && FileType(host) == REGULAR }
  function ShownPerm(r: MetaRecord, host: nat): nat { if r.have.mode then Perm(r.mode) else Perm(host) }
  function ShownUid(r: MetaRecord): nat { if r.have.uid then r.uid else 0 }
  function ShownGid(r: MetaRecord): nat { if r.have.gid then r.gid else 0 }

  /** Two records say the same of an inode. */
  predicate Alike(r: MetaRecord, s: MetaRecord, host: nat) {
    && ShownFifo(r, host) == ShownFifo(s, host) && ShownPerm(r, host) == ShownPerm(s, host)
    && ShownUid(r) == ShownUid(s) && ShownGid(r) == ShownGid(s)
  }

  /** A record says nothing the inode does not say itself. */
  predicate Silent(r: MetaRecord, host: nat) { Alike(r, BLANK, host) }

  lemma AlikeIff(r: MetaRecord, s: MetaRecord, host: nat)
    requires host < 65536
    ensures GuestStat(host, r) == GuestStat(host, s) <==> Alike(r, s, host)
  {
    ModeIs(r, host);
    ModeIs(s, host);
  }

  lemma ModeIs(r: MetaRecord, host: nat)
    requires host < 65536
    ensures EffectiveMode(host, r) == (if ShownFifo(r, host) then FIFO else FileType(host)) + ShownPerm(r, host)
  {
    var h := if ShownFifo(r, host) then host - REGULAR + FIFO else host;
    assert FileType(h) == (if ShownFifo(r, host) then FIFO else FileType(host)) && Perm(h) == Perm(host);
    assert h == FileType(h) + Perm(h);
  }

  /** A removal, on an inode that shows `host`. What is made at the path later starts from
      its inode alone. When the host refuses, the file is still there and its stat is
      what it was if and only if its record was silent. */
  method Remove(store: MetaStore, path: string, host: nat, refused: bool) returns (ok: bool)
    requires store.Valid() && host < 65536
    modifies store, store.file`text, store.file`log
    ensures store.Valid() && (old(store.Synced()) ==> store.Synced()) && (ok <==> !refused)
    ensures forall h :: GuestStat(h, At(store.table, path)) == Stat(h, 0, 0)
    ensures forall q :: q != path ==> At(store.table, q) == At(old(store.table), q)
    ensures GuestStat(host, At(store.table, path)) == GuestStat(host, At(old(store.table), path)) <==>
      Silent(At(old(store.table), path), host)
  {
    AlikeIff(At(store.table, path), BLANK, host);
    store.Forget(path);
    ok := !refused;
  }

  /** What became of a rename on the host: it moved the file, left both names alone (it
      failed, or they name one file), or traded them. */
  datatype Fate = Moved | Stayed | Traded

  /** The record that belongs to the file now at `from` or `to`. */
  function Rightful(t: Table, from: string, to: string, fate: Fate, q: string): MetaRecord {
    match fate
    case Moved => if q == to then At(t, from) else At(t, q)
    case Stayed => At(t, q)
    case Traded => if q == to then At(t, from) else if q == from then At(t, to) else At(t, q)
  }

  /** A rename, which moves the record first. At `to` a stat is right unless the host left
      both names alone and the two records differ on that inode; at `from`, where a file
      is still there, it is right just when that file's record was silent. */
  method Rename(store: MetaStore, from: string, to: string, fate: Fate, hostFrom: nat, hostTo: nat)
    requires store.Valid() && hostFrom < 65536 && hostTo < 65536
    modifies store, store.file`text, store.file`log
    ensures store.Valid() && (old(store.Synced()) ==> store.Synced())
    ensures from == to ==> store.table == old(store.table)
    ensures var t := old(store.table);
      GuestStat(hostTo, At(store.table, to)) == GuestStat(hostTo, Rightful(t, from, to, fate, to)) <==>
        (fate.Stayed? ==> Alike(At(t, from), At(t, to), hostTo))
    ensures var t := old(store.table);
      !fate.Moved? && from != to ==>
        (GuestStat(hostFrom, At(store.table, from)) == GuestStat(hostFrom, Rightful(t, from, to, fate, from)) <==>
          Silent(Rightful(t, from, to, fate, from), hostFrom))
    ensures forall q :: q != from && q != to ==> At(store.table, q) == At(old(store.table), q)
  {
    ghost var t := store.table;
    store.Rename(from, to);
    Carried(t, from, to);
    AlikeIff(At(t, from), Rightful(t, from, to, fate, to), hostTo);
    AlikeIff(BLANK, Rightful(t, from, to, fate, from), hostFrom);
  }

  lemma Carried(t: Table, from: string, to: string)
    ensures var u := KeepRename(t, from, to);
      && At(u, to) == At(t, from) && (from != to ==> At(u, from) == BLANK) && (from == to ==> u == t)
      && forall q :: q != from && q != to ==> At(u, q) == At(t, q)
  {
  }

  /** An exchange of a file of user 1000 with one of user 1001: the second becomes root's. */
  lemma ExchangeLosesOwner(from: string, to: string)
    requires from != to
    ensures var r, s := OwnerSet(BLANK, 1000, NONE), OwnerSet(BLANK, 1001, NONE);
      var t: Table := map[from := r, to := s];
      && Rightful(t, from, to, Traded, from) == s
      && GuestStat(0, s).uid == 1001 && GuestStat(0, At(KeepRename(t, from, to), from)).uid == 0
  {
  }

  /** What lies below a renamed directory keeps its old path's record: at its new path a stat
      is right if and only if the record found there says the same. */
  lemma ContentsShowIff(t: Table, from: string, to: string, tail: string, host: nat)
    requires tail != "" && from != to && from + tail != to && to + tail != from && host < 65536
    ensures GuestStat(host, At(KeepRename(t, from, to), to + tail)) == GuestStat(host, At(t, from + tail)) <==>
      Alike(At(t, to + tail), At(t, from + tail), host)
  {
    assert to + tail != to by { assert |to + tail| > |to|; }
    AlikeIff(At(t, to + tail), At(t, from + tail), host);
  }

  /** A removal that fails is unseen if and only if the record was silent. */
  lemma FailedRemovalUnseenIff(t: Table, p: string, host: nat)
    requires host < 65536
    ensures GuestStat(host, At(t - {p}, p)) == GuestStat(host, At(t, p)) <==> Silent(At(t, p), host)
  {
    AlikeIff(At(t, p), BLANK, host);
  }

  /** A directory of user 1000 that is not empty: a failing rmdir makes it root's. */
  lemma FailedRemovalShows(p: string)
    ensures var t: Table := map[p := BLANK.(uid := 1000, have := BLANK.have.(uid := true))];
      GuestStat(0, At(t, p)).uid == 1000 && GuestStat(0, At(t - {p}, p)).uid == 0
  {
  }

  /** Before a write open: root writes files nobody may write, an ordinary host user does
      not, so the inode gains owner read and write and the store keeps the old mode. */
  method GrantRootWrite(store: MetaStore, path: string, host: nat, statOk: bool, owned: bool, answer: Answer)
      returns (after: nat, asked: nat)
    requires store.Valid() && host < 65536 && (answer.Landed? ==> answer.perm < 4096)
    modifies store, store.file`text, store.file`log
    ensures store.Valid() && (old(store.Synced()) ==> store.Synced())
    ensures GuestStat(after, At(store.table, path)) == old(GuestStat(host, At(store.table, path)))
    ensures asked == OwnerRw(Perm(host))
    ensures var repairs := statOk && FileType(host) == REGULAR && owned && !HasOwnerRw(host) && answer.Landed?;
      && after == (if repairs then FileType(host) + answer.perm else host)
      && (repairs ==> At(store.table, path).have.mode) && (!repairs ==> store.table == old(store.table))
    ensures forall q :: q != path ==> At(store.table, q) == At(old(store.table), q)
  {
    asked := OwnerRw(Perm(host));
    if !statOk || FileType(host) != REGULAR || HasOwnerRw(host) || !owned || !answer.Landed? { return host, asked; }
    after := FileType(host) + answer.perm;
    Retyped(host, answer.perm);
    GrantShows(store.table, path, host, after);
    RecordMode(store, path, Perm(host));
  }

  /** A mode recorded earlier is the truth already; only a missing one is filled in. */
  method RecordMode(store: MetaStore, path: string, mode: u32)
    requires store.Valid()
    modifies store, store.file`text, store.file`log
    ensures store.Valid() && (old(store.Synced()) ==> store.Synced())
    ensures var t := old(store.table);
      store.table == if At(t, path).have.mode then t else ModeKept(t, path, mode, NONE)
  {
    if !At(store.table, path).have.mode { store.SetMode(path, mode, NONE); }
  }

  lemma GrantShows(t: Table, path: string, host: nat, after: nat)
    requires host < 65536 && after < 65536 && FileType(after) == FileType(host)
    ensures var r := At(t, path);
      GuestStat(after, if r.have.mode then r else At(ModeKept(t, path, Perm(host), NONE), path)) == GuestStat(host, r)
    ensures At(ModeKept(t, path, Perm(host), NONE), path).have.mode
    ensures forall q :: q != path ==> At(ModeKept(t, path, Perm(host), NONE), q) == At(t, q)
  {
    var r := At(t, path);
    var kept := At(ModeKept(t, path, Perm(host), NONE), path);
    assert kept == ModeSet(r, Perm(host));
    ModeIs(r, host);
    ModeIs(r, after);
    ModeIs(kept, after);
  }
}
