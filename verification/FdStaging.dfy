/** Handing descriptors to a spawned child at fixed numbers: staged above every target, then
    moved into place by actions that run one after another. */
module FdStaging {
  import opened Basics

  type File = nat
  type Table = map<int, File>

  /** One adddup2 call. With a negative source the call is refused and leaves no action. */
  datatype Dup = Dup(src: int, dst: int)

  // ----- what posix_spawn does with them ----------------------------------------------------

  function One(t: Table, a: Dup): Option<Table> {
    if a.src < 0 then Some(t) else if a.src in t then Some(t[a.dst := t[a.src]]) else None
  }

  /** The child's table after the first k actions, in order; None when one of them fails. */
  function Apply(t: Table, actions: seq<Dup>, k: nat): Option<Table>
    requires k <= |actions|
  {
    if k == 0 then Some(t) else
      match Apply(t, actions, k - 1)
      case None => None
      case Some(u) => One(u, actions[k - 1])
  }

  predicate Target(actions: seq<Dup>, fd: int) {
    exists k :: 0 <= k < |actions| && actions[k].src >= 0 && actions[k].dst == fd
  }

  /** With close-on-exec as the default only the targets and 0, 1, 2 reach the new program. */
  function Spawned(t: Table, actions: seq<Dup>): Option<Table> {
    match Apply(t, actions, |actions|)
    case None => None
    case Some(u) => Some(map fd | fd in u && (Target(actions, fd) || 0 <= fd < 3) :: u[fd])
  }

  /** Straight from the sources the order shows: one file is lost to the other's target. */
  lemma StraightClobbers(a: File, b: File)
    requires a != b
    ensures var t: Table, both: Table := map[3 := a, 4 := b], map[3 := b, 4 := b];
      Apply(t, [Dup(4, 3), Dup(3, 4)], 2) == Some(both)
  {
    var t: Table, both: Table := map[3 := a, 4 := b], map[3 := b, 4 := b];
    var acts := [Dup(4, 3), Dup(3, 4)];
    assert Apply(t, acts, 0) == Some(t);
    assert Apply(t, acts, 1) == Some(t[3 := b]) && t[3 := b] == both;
    assert both[4 := b] == both;
  }

  // ----- staging in the parent ------------------------------------------------------------------

  /** One action for each copy, from it to its slot. */
  ghost predicate Matches(actions: seq<Dup>, staged: seq<int>) {
    |actions| == |staged| && forall i :: 0 <= i < |staged| ==> actions[i] == Dup(staged[i], 3 + i)
  }

  predicate Slot(staged: seq<int>, fd: int) { 3 <= fd < 3 + |staged| && staged[fd - 3] >= 0 }

  function Floor(n: nat): int { 3 + (n + 1) + 64 }

  /** A copy is a new high number for the file its source named. */
  ghost predicate Copy(orig: Table, fds: Table, src: int, h: int, floor: int) {
    && (h >= 0 ==> h >= floor && h in fds && h !in orig && (src in orig ==> fds[h] == orig[src]))
    && (src !in orig && src < floor ==> h < 0)
  }

  /** The table is the original one and the copies. */
  ghost predicate Adds(orig: Table, fds: Table, staged: seq<int>) {
    && (forall fd :: fd in fds <==> fd in orig || (fd >= 0 && fd in staged))
    && (forall fd :: fd in orig ==> fd in fds && fds[fd] == orig[fd])
  }

  ghost predicate NoneTwice(staged: seq<int>) {
    forall i, j :: 0 <= i < j < |staged| && staged[i] >= 0 ==> staged[i] != staged[j]
  }

  ghost predicate Staged(orig: Table, fds: Table, all: seq<int>, staged: seq<int>, floor: int) {
    && |staged| <= |all|
    && (forall i :: 0 <= i < |staged| ==> Copy(orig, fds, all[i], staged[i], floor))
    && Adds(orig, fds, staged) && NoneTwice(staged)
  }

  ghost predicate AllDone(orig: Table, all: seq<int>, staged: seq<int>)
    requires |staged| <= |all|
  {
    forall i :: 0 <= i < |staged| && all[i] in orig ==> staged[i] >= 0
  }

  lemma Failing(orig: Table, fds: Table, all: seq<int>, staged: seq<int>, floor: int, h: int)
    requires |staged| < |all| && Staged(orig, fds, all, staged, floor) && h < 0
    ensures Staged(orig, fds, all, staged + [h], floor)
  {
  }

  lemma Copying(orig: Table, fds: Table, all: seq<int>, staged: seq<int>, floor: nat, h: int)
    requires |staged| < |all| && Staged(orig, fds, all, staged, floor)
    requires all[|staged|] in fds && h >= floor && h !in fds
    ensures Staged(orig, fds[h := fds[all[|staged|]]], all, staged + [h], floor)
  {
    var now, more := fds[h := fds[all[|staged|]]], staged + [h];
    NewCopy(orig, fds, all[|staged|], staged, floor, h, all);
    forall i | 0 <= i < |staged|
      ensures Copy(orig, now, all[i], more[i], floor)
    {
      assert Copy(orig, fds, all[i], staged[i], floor);
    }
    AddsOne(orig, fds, staged, h, fds[all[|staged|]]);
    assert forall i :: 0 <= i < |staged| && staged[i] >= 0 ==> staged[i] in fds;
  }

  lemma AddsOne(orig: Table, fds: Table, staged: seq<int>, h: int, f: File)
    requires Adds(orig, fds, staged) && h >= 0 && h !in fds
    ensures Adds(orig, fds[h := f], staged + [h])
  {
  }

  lemma NewCopy(orig: Table, fds: Table, src: int, staged: seq<int>, floor: nat, h: int, all: seq<int>)
    requires Staged(orig, fds, all, staged, floor) && src in fds && h >= floor && h !in fds
    ensures Copy(orig, fds[h := fds[src]], src, h, floor)
  {
    if src !in orig {
      var i :| 0 <= i < |staged| && staged[i] == src;
      assert Copy(orig, fds, all[i], staged[i], floor);
    }
  }

  class Parent {
    var fds: Table

    /** fcntl(F_DUPFD_CLOEXEC): the least free number at or above `floor`, or -1. */
    method DupFd(src: int, floor: nat, limit: nat) returns (h: int)
      modifies this
      ensures h >= 0 ==> src in old(fds) && floor <= h < limit && h !in old(fds) && fds == old(fds)[h := old(fds)[src]]
      ensures h >= 0 ==> forall x :: floor <= x < h ==> x in old(fds)
      ensures h < 0 ==> fds == old(fds) && (src in fds ==> forall x :: floor <= x < limit ==> x in fds)
    {
      if src !in fds { return -1; }
      h := floor;
      while h < limit && h in fds
        invariant floor <= h && forall x :: floor <= x < h ==> x in fds
      {
        h := h + 1;
      }
      if h >= limit { return -1; }
      fds := fds[h := fds[src]];
    }

    method StageOne(ghost orig: Table, ghost all: seq<int>, src: int, floor: nat, limit: nat, slot: int,
                    before: seq<int>, sofar: seq<Dup>)
      returns (staged: seq<int>, actions: seq<Dup>)
      requires |before| < |all| && all[|before|] == src
      requires slot == 3 + |before| && Staged(orig, fds, all, before, floor) && Matches(sofar, before)
      modifies this
      ensures Staged(orig, fds, all, staged, floor)
      ensures |staged| == |before| + 1 && Matches(actions, staged) && |fds| <= |old(fds)| + 1
      ensures AllDone(orig, all, before) && |old(fds)| < limit - floor ==> AllDone(orig, all, staged)
    {
      var h := DupFd(src, floor, limit);
      staged := before + [h];
      actions := sofar + [Dup(h, slot)];
      if h < 0 {
        Failing(orig, fds, all, before, floor, h);
        if src in orig { Full(fds, floor, limit); }
      } else {
        Copying(orig, old(fds), all, before, floor, h);
      }
    }

    /** The staging loop: one copy per source, then one for the pid table. */
    method Stage(sources: seq<int>, pidFd: int, limit: nat)
        returns (staged: seq<int>, actions: seq<Dup>, placed: seq<int>, pidSlot: int)
      modifies this
      ensures var all, floor := sources + [pidFd], Floor(|sources|);
        && Staged(old(fds), fds, all, staged, floor) && |staged| == |all| && Matches(actions, staged)
        && (|old(fds)| + |all| <= limit - floor ==> AllDone(old(fds), all, staged))
      ensures |placed| == |sources| && forall h :: h in staged && h >= 0 ==> h >= |sources| + 68
      ensures (forall i :: 0 <= i < |sources| ==> placed[i] == 3 + i) && pidSlot == 3 + |sources|
    {
      var floor := 3 + (|sources| + 1) + 64;
      ghost var all := sources + [pidFd];
      staged, actions, placed := [], [], [];
      var next, gi := 3, 0;
      while gi < |sources|
        invariant 0 <= gi <= |sources| && next == 3 + gi && |staged| == |placed| == gi
        invariant Staged(old(fds), fds, all, staged, floor) && Matches(actions, staged) && |fds| <= |old(fds)| + gi
        invariant forall i :: 0 <= i < gi ==> placed[i] == 3 + i
        invariant |old(fds)| + |all| <= limit - floor ==> AllDone(old(fds), all, staged)
      {
        placed := placed + [next];
        staged, actions := StageOne(old(fds), all, sources[gi], floor, limit, next, staged, actions);
        next, gi := next + 1, gi + 1;
      }
      pidSlot := next;
      staged, actions := StageOne(old(fds), all, pidFd, floor, limit, pidSlot, staged, actions);
    }

    /** After the spawn every copy is closed again, and the parent is as it was. */
    method CloseStaged(ghost orig: Table, ghost all: seq<int>, staged: seq<int>, ghost floor: int)
      requires Staged(orig, fds, all, staged, floor)
      modifies this
      ensures forall fd :: fd in fds <==> fd in orig
      ensures forall fd :: fd in orig ==> fd in fds && fds[fd] == orig[fd]
    {
      var i := 0;
      while i < |staged|
        invariant 0 <= i <= |staged|
        invariant forall fd :: fd in fds <==> fd in orig || (fd >= 0 && fd in staged[i..])
        invariant forall fd :: fd in orig ==> fd in fds && fds[fd] == orig[fd]
      {
        assert staged[i..] == [staged[i]] + staged[i + 1..];
        if staged[i] >= 0 {
          assert staged[i] !in staged[i + 1..];
          fds := fds - {staged[i]};
        }
        i := i + 1;
      }
      assert staged[i..] == [];
    }
  }

  /** A range of descriptors all in use needs as many entries. */
  lemma {:induction false} Full(t: Table, floor: nat, limit: nat)
    requires forall x :: floor <= x < limit ==> x in t
    ensures |t| >= limit - floor
    decreases limit
  {
    if limit > floor {
      var rest := t - {limit - 1};
      Full(rest, floor, limit - 1);
      assert t.Keys == rest.Keys + {limit - 1};
    }
  }

  /** After the first k actions each of the first k slots has its copy's file, all else is
      untouched: no action reads what another writes. */
  ghost predicate Done(fds: Table, staged: seq<int>, k: nat, u: Table)
    requires k <= |staged|
  {
    && (forall i :: 0 <= i < k && staged[i] in fds ==> 3 + i in u && u[3 + i] == fds[staged[i]])
    && (forall fd :: !(3 <= fd < 3 + k && staged[fd - 3] >= 0) ==>
          (fd in u <==> fd in fds) && (fd in u ==> u[fd] == fds[fd]))
  }

  lemma {:induction false} InPlace(fds: Table, staged: seq<int>, actions: seq<Dup>, floor: int, k: nat)
    requires floor >= 3 + |staged| && Matches(actions, staged) && k <= |staged|
    requires forall i :: 0 <= i < |staged| ==>
      if staged[i] >= 0 then staged[i] >= floor && staged[i] in fds else staged[i] !in fds
    ensures Apply(fds, actions, k).Some? && Done(fds, staged, k, Apply(fds, actions, k).value)
  {
    if k > 0 {
      InPlace(fds, staged, actions, floor, k - 1);
      assert actions[k - 1] == Dup(staged[k - 1], 3 + (k - 1));
      DoneMore(fds, staged, k - 1, Apply(fds, actions, k - 1).value, floor);
    }
  }

  lemma DoneMore(fds: Table, staged: seq<int>, k: nat, u: Table, floor: int)
    requires k < |staged| && Done(fds, staged, k, u) && 3 + |staged| <= floor
    requires if staged[k] >= 0 then staged[k] >= floor && staged[k] in fds else staged[k] !in fds
    ensures One(u, Dup(staged[k], 3 + k)).Some? && Done(fds, staged, k + 1, One(u, Dup(staged[k], 3 + k)).value)
  {
  }

  /** THE CHILD'S TABLE. Whatever numbers the sources have, targets among them, the child has
      the parent's 0, 1 and 2, each staged source's file at 3 + i, and nothing else. */
  lemma ChildTable(orig: Table, fds: Table, sources: seq<int>, pidFd: int, staged: seq<int>, actions: seq<Dup>)
    requires forall fd :: fd in orig ==> fd >= 0
    requires Staged(orig, fds, sources + [pidFd], staged, Floor(|sources|))
    requires |staged| == |sources| + 1 && Matches(actions, staged)
    ensures Spawned(fds, actions).Some?
    ensures var all, child := sources + [pidFd], Spawned(fds, actions).value;
      && (forall fd :: fd in child <==> Slot(staged, fd) || (0 <= fd < 3 && fd in orig))
      && (forall i :: 0 <= i < |all| && staged[i] >= 0 && all[i] in orig ==>
            3 + i in child && child[3 + i] == orig[all[i]])
      && (forall i :: 0 <= i < |all| && all[i] !in orig && all[i] < Floor(|sources|) ==> 3 + i !in child)
      && (forall fd :: 0 <= fd < 3 && fd in orig ==> fd in child && child[fd] == orig[fd])
  {
    var all, floor := sources + [pidFd], Floor(|sources|);
    forall i | 0 <= i < |staged|
      ensures if staged[i] >= 0 then staged[i] >= floor && staged[i] in fds else staged[i] !in fds
    {
      assert Copy(orig, fds, all[i], staged[i], floor);
    }
    InPlace(fds, staged, actions, floor, |staged|);
    var u := Apply(fds, actions, |staged|).value;
    forall fd ensures Target(actions, fd) <==> Slot(staged, fd) { TargetIsSlot(actions, staged, fd); }
    forall fd | 0 <= fd < 3
      ensures (fd in u <==> fd in orig) && (fd in orig ==> u[fd] == orig[fd])
    {
      StandardStays(orig, fds, staged, floor, fd);
    }
    forall i | 0 <= i < |all|
      ensures Copy(orig, fds, all[i], staged[i], floor) && (Slot(staged, 3 + i) <==> staged[i] >= 0)
    {
    }
    forall fd | Slot(staged, fd) ensures fd in u { assert 3 + (fd - 3) in u; }
  }

  lemma TargetIsSlot(actions: seq<Dup>, staged: seq<int>, fd: int)
    requires Matches(actions, staged)
    ensures Target(actions, fd) <==> Slot(staged, fd)
  {
    if Slot(staged, fd) { assert actions[fd - 3] == Dup(staged[fd - 3], 3 + (fd - 3)); }
  }

  lemma StandardStays(orig: Table, fds: Table, staged: seq<int>, floor: int, fd: int)
    requires Adds(orig, fds, staged)
    requires 0 <= fd < 3 <= floor && forall i :: 0 <= i < |staged| && staged[i] >= 0 ==> staged[i] >= floor
    ensures !Slot(staged, fd) && (fd in fds <==> fd in orig) && (fd in orig ==> fds[fd] == orig[fd])
  {
  }
}
