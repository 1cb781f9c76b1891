/** Opening a FIFO on a host that forbids them: a pipe kept by an anchor, tasks that wait by
    retrying, and pipe ends held for a task until its own open lands. */
module Fifos {
  type Tid = int
  type Inode = (nat, nat)

  const NONE := -1
  const RDONLY := 0
  const WRONLY := 1

  /** Nanoseconds after which a waiter that has not retried is taken to have given up. */
  const PATIENCE := 500_000_000

  datatype Emu = Emu(anchor: int, holdR: int, holdW: int, waitR: map<Tid, int>, waitW: map<Tid, int>)

  const EMPTY := Emu(NONE, NONE, NONE, map[], map[])

  /** One open: who, the access mode (the two low flag bits), and O_NONBLOCK. */
  datatype Call = Call(who: Tid, acc: int, nonblock: bool)

  /** What the host shows at that moment: guest descriptors on the pipe, the clock, and
      the descriptor it would give for a held end (negative when it refuses). */
  datatype Seen = Seen(readers: nat, writers: nat, now: int, holdFd: int)

  datatype Outcome = Admitted | Retry | NoPeer | HostRefused
  datatype Next = Next(f: Emu, outcome: Outcome, freed: seq<int>)

  function Alive(m: map<Tid, int>, now: int): map<Tid, int> { map t | t in m && now - m[t] <= PATIENCE :: m[t] }

  // ----- one open, on values ----------------------------------------------------------------

  /** The queues as an open finds them: without the caller and without the dead. */
  function Settled(f: Emu, c: Call, e: Seen): Emu {
    f.(waitR := Alive(f.waitR - {c.who}, e.now), waitW := Alive(f.waitW - {c.who}, e.now))
  }

  function Held(h: int, fd: int): int { if h < 0 then fd else h }

  function Release(f: Emu, acc: int): Next {
    var freedR, freedW := acc != WRONLY && f.holdR >= 0, acc != RDONLY && f.holdW >= 0;
    Next(f.(holdR := if freedR then NONE else f.holdR, holdW := if freedW then NONE else f.holdW), Admitted,
         (if freedR then [f.holdR] else []) + (if freedW then [f.holdW] else []))
  }

  function Step(f: Emu, c: Call, e: Seen): Next {
    var g := Settled(f, c, e);
    if c.acc == RDONLY && !c.nonblock then
      if e.writers == 0 && g.holdR < 0 && g.waitW == map[] then Next(g.(waitR := g.waitR[c.who := e.now]), Retry, [])
      else if e.writers == 0 && g.holdR < 0 then Release(g.(holdW := Held(g.holdW, e.holdFd)), c.acc)
      else Release(g, c.acc)
    else if c.acc == WRONLY && e.readers == 0 && g.holdW < 0 then
      if c.nonblock then
        if g.waitR == map[] then Next(g, NoPeer, []) else Release(g.(holdR := Held(g.holdR, e.holdFd)), c.acc)
      else Next(g.(waitW := g.waitW[c.who := e.now]), Retry, [])
    else Release(g, c.acc)
  }

  // ----- the dispatcher's side ----------------------------------------------------------------

  /** What a descriptor of the supervisor is for. */
  datatype Purpose = Anchor(ino: Inode) | HoldR(ino: Inode) | HoldW(ino: Inode) | Leaving

  class Broker {
    var fifos: map<Inode, Emu>
    var release: seq<int>
    /** The supervisor's descriptors on these pipes, as the kernel has them. */
    var open: map<int, Purpose>

    /** Every descriptor the fields name is open, and for that purpose. */
    ghost predicate Named()
      reads this
    {
      && (forall i :: i in fifos ==> Accounted(open, i, fifos[i]))
      && (forall k :: 0 <= k < |release| ==> release[k] in open && open[release[k]] == Leaving)
      && (forall j, k :: 0 <= j < k < |release| ==> release[j] != release[k])
    }

    /** And nothing else is: no descriptor leaks. */
    ghost predicate NoLeak()
      reads this
    {
      forall fd :: fd in open ==> fd >= 0 && Kept(fifos, release, fd, open[fd])
    }

    ghost predicate Valid()
      reads this
    {
      Named() && NoLeak()
    }

    constructor ()
      ensures Valid() && fifos == map[] && release == [] && open == map[]
    {
      fifos, release, open := map[], [], map[];
    }

    /** Lends the kernel's close: only of a descriptor that is open. */
    method Close(fd: int)
      requires fd in open
      modifies this
      ensures open == old(open) - {fd} && fifos == old(fifos) && release == old(release)
    {
      open := open - {fd};
    }

    /** fifo_open. `pipeOk` and `anchorFd` are the host's answers should the pipe be needed. */
    method FifoOpen(ino: Inode, c: Call, e: Seen, pipeOk: bool, anchorFd: int) returns (r: Outcome)
      requires Valid()
      requires e.holdFd >= 0 ==> e.holdFd !in open && e.holdFd != anchorFd
      requires anchorFd >= 0 ==> anchorFd !in open
      modifies this
      ensures Valid() && ino in fifos
      ensures forall i :: i != ino ==> (i in fifos <==> i in old(fifos)) && (i in fifos ==> fifos[i] == old(fifos)[i])
      ensures var was := if ino in old(fifos) then old(fifos)[ino] else EMPTY;
        if was.anchor < 0 && (!pipeOk || anchorFd < 0) then
          r == HostRefused && fifos[ino].anchor < 0 && release == old(release)
        else
          var n := Step(if was.anchor < 0 then was.(anchor := anchorFd) else was, c, e);
          r == n.outcome && fifos[ino] == n.f && release == old(release) + n.freed
      ensures (ino in old(fifos) && old(fifos)[ino].anchor >= 0) || (pipeOk && anchorFd >= 0) ==>
        r != HostRefused && (c.acc != WRONLY && (c.nonblock || c.acc != RDONLY) ==> r == Admitted)
      ensures forall fd :: fd in old(open) ==> fd in open
    {
      var ok := MakeAnchor(ino, pipeOk, anchorFd);
      if !ok { return HostRefused; }
      AnswerIs(fifos[ino], c, e);
      r := Decide(ino, c, e);
    }

    /** The pipe behind a FIFO, made when it is first opened. */
    method MakeAnchor(ino: Inode, pipeOk: bool, anchorFd: int) returns (ok: bool)
      requires Valid() && (anchorFd >= 0 ==> anchorFd !in open)
      modifies this
      ensures Valid() && release == old(release) && forall fd :: fd in old(open) ==> fd in open
      ensures forall fd :: fd in open ==> fd in old(open) || fd == anchorFd
      ensures var was := if ino in old(fifos) then old(fifos)[ino] else EMPTY;
        && (ok <==> was.anchor >= 0 || (pipeOk && anchorFd >= 0))
        && ino in fifos
        && if ok then fifos == old(fifos)[ino := if was.anchor < 0 then was.(anchor := anchorFd) else was]
           else fifos[ino].anchor < 0 && fifos == old(fifos)[ino := fifos[ino]]
    {
      var f := if ino in fifos then fifos[ino] else EMPTY;
      if f.anchor < 0 {
        ghost var before := fifos;
        if !pipeOk {
          fifos := fifos[ino := f];
          KeptAfter(before, release, open, ino, f);
          return false;
        }
        f := f.(anchor := anchorFd);
        if f.anchor < 0 {
          fifos := fifos[ino := f];
          KeptAfter(before, release, open, ino, f);
          return false;
        }
        open := open[anchorFd := Anchor(ino)];
      }
      fifos := fifos[ino := f];
      return true;
    }

    /** The rest of fifo_open, once the anchor is there. */
    method Decide(ino: Inode, c: Call, e: Seen) returns (r: Outcome)
      requires Valid() && ino in fifos
      requires e.holdFd >= 0 ==> e.holdFd !in open
      modifies this
      ensures Valid()
      ensures var n := Step(old(fifos)[ino], c, e);
        r == n.outcome && fifos == old(fifos)[ino := n.f] && release == old(release) + n.freed
      ensures forall fd :: fd in old(open) ==> fd in open
    {
      var f := fifos[ino];
      f := f.(waitR := f.waitR - {c.who});
      f := f.(waitW := f.waitW - {c.who});
      f := f.(waitR := Alive(f.waitR, e.now));
      var readerWaiting := f.waitR != map[];
      f := f.(waitW := Alive(f.waitW, e.now));
      var writerWaiting := f.waitW != map[];
      ghost var was := fifos;
      assert f == Settled(was[ino], c, e);
      Put(ino, f);
      if c.acc == RDONLY && !c.nonblock {
        r := AsReader(ino, c, e, writerWaiting);
      } else if c.acc == WRONLY && !(e.readers > 0 || f.holdW >= 0) {
        r := AsWriter(ino, c, e, readerWaiting);
      } else {
        HandOver(ino, c.acc);
        r := Admitted;
      }
      Twice(was, ino, f, fifos[ino]);
    }

    /** A blocking reader: a writer is here, came and left data, or is waiting. */
    method AsReader(ino: Inode, c: Call, e: Seen, writerWaiting: bool) returns (r: Outcome)
      requires Valid() && ino in fifos && c.acc == RDONLY && !c.nonblock && (e.holdFd >= 0 ==> e.holdFd !in open)
      modifies this
      ensures Valid() && forall fd :: fd in old(open) ==> fd in open
      ensures var g := old(fifos)[ino];
        var n :=
          if e.writers == 0 && g.holdR < 0 && !writerWaiting then Next(g.(waitR := g.waitR[c.who := e.now]), Retry, [])
          else Release(if e.writers == 0 && g.holdR < 0 then g.(holdW := Held(g.holdW, e.holdFd)) else g, c.acc);
        r == n.outcome && fifos == old(fifos)[ino := n.f] && release == old(release) + n.freed
    {
      var f := fifos[ino];
      if e.writers == 0 && f.holdR < 0 && !writerWaiting {
        Put(ino, f.(waitR := f.waitR[c.who := e.now]));
        return Retry;
      }
      if e.writers == 0 && f.holdR < 0 && f.holdW < 0 { HoldEnd(ino, e.holdFd, HoldW(ino)); }
      HandOver(ino, c.acc);
      return Admitted;
    }

    /** A writer with no reader open: it waits, unless it would not and a reader is waiting. */
    method AsWriter(ino: Inode, c: Call, e: Seen, readerWaiting: bool) returns (r: Outcome)
      requires Valid() && ino in fifos && c.acc == WRONLY && (e.holdFd >= 0 ==> e.holdFd !in open)
      modifies this
      ensures Valid() && forall fd :: fd in old(open) ==> fd in open
      ensures var g := old(fifos)[ino];
        var n := if !c.nonblock then Next(g.(waitW := g.waitW[c.who := e.now]), Retry, [])
                 else if !readerWaiting then Next(g, NoPeer, [])
                 else Release(g.(holdR := Held(g.holdR, e.holdFd)), c.acc);
        r == n.outcome && fifos == old(fifos)[ino := n.f] && release == old(release) + n.freed
    {
      var f := fifos[ino];
      if c.nonblock {
        if !readerWaiting { return NoPeer; }
        if f.holdR < 0 { HoldEnd(ino, e.holdFd, HoldR(ino)); }
      } else {
        Put(ino, f.(waitW := f.waitW[c.who := e.now]));
        return Retry;
      }
      HandOver(ino, c.acc);
      return Admitted;
    }

    /** New queues for one FIFO; its descriptors stay. */
    method Put(ino: Inode, f: Emu)
      requires Valid() && ino in fifos
      requires f.anchor == fifos[ino].anchor && f.holdR == fifos[ino].holdR && f.holdW == fifos[ino].holdW
      modifies this
      ensures Valid() && fifos == old(fifos)[ino := f] && release == old(release) && open == old(open)
    {
      fifos := fifos[ino := f];
    }

    method HoldEnd(ino: Inode, fd: int, p: Purpose)
      requires Valid() && ino in fifos && (fd >= 0 ==> fd !in open)
      requires (p == HoldR(ino) && fifos[ino].holdR < 0) || (p == HoldW(ino) && fifos[ino].holdW < 0)
      modifies this
      ensures Valid() && release == old(release) && forall x :: x in old(open) ==> x in open
      ensures fifos == old(fifos)[ino := if p.HoldR? then old(fifos)[ino].(holdR := fd)
        else old(fifos)[ino].(holdW := fd)]
    {
      fifos := fifos[ino := if p.HoldR? then fifos[ino].(holdR := fd) else fifos[ino].(holdW := fd)];
      if fd >= 0 { open := open[fd := p]; }
    }

    /** The end held for the caller is to be dropped when the caller's own has landed. */
    method HandOver(ino: Inode, acc: int)
      requires Valid() && ino in fifos
      modifies this
      ensures Valid()
      ensures var n := Release(old(fifos)[ino], acc);
        fifos == old(fifos)[ino := n.f] && release == old(release) + n.freed
      ensures forall x :: x in old(open) ==> x in open
    {
      ghost var was := fifos;
      if acc != WRONLY && fifos[ino].holdR >= 0 { Drop(ino, HoldR(ino)); }
      ghost var mid := fifos[ino];
      if acc != RDONLY && fifos[ino].holdW >= 0 { Drop(ino, HoldW(ino)); }
      Twice(was, ino, mid, fifos[ino]);
    }

    method Drop(ino: Inode, p: Purpose)
      requires Valid() && ino in fifos
      requires (p == HoldR(ino) && fifos[ino].holdR >= 0) || (p == HoldW(ino) && fifos[ino].holdW >= 0)
      modifies this
      ensures Valid()
      ensures fifos == old(fifos)[ino := if p.HoldR? then old(fifos)[ino].(holdR := NONE)
        else old(fifos)[ino].(holdW := NONE)]
      ensures release == old(release) + [if p.HoldR? then old(fifos)[ino].holdR else old(fifos)[ino].holdW]
      ensures forall x :: x in old(open) ==> x in open
    {
      var f := fifos[ino];
      var fd := if p.HoldR? then f.holdR else f.holdW;
      release := release + [fd];
      fifos := fifos[ino := if p.HoldR? then f.(holdR := NONE) else f.(holdW := NONE)];
      open := open[fd := Leaving];
    }

    method Unused() returns (fd: int)
      ensures fd >= 0 && fd !in open
    {
      fd := 0;
      var rest := open;
      while fd in rest
        invariant fd >= 0 && forall x :: x >= fd ==> (x in rest <==> x in open)
        decreases |rest|
      {
        assert rest.Keys == (rest - {fd}).Keys + {fd};
        rest := rest - {fd};
        fd := fd + 1;
      }
    }

    /** Any run of attempts on a FIFO, known or new, on a host that grants its pipe, each open
        landing before the next: a run of the protocol, with every descriptor accounted for
        at the end and none to release. */
    method Serve(ino: Inode, attempts: seq<Attempt>) returns (outs: seq<Outcome>, ghost run: Run)
      requires Valid() && release == []
      modifies this
      ensures Valid() && release == [] && ino in fifos
      ensures Follows(Step, run) && |run.opens| == |attempts| == |outs| && run.at[|attempts|] == fifos[ino]
      ensures var was := if ino in old(fifos) then old(fifos)[ino] else EMPTY;
        run.at[0] == was.(anchor := run.at[0].anchor)
      ensures forall i :: 0 <= i < |attempts| ==>
        Matches(run.opens[i], attempts[i]) && outs[i] == Took(Step, run, i).outcome
    {
      var fd := Unused();
      var _ := MakeAnchor(ino, true, fd);
      outs, run := ServeKnown(ino, attempts);
    }

    method ServeKnown(ino: Inode, attempts: seq<Attempt>) returns (outs: seq<Outcome>, ghost run: Run)
      requires Valid() && release == [] && ino in fifos && fifos[ino].anchor >= 0
      modifies this
      ensures Valid() && release == [] && ino in fifos
      ensures Follows(Step, run)
      ensures |run.opens| == |attempts| == |outs| && run.at[0] == old(fifos)[ino] && run.at[|attempts|] == fifos[ino]
      ensures forall i :: 0 <= i < |attempts| ==>
        Matches(run.opens[i], attempts[i]) && outs[i] == Took(Step, run, i).outcome
    {
      outs, run := [], Run([], [fifos[ino]]);
      var k := 0;
      while k < |attempts|
        invariant 0 <= k == |outs| == |run.opens| <= |attempts| && Valid() && release == [] && ino in fifos
        invariant Follows(Step, run)
        invariant run.at[0] == old(fifos)[ino] && run.at[k] == fifos[ino] && fifos[ino].anchor >= 0
        invariant forall i :: 0 <= i < k ==> Matches(run.opens[i], attempts[i]) && outs[i] == Took(Step, run, i).outcome
      {
        var out, seen := ServeOne(ino, attempts[k]);
        run := More(Step, run, Event(attempts[k].call, seen));
        outs, k := outs + [out], k + 1;
      }
    }

    method ServeOne(ino: Inode, a: Attempt) returns (out: Outcome, seen: Seen)
      requires Valid() && release == [] && ino in fifos && fifos[ino].anchor >= 0
      modifies this
      ensures Valid() && release == [] && ino in fifos && fifos[ino].anchor >= 0 && Matches(Event(a.call, seen), a)
      ensures var n := Step(old(fifos)[ino], a.call, seen); fifos[ino] == n.f && out == n.outcome
    {
      var fd := Unused();
      seen := Seen(a.readers, a.writers, a.now, if a.refuse then NONE else fd);
      TakesOver(fifos[ino], a.call, seen);
      out := FifoOpen(ino, a.call, seen, false, NONE);
      NoteOpened();
    }

    /** note_opened_fd: each end on the list is closed, once, and the list is empty. */
    method NoteOpened()
      requires Valid()
      modifies this
      ensures Valid() && release == [] && fifos == old(fifos)
      ensures forall fd :: fd in open <==> fd in old(open) && old(open)[fd] != Leaving
      ensures forall fd :: fd in open ==> open[fd] == old(open)[fd]
    {
      var gone, k := release, 0;
      release := [];
      while k < |gone|
        invariant 0 <= k <= |gone| && release == [] && fifos == old(fifos)
        invariant forall fd :: fd in open <==> fd in old(open) && fd !in gone[..k]
        invariant forall fd :: fd in open ==> open[fd] == old(open)[fd]
      {
        assert gone[k] !in gone[..k];
        Close(gone[k]);
        assert gone[..k + 1] == gone[..k] + [gone[k]];
        k := k + 1;
      }
      assert gone[..k] == gone;
    }
  }

  /** One attempt of a task, and what the host shows and grants at that moment. */
  datatype Attempt = Attempt(call: Call, readers: nat, writers: nat, now: int, refuse: bool)

  predicate Matches(e: Event, a: Attempt) {
    && e.call == a.call && e.seen.readers == a.readers && e.seen.writers == a.writers && e.seen.now == a.now
    && (a.refuse <==> e.seen.holdFd < 0)
  }

  lemma Twice(m: map<Inode, Emu>, i: Inode, a: Emu, b: Emu)
    ensures m[i := a][i := b] == m[i := b] && (i in m && m[i] == a ==> m[i := a] == m)
  {
  }

  ghost predicate Accounted(open: map<int, Purpose>, i: Inode, f: Emu) {
    && (f.anchor >= 0 ==> f.anchor in open && open[f.anchor] == Anchor(i))
    && (f.holdR >= 0 ==> f.holdR in open && open[f.holdR] == HoldR(i))
    && (f.holdW >= 0 ==> f.holdW in open && open[f.holdW] == HoldW(i))
  }

  ghost predicate Kept(fifos: map<Inode, Emu>, release: seq<int>, fd: int, p: Purpose) {
    match p
    case Anchor(i) => i in fifos && fifos[i].anchor == fd
    case HoldR(i) => i in fifos && fifos[i].holdR == fd
    case HoldW(i) => i in fifos && fifos[i].holdW == fd
    case Leaving => fd in release
  }

  lemma KeptAfter(before: map<Inode, Emu>, release: seq<int>, open: map<int, Purpose>, ino: Inode, f: Emu)
    requires forall fd :: fd in open ==> fd >= 0 && Kept(before, release, fd, open[fd])
    requires f.anchor < 0
    requires (ino in before ==> before[ino].anchor < 0 && f.holdR == before[ino].holdR && f.holdW == before[ino].holdW)
    ensures forall fd :: fd in open ==> Kept(before[ino := f], release, fd, open[fd])
  {
  }

  // ----- who is let in --------------------------------------------------------------------------

  ghost predicate Waiting(m: map<Tid, int>, me: Tid, now: int) {
    exists t :: t in m && t != me && now - m[t] <= 500_000_000
  }

  lemma AliveIsWaiting(m: map<Tid, int>, me: Tid, now: int)
    ensures Alive(m - {me}, now) != map[] <==> Waiting(m, me, now)
  {
    var a := Alive(m - {me}, now);
    if Waiting(m, me, now) {
      var t :| t in m && t != me && now - m[t] <= PATIENCE;
      assert t in a;
    } else {
      assert forall t :: t !in a;
    }
  }

  /** A blocking reader waits just when no writer is there, none left data behind and none
      is waiting; let in, it has a writer, a writer's data kept until it lands, or a
      write end held open for it. */
  lemma ReaderLetIn(f: Emu, c: Call, e: Seen)
    requires c.acc == RDONLY && !c.nonblock
    ensures var n := Step(f, c, e);
      && (n.outcome == Retry <==> e.writers == 0 && f.holdR < 0 && !Waiting(f.waitW, c.who, e.now))
      && (n.outcome != Retry ==> n.outcome == Admitted)
      && (n.outcome != Retry ==>
            e.writers > 0 || (f.holdR >= 0 && f.holdR in n.freed) || (e.holdFd >= 0 ==> n.f.holdW >= 0))
  {
    AliveIsWaiting(f.waitW, c.who, e.now);
  }

  /** A writer goes ahead of a reader only if it will not block and one is waiting, and then
      a read end keeps what it writes. */
  lemma WriterLetIn(f: Emu, c: Call, e: Seen)
    requires c.acc == WRONLY
    ensures var n := Step(f, c, e); var reader := e.readers > 0 || f.holdW >= 0;
      && (n.outcome == NoPeer <==> !reader && c.nonblock && !Waiting(f.waitR, c.who, e.now))
      && (n.outcome == Retry <==> !reader && !c.nonblock)
      && (n.outcome == Admitted && !reader ==> Waiting(f.waitR, c.who, e.now) && (e.holdFd >= 0 ==> n.f.holdR >= 0))
      && (f.holdW >= 0 ==> n.outcome == Admitted && f.holdW in n.freed)
  {
    AliveIsWaiting(f.waitR, c.who, e.now);
  }

  /** WHO GETS WHAT ANSWER, whatever the state. An open for reading that will not wait and one
      for both are always let in; a reader that waits does so while no writer is there, was
      there or waits; a writer with a reader there is let in, without one it waits, or is
      let in if a reader waits, or is told there is no peer. The host is never at fault here. */
  lemma AnswerIs(f: Emu, c: Call, e: Seen)
    ensures var n := Step(f, c, e).outcome;
      && n != HostRefused
      && (c.acc != RDONLY && c.acc != WRONLY ==> n == Admitted)
      && (c.acc == RDONLY && c.nonblock ==> n == Admitted)
      && (c.acc == RDONLY && !c.nonblock ==>
            n == if e.writers == 0 && f.holdR < 0 && !Waiting(f.waitW, c.who, e.now) then Retry else Admitted)
      && (c.acc == WRONLY && (e.readers > 0 || f.holdW >= 0) ==> n == Admitted)
      && (c.acc == WRONLY && e.readers == 0 && f.holdW < 0 ==>
            n == if !c.nonblock then Retry else if Waiting(f.waitR, c.who, e.now) then Admitted else NoPeer)
  {
    AliveIsWaiting(f.waitR, c.who, e.now);
    AliveIsWaiting(f.waitW, c.who, e.now);
  }

  /** WHAT AN OPEN LEAVES BEHIND. Waiters that are still patient keep their place and time, the
      others are forgotten; a held end is made only by a reader that waited for a writer or
      a writer that would not wait for a reader, and only where none is held. */
  lemma LeavesQueues(f: Emu, c: Call, e: Seen)
    ensures var n := Step(f, c, e);
      && (forall t :: t != c.who ==>
            && (t in n.f.waitR <==> t in f.waitR && e.now - f.waitR[t] <= PATIENCE)
            && (t in n.f.waitW <==> t in f.waitW && e.now - f.waitW[t] <= PATIENCE)
            && (t in n.f.waitR ==> n.f.waitR[t] == f.waitR[t]) && (t in n.f.waitW ==> n.f.waitW[t] == f.waitW[t]))
      && (c.who in n.f.waitR ==> n.f.waitR[c.who] == e.now) && (c.who in n.f.waitW ==> n.f.waitW[c.who] == e.now)
      && (n.outcome == Admitted && c.acc == RDONLY ==>
            n.f.holdW == if f.holdW < 0 && !c.nonblock && e.writers == 0 && f.holdR < 0 then e.holdFd else f.holdW)
      && (n.outcome == Admitted && c.acc == WRONLY ==>
            n.f.holdR == if f.holdR < 0 && e.readers == 0 && f.holdW < 0 then e.holdFd else f.holdR)
      && (n.outcome == Admitted && c.acc != RDONLY && c.acc != WRONLY ==>
            (f.holdR >= 0 ==> n.f.holdR < 0) && (f.holdW >= 0 ==> n.f.holdW < 0))
  {
  }

  /** An open that is let in takes over every end held on its behalf and leaves the queues;
      one that is not takes nothing, and is queued just when it is to retry. */
  lemma TakesOver(f: Emu, c: Call, e: Seen)
    ensures var n := Step(f, c, e);
      && n.f.anchor == f.anchor
      && (n.outcome == Admitted && c.acc != WRONLY ==> n.f.holdR < 0 && (f.holdR >= 0 ==> f.holdR in n.freed))
      && (n.outcome == Admitted && c.acc != RDONLY ==> n.f.holdW < 0 && (f.holdW >= 0 ==> f.holdW in n.freed))
      && (n.outcome != Admitted ==> n.freed == [] && n.f.holdR == f.holdR && n.f.holdW == f.holdW)
      && (c.who in n.f.waitR <==> n.outcome == Retry && c.acc == RDONLY)
      && (c.who in n.f.waitW <==> n.outcome == Retry && c.acc == WRONLY)
      && (forall fd :: fd in n.freed ==> fd >= 0 && (fd == f.holdR || fd == f.holdW || fd == e.holdFd))
  {
  }

  // ----- runs ---------------------------------------------------------------------------------------

  datatype Event = Event(call: Call, seen: Seen)

  type Protocol = (Emu, Call, Seen) -> Next

  /** A run of opens of one FIFO, and the state before each and after the last. */
  datatype Run = Run(opens: seq<Event>, at: seq<Emu>)

  ghost predicate Follows(p: Protocol, run: Run) {
    |run.at| == |run.opens| + 1 && forall k :: 0 <= k < |run.opens| ==> run.at[k + 1] == Took(p, run, k).f
  }

  ghost function Took(p: Protocol, run: Run, k: nat): Next
    requires k < |run.opens| && k < |run.at|
  {
    p(run.at[k], run.opens[k].call, run.opens[k].seen)
  }

  ghost predicate LetIn(p: Protocol, run: Run, k: nat)
    requires k < |run.opens| && k < |run.at|
  {
    Took(p, run, k).outcome == Admitted
  }

  /** A run and one open more. */
  ghost function More(p: Protocol, run: Run, e: Event): (r: Run)
    requires Follows(p, run)
    ensures Follows(p, r)
    ensures |r.opens| == |run.opens| + 1 && run.opens <= r.opens && run.at <= r.at && r.opens[|run.opens|] == e
    ensures forall k :: 0 <= k < |run.opens| ==> Took(p, r, k) == Took(p, run, k)
    ensures r.at[|r.opens|] == p(run.at[|run.opens|], e.call, e.seen).f == Took(p, r, |run.opens|).f
  {
    var r := Run(run.opens + [e], run.at + [p(run.at[|run.opens|], e.call, e.seen).f]);
    assert forall k :: 0 <= k < |run.opens| ==> Took(p, r, k) == Took(p, run, k) && r.at[k + 1] == run.at[k + 1];
    r
  }

  /** No open between i and k was let in to do other than read (or, below, than write). */
  ghost predicate OnlySince(p: Protocol, run: Run, i: nat, k: nat, acc: int)
    requires k <= |run.opens|
  {
    |run.at| == |run.opens| + 1 && forall j :: i < j < k && LetIn(p, run, j) ==> run.opens[j].call.acc == acc
  }

  ghost predicate ReaderCame(p: Protocol, run: Run, i: nat)
    requires i < |run.opens| && i < |run.at|
  {
    LetIn(p, run, i) && run.opens[i].call.acc == RDONLY && !run.opens[i].call.nonblock && run.opens[i].seen.writers == 0
  }

  ghost predicate WriterCame(p: Protocol, run: Run, i: nat)
    requires i < |run.opens| && i < |run.at|
  {
    LetIn(p, run, i) && run.opens[i].call.acc == WRONLY && run.opens[i].call.nonblock && run.opens[i].seen.readers == 0
  }

  // One open's part in each of the run properties below.

  ghost predicate HoldsForWriter(f: Emu, c: Call, e: Seen, n: Next) {
    n.f.holdW >= 0 ==>
      if f.holdW >= 0 then n.outcome == Admitted ==> c.acc == RDONLY
      else n.outcome == Admitted && c.acc == RDONLY && !c.nonblock && e.writers == 0
  }

  ghost predicate HoldsForReader(f: Emu, c: Call, e: Seen, n: Next) {
    n.f.holdR >= 0 ==>
      if f.holdR >= 0 then n.outcome == Admitted ==> c.acc == WRONLY
      else n.outcome == Admitted && c.acc == WRONLY && c.nonblock && e.readers == 0
  }

  ghost predicate KeepsForWriter(f: Emu, c: Call, n: Next) {
    f.holdW >= 0 && (n.outcome == Admitted ==> c.acc == RDONLY) ==> n.f.holdW >= 0
  }

  ghost predicate KeepsForReader(f: Emu, c: Call, n: Next) {
    f.holdR >= 0 && (n.outcome == Admitted ==> c.acc == WRONLY) ==> n.f.holdR >= 0
  }

  ghost predicate KeepsPlace(f: Emu, c: Call, e: Seen, n: Next, w: Tid, t: int) {
    w in f.waitW && f.waitW[w] == t && c.who != w && e.now - t <= 500_000_000 ==> w in n.f.waitW && n.f.waitW[w] == t
  }

  ghost predicate KeepsReader(f: Emu, c: Call, e: Seen, n: Next, r: Tid, t: int) {
    r in f.waitR && f.waitR[r] == t && c.who != r && e.now - t <= 500_000_000 ==> r in n.f.waitR && n.f.waitR[r] == t
  }

  lemma StepDoes(f: Emu, c: Call, e: Seen)
    ensures HoldsForWriter(f, c, e, Step(f, c, e)) && HoldsForReader(f, c, e, Step(f, c, e))
    ensures KeepsForWriter(f, c, Step(f, c, e)) && KeepsForReader(f, c, Step(f, c, e))
  {
  }

  lemma StepKeepsPlace(f: Emu, c: Call, e: Seen, w: Tid, t: int)
    ensures KeepsPlace(f, c, e, Step(f, c, e), w, t) && KeepsReader(f, c, e, Step(f, c, e), w, t)
  {
  }

  /** A write end is held only since some reader was let in, and no writer has been since. */
  lemma {:induction false} HeldForWriter(p: Protocol, run: Run, k: nat)
    requires Follows(p, run) && k <= |run.opens| && run.at[0].holdW < 0
    requires forall x, c, e {:trigger p(x, c, e)} :: HoldsForWriter(x, c, e, p(x, c, e))
    ensures run.at[k].holdW >= 0 ==> exists i :: 0 <= i < k && ReaderCame(p, run, i) && OnlySince(p, run, i, k, RDONLY)
  {
    if k > 0 && run.at[k].holdW >= 0 {
      assert run.at[k - 1 + 1] == Took(p, run, k - 1).f;
      if run.at[k - 1].holdW >= 0 {
        HeldForWriter(p, run, k - 1);
        var i :| 0 <= i < k - 1 && ReaderCame(p, run, i) && OnlySince(p, run, i, k - 1, RDONLY);
        assert OnlySince(p, run, i, k, RDONLY);
      } else {
        assert ReaderCame(p, run, k - 1) && OnlySince(p, run, k - 1, k, RDONLY);
      }
    }
  }

  /** And a read end only since a writer that would not wait was let in, and no reader since. */
  lemma {:induction false} HeldForReader(p: Protocol, run: Run, k: nat)
    requires Follows(p, run) && k <= |run.opens| && run.at[0].holdR < 0
    requires forall x, c, e {:trigger p(x, c, e)} :: HoldsForReader(x, c, e, p(x, c, e))
    ensures run.at[k].holdR >= 0 ==> exists i :: 0 <= i < k && WriterCame(p, run, i) && OnlySince(p, run, i, k, WRONLY)
  {
    if k > 0 && run.at[k].holdR >= 0 {
      assert run.at[k - 1 + 1] == Took(p, run, k - 1).f;
      if run.at[k - 1].holdR >= 0 {
        HeldForReader(p, run, k - 1);
        var i :| 0 <= i < k - 1 && WriterCame(p, run, i) && OnlySince(p, run, i, k - 1, WRONLY);
        assert OnlySince(p, run, i, k, WRONLY);
      } else {
        assert WriterCame(p, run, k - 1) && OnlySince(p, run, k - 1, k, WRONLY);
      }
    }
  }

  lemma {:induction false} HoldStays(p: Protocol, run: Run, i: nat, k: nat)
    requires forall x, c, e {:trigger p(x, c, e)} :: KeepsForWriter(x, c, p(x, c, e))
    requires Follows(p, run) && i < k <= |run.opens| && run.at[i + 1].holdW >= 0 && OnlySince(p, run, i, k, RDONLY)
    ensures run.at[k].holdW >= 0
  {
    if i + 1 < k {
      assert OnlySince(p, run, i, k - 1, RDONLY);
      HoldStays(p, run, i, k - 1);
      assert run.at[k - 1 + 1] == Took(p, run, k - 1).f;
      assert LetIn(p, run, k - 1) ==> run.opens[k - 1].call.acc == RDONLY;
    }
  }

  lemma {:induction false} ReadEndStays(p: Protocol, run: Run, i: nat, k: nat)
    requires forall x, c, e {:trigger p(x, c, e)} :: KeepsForReader(x, c, p(x, c, e))
    requires Follows(p, run) && i < k <= |run.opens| && run.at[i + 1].holdR >= 0 && OnlySince(p, run, i, k, WRONLY)
    ensures run.at[k].holdR >= 0
  {
    if i + 1 < k {
      assert OnlySince(p, run, i, k - 1, WRONLY);
      ReadEndStays(p, run, i, k - 1);
      assert run.at[k - 1 + 1] == Took(p, run, k - 1).f;
      assert LetIn(p, run, k - 1) ==> run.opens[k - 1].call.acc == WRONLY;
    }
  }

  /** A waiting writer keeps its place while it stays within its patience. */
  lemma {:induction false} WaiterStays(p: Protocol, run: Run, w: Tid, t: int, a: nat, b: nat)
    requires forall x, c, e {:trigger p(x, c, e)} :: KeepsPlace(x, c, e, p(x, c, e), w, t)
    requires Follows(p, run) && a <= b <= |run.opens| && w in run.at[a].waitW && run.at[a].waitW[w] == t
    requires forall k :: a <= k < b ==> run.opens[k].call.who != w && run.opens[k].seen.now - t <= PATIENCE
    ensures w in run.at[b].waitW && run.at[b].waitW[w] == t
  {
    if a < b {
      WaiterStays(p, run, w, t, a, b - 1);
      assert run.at[b - 1 + 1] == Took(p, run, b - 1).f;
    }
  }

  /** So does a waiting reader. */
  lemma {:induction false} ReaderStays(p: Protocol, run: Run, r: Tid, t: int, a: nat, b: nat)
    requires forall x, c, e {:trigger p(x, c, e)} :: KeepsReader(x, c, e, p(x, c, e), r, t)
    requires Follows(p, run) && a <= b <= |run.opens| && r in run.at[a].waitR && run.at[a].waitR[r] == t
    requires forall k :: a <= k < b ==> run.opens[k].call.who != r && run.opens[k].seen.now - t <= PATIENCE
    ensures r in run.at[b].waitR && run.at[b].waitR[r] == t
  {
    if a < b {
      ReaderStays(p, run, r, t, a, b - 1);
      assert run.at[b - 1 + 1] == Took(p, run, b - 1).f;
    }
  }

  /** Over every run of opens of a new FIFO: what a held end is for. */
  lemma HeldEnds(run: Run, k: nat)
    requires Follows(Step, run) && k <= |run.opens| && run.at[0].holdW < 0 && run.at[0].holdR < 0
    ensures run.at[k].holdW >= 0 ==>
      exists i :: 0 <= i < k && ReaderCame(Step, run, i) && OnlySince(Step, run, i, k, RDONLY)
    ensures run.at[k].holdR >= 0 ==>
      exists i :: 0 <= i < k && WriterCame(Step, run, i) && OnlySince(Step, run, i, k, WRONLY)
  {
    forall x, c, e
      ensures HoldsForWriter(x, c, e, Step(x, c, e)) && HoldsForReader(x, c, e, Step(x, c, e))
    {
      StepDoes(x, c, e);
    }
    HeldForWriter(Step, run, k);
    HeldForReader(Step, run, k);
  }

  /** The reader let in at i left a write end held, and no writer has taken it over by j. */
  ghost predicate LeavesHold(run: Run, i: nat, j: nat)
    requires i < j <= |run.opens| && i < |run.at|
  {
    && run.opens[i].seen.writers == 0 && run.at[i].holdR < 0 && run.opens[i].seen.holdFd >= 0
    && OnlySince(Step, run, i, j, RDONLY)
  }

  /** RENDEZVOUS. A writer that tries at h, a reader that tries at i while the writer is still
      patient, and the writer trying again at j: either the writer was let in at once, or
      both are let in at those tries. The reader must not have closed again by j, unless
      the write end it left held is still there. */
  lemma Rendezvous(run: Run, w: Tid, r: Tid, h: nat, i: nat, j: nat)
    requires Follows(Step, run) && h < i < j < |run.opens| && r != w
    requires run.opens[h].call == Call(w, WRONLY, false)
    requires run.opens[i].call == Call(r, RDONLY, false) && run.opens[j].call == Call(w, WRONLY, false)
    requires forall k :: h < k < i ==>
      run.opens[k].call.who != w && run.opens[k].seen.now - run.opens[h].seen.now <= PATIENCE
    requires run.opens[i].seen.now - run.opens[h].seen.now <= PATIENCE
    requires run.opens[j].seen.readers > 0 || LeavesHold(run, i, j)
    ensures LetIn(Step, run, h) || (LetIn(Step, run, i) && LetIn(Step, run, j))
  {
    forall x, c, e
      ensures KeepsForWriter(x, c, Step(x, c, e)) && KeepsPlace(x, c, e, Step(x, c, e), w, run.opens[h].seen.now)
    {
      StepDoes(x, c, e);
      StepKeepsPlace(x, c, e, w, run.opens[h].seen.now);
    }
    WriterLetIn(run.at[h], run.opens[h].call, run.opens[h].seen);
    if !LetIn(Step, run, h) {
      assert run.at[h + 1] == Took(Step, run, h).f && run.at[i + 1] == Took(Step, run, i).f;
      WaiterStays(Step, run, w, run.opens[h].seen.now, h + 1, i);
      ReaderLetIn(run.at[i], run.opens[i].call, run.opens[i].seen);
      WriterLetIn(run.at[j], run.opens[j].call, run.opens[j].seen);
      if run.opens[j].seen.readers == 0 { HoldStays(Step, run, i, j); }
    }
  }
  /** The writer let in at i left a read end held, and no reader has taken it over by j. */
  ghost predicate LeavesData(run: Run, i: nat, j: nat)
    requires i < j <= |run.opens| && i < |run.at|
  {
    && run.opens[i].seen.readers == 0 && run.at[i].holdW < 0 && run.opens[i].seen.holdFd >= 0
    && OnlySince(Step, run, i, j, WRONLY)
  }

  /** THE WRITER THAT WILL NOT WAIT. A reader that tries at h, such a writer at i while the reader
      is still patient, and the reader trying again at j: either the reader was let in at
      once, or both are let in at those tries, and what the writer sends is kept by a read
      end until the reader takes that over. The writer must not have closed by j, unless
      the end is still held. */
  lemma RendezvousAtOnce(run: Run, w: Tid, r: Tid, h: nat, i: nat, j: nat)
    requires Follows(Step, run) && h < i < j < |run.opens| && r != w
    requires run.opens[h].call == Call(r, RDONLY, false) && run.opens[i].call == Call(w, WRONLY, true)
    requires run.opens[j].call == Call(r, RDONLY, false)
    requires forall k :: h < k < i ==>
      run.opens[k].call.who != r && run.opens[k].seen.now - run.opens[h].seen.now <= PATIENCE
    requires run.opens[i].seen.now - run.opens[h].seen.now <= PATIENCE
    requires run.opens[j].seen.writers > 0 || LeavesData(run, i, j)
    ensures LetIn(Step, run, h) || (LetIn(Step, run, i) && LetIn(Step, run, j))
    ensures !LetIn(Step, run, h) && LeavesData(run, i, j) ==>
      (forall k :: i < k <= j ==> run.at[k].holdR >= 0) && run.at[j].holdR in Took(Step, run, j).freed
  {
    forall x, c, e
      ensures KeepsForReader(x, c, Step(x, c, e)) && KeepsReader(x, c, e, Step(x, c, e), r, run.opens[h].seen.now)
    {
      StepDoes(x, c, e);
      StepKeepsPlace(x, c, e, r, run.opens[h].seen.now);
    }
    ReaderLetIn(run.at[h], run.opens[h].call, run.opens[h].seen);
    if !LetIn(Step, run, h) {
      assert run.at[h + 1] == Took(Step, run, h).f && run.at[i + 1] == Took(Step, run, i).f;
      ReaderStays(Step, run, r, run.opens[h].seen.now, h + 1, i);
      WriterLetIn(run.at[i], run.opens[i].call, run.opens[i].seen);
      ReaderLetIn(run.at[j], run.opens[j].call, run.opens[j].seen);
      if LeavesData(run, i, j) {
        forall k | i < k <= j ensures run.at[k].holdR >= 0 {
          assert OnlySince(Step, run, i, k, WRONLY);
          ReadEndStays(Step, run, i, k);
        }
        TakesOver(run.at[j], run.opens[j].call, run.opens[j].seen);
      }
    }
  }
}
