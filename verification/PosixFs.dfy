/** The reference file system: names map to inodes, several names may map to one.

    The same operations serve twice. Applied to the host's disk they say what the
    host's own calls do; applied to the guest's view they are the POSIX behaviour
    the emulation has to reproduce. */
module PosixFs {
  import opened HostNames

  /** `Placeholder` is the empty file the host holds at an emulated name. */
  datatype Node = Data(ino: nat) | Dir(ino: nat) | Placeholder

  type Fs = map<Path, Node>

  /** Everything above a name that exists is a directory that exists. */
  ghost predicate TreeShaped(fs: Fs) {
    && "" !in fs
    && forall q, p :: q in fs && Under(q, p) && p != q && p != "" ==> p in fs && fs[p].Dir?
  }

  predicate ParentsExist(fs: Fs, name: Path): (b: bool)
    ensures b <==> name != "" && forall p :: Under(name, p) && p != name && p != "" ==> p in fs && fs[p].Dir?
  {
    assert forall p :: Under(name, p) && p != name && p != "" ==>
      p == name[..|p|] && 0 < |p| < |name| && name[|p|] == '/';
    assert forall i :: 0 < i < |name| && name[i] == '/' ==> Under(name, name[..i]);
    name != "" && forall i :: 0 < i < |name| && name[i] == '/' ==> name[..i] in fs && fs[name[..i]].Dir?
  }

  /** rename(2) has nothing to object to: neither name is inside the other, the new
      name's parents exist, and what it replaces is of the same kind and empty. */
  predicate RenameOk(fs: Fs, from: Path, to: Path) {
    && from in fs
    && Apart(from, to)
    && ParentsExist(fs, to)
    && (forall q :: q in fs && Under(q, to) ==> q == to)
    && (to in fs ==> (fs[from].Dir? <==> fs[to].Dir?))
  }

  predicate CanRename(fs: Fs, from: Path, to: Path) {
    from in fs && (from == to || RenameOk(fs, from, to))
  }

  predicate CanExchange(fs: Fs, x: Path, y: Path) {
    x in fs && y in fs && (x == y || Apart(x, y))
  }

  predicate SameFile(fs: Fs, x: Path, y: Path) {
    x in fs && y in fs && (x == y || (fs[x].Data? && fs[x] == fs[y]))
  }

  // ----- relabelling a map's names ------------------------------------------

  ghost predicate Involution(f: Path -> Path) {
    forall q :: f(f(q)) == q
  }

  /** The map with every name `q` called `f(q)`. */
  function Relabel<V>(m: map<Path, V>, f: Path -> Path): (r: map<Path, V>)
    requires Involution(f)
    ensures forall q {:trigger q in r} :: q in r <==> f(q) in m
    ensures forall q {:trigger r[q]} :: q in r ==> r[q] == m[f(q)]
  {
    map q | q in (set p | p in m :: f(p)) :: m[f(q)]
  }

  lemma RelabelTwice<V>(m: map<Path, V>, f: Path -> Path)
    requires Involution(f)
    ensures Relabel(Relabel(m, f), f) == m
  {
    assert forall q :: q in m ==> f(f(q)) == q;
  }

  function Swapper(x: Path, y: Path): (f: Path -> Path)
    requires Apart(x, y)
    ensures Involution(f)
  {
    var f := q => Swap(q, x, y);
    assert Involution(f) by {
      forall q ensures f(f(q)) == q { SwapInvolution(q, x, y); }
    }
    f
  }

  /** The map in which every name of one subtree trades places with the other's. */
  function SwapKeys<V>(m: map<Path, V>, x: Path, y: Path): map<Path, V>
    requires Apart(x, y)
  {
    Relabel(m, Swapper(x, y))
  }

  /** unlink(2). */
  function Unlinked(fs: Fs, name: Path): Fs { fs - {name} }

  /** link(2): the new name joins the inode the old one names. */
  function Linked(fs: Fs, src: Path, dst: Path): Fs
    requires src in fs
  {
    fs[dst := fs[src]]
  }

  /** rename(2), the rule of IEEE Std 1003.1-2017 included that two names of one file
      are left as they are. The ensures clauses spell out what the swap amounts to. */
  function Renamed(fs: Fs, from: Path, to: Path): (r: Fs)
    requires CanRename(fs, from, to)
    ensures SameFile(fs, from, to) ==> r == fs
    ensures !SameFile(fs, from, to) ==> forall q ::
      if Under(q, to) then (q in r <==> Moved(q, to, from) in fs) && (q in r ==> r[q] == fs[Moved(q, to, from)])
      else if Under(q, from) then q !in r
      else (q in r <==> q in fs) && (q in r ==> r[q] == fs[q])
  {
    if SameFile(fs, from, to) then fs else
      var r := SwapKeys(fs - {to}, from, to);
      assert forall q :: Under(q, to) ==> Swap(q, from, to) == Moved(q, to, from) && Moved(q, to, from) != to by {
        forall q | Under(q, to)
          ensures Swap(q, from, to) == Moved(q, to, from) && Moved(q, to, from) != to
        {
          SwapInvolution(q, from, to);
          if Under(q, from) { AncestorsComparable(q, from, to); }
        }
      }
      assert forall q :: Under(q, from) ==> Under(Swap(q, from, to), to) by {
        forall q | Under(q, from) ensures Under(Swap(q, from, to), to) { SwapInvolution(q, from, to); }
      }
      r
  }

  /** renameat2(2) with RENAME_EXCHANGE. */
  function Exchanged(fs: Fs, x: Path, y: Path): Fs
    requires CanExchange(fs, x, y)
  {
    if x == y then fs else SwapKeys(fs, x, y)
  }

  lemma ExchangeTwice(fs: Fs, x: Path, y: Path)
    requires CanExchange(fs, x, y)
    ensures CanExchange(Exchanged(fs, x, y), x, y)
    ensures Exchanged(Exchanged(fs, x, y), x, y) == fs
  {
    if x != y {
      RelabelTwice(fs, Swapper(x, y));
      assert Swapper(x, y)(x) == y && Swapper(x, y)(y) == x;
    }
  }

  /** WHEN A RENAME IS ALLOWED, in the words of rename(2): there is something to rename, the new
      name's parents are directories, it does not lie inside the old one, and what is there
      already is a file for a file or an empty directory for a directory. */
  lemma RenameAllowedIff(fs: Fs, from: Path, to: Path)
    requires TreeShaped(fs)
    ensures CanRename(fs, from, to) <==>
      from in fs &&
      (from == to ||
       (&& to != "" && (forall p :: Under(to, p) && p != to && p != "" ==> p in fs && fs[p].Dir?)
        && !Under(to, from)
        && (to in fs ==> fs[from].Dir? == fs[to].Dir? && forall q :: q in fs && Under(q, to) ==> q == to)))
  {
  }

  /** AND WHAT IT DOES, to a directory as to a file: every name below goes along with its node. */
  lemma RenameMoves(fs: Fs, from: Path, to: Path, tail: string)
    requires TreeShaped(fs) && CanRename(fs, from, to) && from + tail in fs && (tail == "" || tail[0] == '/')
    ensures to + tail in Renamed(fs, from, to) && Renamed(fs, from, to)[to + tail] == fs[from + tail]
  {
    MovedKeepsTail(to + tail, to, from, tail);
    MovedKeepsTail(from + tail, from, to, tail);
    assert Under(from + tail, from) && Under(to + tail, to);
    assert tail != "" ==> fs[from].Dir?;
  }

  /** There is something to rename, the new name's parents are directories, and what is there
      already is a file for a file or an empty directory for a directory. */
  ghost predicate Unopposed(fs: Fs, from: Path, to: Path) {
    && from in fs && to != "" && Apart(from, to)
    && (forall p :: Under(to, p) && p != to && p != "" ==> p in fs && fs[p].Dir?)
    && (to in fs ==> fs[from].Dir? == fs[to].Dir? && forall q :: q in fs && Under(q, to) ==> q == to)
  }

  /** Every name of the subtree has come to the new place with its node. */
  ghost predicate Arrived(fs: Fs, now: Fs, from: Path, to: Path) {
    forall q :: q in fs && Under(q, from) ==> Moved(q, from, to) in now && now[Moved(q, from, to)] == fs[q]
  }

  lemma UnopposedMoves(fs: Fs, from: Path, to: Path)
    requires TreeShaped(fs) && Unopposed(fs, from, to)
    ensures CanRename(fs, from, to) && Arrived(fs, Renamed(fs, from, to), from, to)
  {
    assert CanRename(fs, from, to) by { RenameAllowedIff(fs, from, to); }
    forall q | q in fs && Under(q, from)
      ensures Moved(q, from, to) in Renamed(fs, from, to) && Renamed(fs, from, to)[Moved(q, from, to)] == fs[q]
    {
      assert q == from + q[|from|..];
      RenameMoves(fs, from, to, q[|from|..]);
    }
  }

  /** An exchange is refused only for names that are missing or inside one another, and each
      subtree, file or directory, arrives whole at the other's name. */
  lemma ExchangeMoves(fs: Fs, x: Path, y: Path, tail: string)
    requires x in fs && y in fs && Apart(x, y) && (tail == "" || tail[0] == '/')
    ensures CanExchange(fs, x, y) && CanExchange(fs, x, x)
    ensures x + tail in fs <==> y + tail in Exchanged(fs, x, y)
    ensures y + tail in fs <==> x + tail in Exchanged(fs, x, y)
    ensures x + tail in fs ==> Exchanged(fs, x, y)[y + tail] == fs[x + tail]
    ensures y + tail in fs ==> Exchanged(fs, x, y)[x + tail] == fs[y + tail]
  {
    assert Swapper(x, y)(y + tail) == x + tail by { SwapTail(x, y, tail); }
    assert Swapper(x, y)(x + tail) == y + tail by { SwapTail(x, y, tail); }
  }

  lemma SwapTail(x: Path, y: Path, tail: string)
    requires Apart(x, y) && (tail == "" || tail[0] == '/')
    ensures Swap(x + tail, x, y) == y + tail && Swap(y + tail, x, y) == x + tail
  {
    MovedKeepsTail(x + tail, x, y, tail);
    MovedKeepsTail(y + tail, y, x, tail);
    assert Under(x + tail, x) && Under(y + tail, y);
    if Under(y + tail, x) { AncestorsComparable(y + tail, x, y); }
  }

  /** Swapping two apart subtrees, one of them possibly empty, keeps the tree a tree. */
  lemma SwapKeepsTree(fs: Fs, x: Path, y: Path)
    requires TreeShaped(fs) && Apart(x, y) && x in fs && ParentsExist(fs, y)
    ensures TreeShaped(SwapKeys(fs, x, y))
  {
    var r := SwapKeys(fs, x, y);
    assert Swapper(x, y)("") == "";
    forall q, p | q in r && Under(q, p) && p != q && p != ""
      ensures p in r && r[p].Dir?
    {
      var q0, p0 := Swap(q, x, y), Swap(p, x, y);
      SwapInvolution(q, x, y);
      SwapInvolution(p, x, y);
      SwapAncestor(q0, p, x, y);
      if Under(q0, p0) {
        assert p0 != "";
      } else if Under(q0, x) && Under(y, p) && p != y {
        assert !Under(p, x) by { if Under(p, x) { UnderTrans(y, p, x); } }
        assert !Under(p, y) by { if Under(p, y) { } }
      } else {
        assert !Under(p, y) by { if Under(p, y) { UnderTrans(x, p, y); } }
        assert x in fs;
      }
    }
  }
}
