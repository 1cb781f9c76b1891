/** A virtual directory read by getdents64 and sought by lseek. */
module DirStreams {
  import opened Basics
  import opened Dirents

  datatype Kind = Regular | Directory | Symlink
  datatype Entry = Entry(ino: nat, kind: Kind, name: seq<byte>)

  function DType(k: Kind): byte { match k case Symlink => 10 case Directory => 4 case Regular => 8 }

  function Size(e: Entry): (n: nat)
    ensures n >= 20
  {
    Reclen(|e.name|)
  }

  /** The cookie of the i-th record: the bytes of the records before it. */
  function Offset(es: seq<Entry>, i: nat): nat
    requires i <= |es|
  {
    if i == 0 then 0 else Offset(es, i - 1) + Size(es[i - 1])
  }

  lemma {:induction false} OffsetRises(es: seq<Entry>, i: nat, j: nat)
    requires i < j <= |es|
    ensures Offset(es, i) < Offset(es, j)
  {
    if i < j - 1 { OffsetRises(es, i, j - 1); }
  }

  function RecordAt(es: seq<Entry>, i: nat): Dirent
    requires i < |es|
  {
    Dirent(if es[i].ino != 0 then es[i].ino else i + 1, Offset(es, i + 1), DType(es[i].kind), es[i].name)
  }

  function Records(es: seq<Entry>, from: nat, to: nat): (r: seq<Dirent>)
    requires from <= to <= |es|
    ensures |r| == to - from && forall i :: 0 <= i < |r| ==> r[i] == RecordAt(es, from + i)
    decreases |es| - from
  {
    if from == to then [] else [RecordAt(es, from)] + Records(es, from + 1, to)
  }

  /** The reader's records are the entries from `from` to `to`, in order: each has its entry's
      name, its inode or else its place in the directory, its type as getdents64 writes it,
      and the cookie of the entry after it. */
  ghost predicate Lists(es: seq<Entry>, from: nat, to: nat, rs: seq<Dirent>) {
    && from <= to <= |es| && |rs| == to - from
    && forall i :: 0 <= i < |rs| ==>
         && rs[i].name == es[from + i].name
         && (if es[from + i].ino == 0 then rs[i].ino == from + i + 1 else rs[i].ino == es[from + i].ino)
         && (es[from + i].kind.Directory? ==> rs[i].kind == 4)
         && (es[from + i].kind.Regular? ==> rs[i].kind == 8)
         && (es[from + i].kind.Symlink? ==> rs[i].kind == 10)
         && rs[i].off == Offset(es, from + i + 1)
  }

  lemma RecordsList(es: seq<Entry>, from: nat, to: nat)
    requires from <= to <= |es|
    ensures Lists(es, from, to, Records(es, from, to))
  {
  }

  lemma RecordsJoin(es: seq<Entry>, a: nat, b: nat, c: nat)
    requires a <= b <= c <= |es|
    ensures Records(es, a, b) + Records(es, b, c) == Records(es, a, c)
  {
  }

  lemma Assoc(a: seq<byte>, b: seq<byte>, c: seq<byte>)
    ensures a + (b + c) == a + b + c
  {
  }

  lemma {:induction false} EncodedAppend(rs: seq<Dirent>, e: Dirent)
    ensures EncodedAll(rs + [e]) == EncodedAll(rs) + Encoded(e)
  {
    if rs == [] {
      assert rs + [e] == [e];
      assert Encoded(e) + [] == Encoded(e) && [] + Encoded(e) == Encoded(e);
    } else {
      EncodedAppend(rs[1..], e);
      assert (rs + [e])[1..] == rs[1..] + [e];
      Assoc(Encoded(rs[0]), EncodedAll(rs[1..]), Encoded(e));
    }
  }

  /** Where a batch of at most `cap` bytes that starts at `from` ends. */
  predicate Fills(es: seq<Entry>, from: nat, cap: nat, to: nat) {
    && from <= to <= |es|
    && Offset(es, from) <= Offset(es, to)
    && Offset(es, to) - Offset(es, from) <= cap
    && (to < |es| ==> Offset(es, to + 1) - Offset(es, from) > cap)
  }

  lemma FillsOnce(es: seq<Entry>, from: nat, cap: nat, a: nat, b: nat)
    requires Fills(es, from, cap, a) && Fills(es, from, cap, b)
    ensures a == b
  {
    if a + 1 < b { OffsetRises(es, a + 1, b); }
    if b + 1 < a { OffsetRises(es, b + 1, a); }
  }

  /** The first record that starts at or after `target`, or the end. */
  predicate Lands(es: seq<Entry>, target: nat, k: nat) {
    k <= |es| && (k < |es| ==> Offset(es, k) >= target) && (k > 0 ==> Offset(es, k - 1) < target)
  }

  const TWO63: int := 0x8000_0000_0000_0000

  /** A sum kept in 64 bits, signed. */
  function Wrap64(n: int): int { (n + TWO63) % (2 * TWO63) - TWO63 }

  function Target(byteOff: nat, off: int, whence: int): int {
    if whence == 0 then off else if whence == 1 then Wrap64(Wrap64(byteOff) + off) else -1
  }

  datatype Errno = EINVAL | EFAULT
  datatype Answer = Value(v: nat) | Failed(errno: Errno)

  class DirStream {
    const entries: seq<Entry>
    var pos: nat
    var byteOff: nat

    ghost predicate Valid()
      reads this
    {
      pos <= |entries| && byteOff == Offset(entries, pos)
    }

    constructor (es: seq<Entry>)
      ensures Valid() && entries == es && pos == 0
    {
      entries, pos, byteOff := es, 0, 0;
    }

    /** getdents64 with room for `cap` bytes; `copyOk` is whether the guest's buffer can be
        written. The cursor moves as far whether or not it can. */
    method Getdents(cap: nat, copyOk: bool) returns (r: Answer, mem: seq<byte>)
      requires Valid()
      modifies this
      ensures Valid() && Fills(entries, old(pos), cap, pos)
      ensures r == if pos == old(pos) then (if pos < |entries| then Failed(EINVAL) else Value(0))
                   else if copyOk then Value(Offset(entries, pos) - Offset(entries, old(pos))) else Failed(EFAULT)
      ensures mem == if r.Value? then EncodedAll(Records(entries, old(pos), pos)) else []
      ensures Decent(entries) && r.Value? ==> Lists(entries, old(pos), pos, Walk(mem)) && |mem| == r.v <= cap
    {
      ghost var from := pos;
      var out := Batch(cap);
      if Decent(entries) { GuestReads(entries, from, pos); }
      if out == [] {
        if pos < |entries| { return Failed(EINVAL), []; }
        return Value(0), [];
      }
      if !copyOk { return Failed(EFAULT), []; }
      return Value(|out|), out;
    }

    method Batch(cap: nat) returns (out: seq<byte>)
      requires Valid()
      modifies this
      ensures Valid() && Fills(entries, old(pos), cap, pos) && out == EncodedAll(Records(entries, old(pos), pos))
      ensures |out| == byteOff - old(byteOff) && (out == [] <==> pos == old(pos))
    {
      out := [];
      ghost var rs := [];
      while pos < |entries| && |out| + Reclen(|entries[pos].name|) <= cap
        invariant Valid() && old(pos) <= pos
        invariant rs == Records(entries, old(pos), pos) && out == EncodedAll(rs)
        invariant |out| == byteOff - old(byteOff) <= cap && (|out| == 0 <==> pos == old(pos))
        decreases |entries| - pos
      {
        EncodedAppend(rs, RecordAt(entries, pos));
        OneMore(entries, old(pos), pos);
        rs := rs + [RecordAt(entries, pos)];
        var bytes := Emit();
        out := out + bytes;
      }
    }

    /** One record out, and the cursor past it. */
    method Emit() returns (bytes: seq<byte>)
      requires Valid() && pos < |entries|
      modifies this
      ensures Valid() && pos == old(pos) + 1 && byteOff == old(byteOff) + |bytes|
      ensures bytes == Encoded(RecordAt(entries, old(pos))) && |bytes| == Reclen(|entries[old(pos)].name|)
    {
      var e := entries[pos];
      var reclen := Reclen(|e.name|);
      var room := new byte[reclen];
      var ino := if e.ino != 0 then e.ino else pos + 1;
      var n := EncodeDirent(room, Dirent(ino, byteOff + reclen, DType(e.kind), e.name));
      assert room[..] == room[..n];
      bytes := room[..];
      byteOff := byteOff + reclen;
      pos := pos + 1;
    }

    /** lseek on the directory: 0 and 1 are SEEK_SET and SEEK_CUR, all else is refused. The sum
        is a 64-bit one, and one that overflows wraps to a negative target. */
    method Lseek(off: int, whence: int) returns (r: Answer)
      requires Valid() && -TWO63 <= off < TWO63
      modifies this
      ensures Valid()
      ensures var target := Target(old(byteOff), off, whence);
        if target < 0 then r == Failed(EINVAL) && pos == old(pos)
        else r == Value(byteOff) && Lands(entries, target, pos)
      ensures whence != 0 && whence != 1 ==> r == Failed(EINVAL) && pos == old(pos)
      ensures whence == 0 ==> if off < 0 then r == Failed(EINVAL) && pos == old(pos) else Lands(entries, off, pos)
      ensures whence == 1 && old(byteOff) < TWO63 && 0 <= old(byteOff) + off < TWO63 ==>
        Lands(entries, old(byteOff) + off, pos)
      ensures whence == 1 && old(byteOff) < TWO63 && old(byteOff) + off < 0 ==>
        r == Failed(EINVAL) && pos == old(pos)
    {
      ghost var here := byteOff;
      if here < TWO63 {
        InRange(here);
        if here + off < TWO63 { InRange(here + off); }
      }
      var target := if whence == 0 then off else if whence == 1 then Wrap64(Wrap64(byteOff) + off) else -1;
      if target < 0 { return Failed(EINVAL); }
      var cur, idx := 0, 0;
      while idx < |entries| && cur < target
        invariant 0 <= idx <= |entries| && cur == Offset(entries, idx)
        invariant idx > 0 ==> Offset(entries, idx - 1) < target
      {
        cur := cur + Reclen(|entries[idx].name|);
        idx := idx + 1;
      }
      pos, byteOff := idx, cur;
      return Value(byteOff);
    }
  }

  lemma OneMore(es: seq<Entry>, from: nat, pos: nat)
    requires from <= pos < |es|
    ensures Records(es, from, pos) + [RecordAt(es, pos)] == Records(es, from, pos + 1)
  {
  }

  lemma OffsetsBelow(es: seq<Entry>, i: nat)
    requires i <= |es|
    ensures Offset(es, i) <= Offset(es, |es|)
  {
    if i < |es| { OffsetRises(es, i, |es|); }
  }

  // ----- seeking ------------------------------------------------------------------------------

  /** A seek to a cookie lands on the record the cookie names, and nowhere else. */
  lemma CookieLands(es: seq<Entry>, i: nat, k: nat)
    requires i <= |es|
    ensures Lands(es, Offset(es, i), k) <==> k == i
  {
    if k < i && k < |es| { OffsetRises(es, k, i); }
    if i + 1 < k && k - 1 <= |es| { OffsetRises(es, i, k - 1); }
    if i > 0 { OffsetRises(es, i - 1, i); }
  }

  lemma Difference(here: nat, cookie: nat)
    requires here < TWO63 && cookie < TWO63
    ensures Target(here, cookie - here, 1) == cookie
  {
    InRange(here);
    InRange(cookie);
  }

  lemma InRange(n: int)
    requires -TWO63 <= n < TWO63
    ensures Wrap64(n) == n
  {
  }

  /** Every d_off handed out, whether sought absolutely or as a distance from wherever the
      cursor now is, resumes at the entry after the one that carried it. */
  method SeekResumes(d: DirStream, i: nat, relative: bool) returns (r: Answer)
    requires d.Valid() && i < |d.entries| && Offset(d.entries, |d.entries|) < TWO63
    modifies d
    ensures d.Valid() && d.pos == i + 1 && r == Value(RecordAt(d.entries, i).off)
  {
    var cookie := RecordAt(d.entries, i).off;
    OffsetsBelow(d.entries, i + 1);
    OffsetsBelow(d.entries, d.pos);
    if relative {
      Difference(d.byteOff, cookie);
      r := d.Lseek(cookie - d.byteOff, 1);
    } else {
      r := d.Lseek(cookie, 0);
    }
    CookieLands(d.entries, i + 1, d.pos);
  }

  // ----- whole runs -----------------------------------------------------------------------------

  datatype Call = Call(cap: nat, copyOk: bool)

  /** The cursor after each of a run of getdents calls. */
  ghost predicate Run(es: seq<Entry>, calls: seq<Call>, at: seq<nat>) {
    && |at| == |calls| + 1
    && (forall i :: 0 <= i < |at| ==> at[i] <= |es|)
    && (forall i :: 0 <= i < |calls| ==> Fills(es, at[i], calls[i].cap, at[i + 1]))
  }

  /** What the guest's reader has seen after the first n calls. */
  ghost function Seen(es: seq<Entry>, calls: seq<Call>, at: seq<nat>, n: nat): seq<Dirent>
    requires Run(es, calls, at) && n <= |calls|
  {
    if n == 0 then [] else
      assert Fills(es, at[n - 1], calls[n - 1].cap, at[n]);
      Seen(es, calls, at, n - 1) + (if calls[n - 1].copyOk then Records(es, at[n - 1], at[n]) else [])
  }

  /** The entries passed over by calls that could not be copied out. */
  ghost function Lost(es: seq<Entry>, calls: seq<Call>, at: seq<nat>, n: nat): nat
    requires Run(es, calls, at) && n <= |calls|
  {
    if n == 0 then 0 else
      assert Fills(es, at[n - 1], calls[n - 1].cap, at[n]);
      Lost(es, calls, at, n - 1) + (if calls[n - 1].copyOk then 0 else at[n] - at[n - 1])
  }

  /** EXACTLY ONCE, IN ORDER. Over any run of buffer sizes the guest reads the records
      from where it began to the cursor, each once and in order, just when no call
      that failed to copy had already moved the cursor; otherwise those are missing. */
  lemma {:induction false} SeenIs(es: seq<Entry>, calls: seq<Call>, at: seq<nat>, n: nat)
    requires Run(es, calls, at) && n <= |calls|
    ensures at[0] <= at[n] && |Seen(es, calls, at, n)| + Lost(es, calls, at, n) == at[n] - at[0]
    ensures Seen(es, calls, at, n) == Records(es, at[0], at[n]) <==> Lost(es, calls, at, n) == 0
  {
    if n > 0 {
      SeenIs(es, calls, at, n - 1);
      assert Fills(es, at[n - 1], calls[n - 1].cap, at[n]);
      RecordsJoin(es, at[0], at[n - 1], at[n]);
    }
  }

  /** The loss is real: one entry, a first call that faults, and the guest never sees it. */
  lemma FaultLosesAnEntry(e: Entry)
    ensures var es := [e]; var calls, at := [Call(Size(e), false), Call(Size(e), true)], [0, 1, 1];
      Run(es, calls, at) && Seen(es, calls, at, 2) == [] != Records(es, 0, 1)
  {
    var es := [e];
    var calls, at := [Call(Size(e), false), Call(Size(e), true)], [0, 1, 1];
    assert Offset(es, 0) == 0 && Offset(es, 1) == Size(e);
    forall i | 0 <= i < 2 ensures Fills(es, at[i], calls[i].cap, at[i + 1]) {}
    assert Run(es, calls, at);
    assert Seen(es, calls, at, 0) == [] && Seen(es, calls, at, 1) == [];
    assert Records(es, 1, 1) == [];
  }

  lemma Advances(es: seq<Entry>, from: nat, cap: nat, to: nat)
    requires Fills(es, from, cap, to) && from < |es| && cap >= Size(es[from])
    ensures to > from
  {
    assert Offset(es, from + 1) - Offset(es, from) == Size(es[from]);
  }

  /** A call with room for the next record moves on, so a reader that keeps offering that
      much room reaches the end after at most one call for each entry. */
  lemma {:induction false} ReachesEnd(es: seq<Entry>, calls: seq<Call>, at: seq<nat>, n: nat)
    requires Run(es, calls, at) && n <= |calls|
    requires forall i, j :: 0 <= i < |calls| && 0 <= j < |es| ==> calls[i].cap >= Size(es[j])
    ensures at[n] == |es| || at[n] >= at[0] + n
  {
    if n > 0 {
      ReachesEnd(es, calls, at, n - 1);
      assert Fills(es, at[n - 1], calls[n - 1].cap, at[n]);
      if at[n - 1] < |es| { Advances(es, at[n - 1], calls[n - 1].cap, at[n]); }
    }
  }

  /** What the guest's own walk of a delivered buffer yields: the records themselves. */
  lemma GuestReads(es: seq<Entry>, from: nat, to: nat)
    requires from <= to <= |es| && Decent(es)
    ensures Walk(EncodedAll(Records(es, from, to))) == Records(es, from, to)
    ensures Lists(es, from, to, Walk(EncodedAll(Records(es, from, to))))
  {
    RecordsList(es, from, to);
    var rs := Records(es, from, to);
    forall i | 0 <= i < |rs| ensures Fits(rs[i]) {
      if from + i + 1 < |es| { OffsetRises(es, from + i + 1, |es|); }
    }
    WalkReadsBack(rs);
  }

  ghost predicate Decent(es: seq<Entry>) {
    && |es| < Bound(8) && Offset(es, |es|) < Bound(8)
    && forall i :: 0 <= i < |es| ==> es[i].ino < Bound(8) && Size(es[i]) < Bound(2) && 0 !in es[i].name
  }

  /** What a reader walking the first n buffers finds. */
  function Walked(mems: seq<seq<byte>>, n: nat): seq<Dirent>
    requires n <= |mems|
  {
    if n == 0 then [] else Walked(mems, n - 1) + Walk(mems[n - 1])
  }

  /** A run of calls on a stream, from wherever it stands: the guest's walk of the buffers it was
      given finds what the run's account says it has seen. */
  method ReadRun(d: DirStream, calls: seq<Call>) returns (mems: seq<seq<byte>>, ghost at: seq<nat>)
    requires d.Valid()
    modifies d
    ensures d.Valid() && Run(d.entries, calls, at) && at[0] == old(d.pos) && at[|calls|] == d.pos
    ensures |mems| == |calls| && (Decent(d.entries) ==> Walked(mems, |mems|) == Seen(d.entries, calls, at, |calls|))
  {
    mems, at := [], [d.pos];
    var k := 0;
    while k < |calls|
      invariant 0 <= k == |mems| <= |calls| && |at| == k + 1 && d.Valid() && at[0] == old(d.pos) && at[k] == d.pos
      invariant forall i :: 0 <= i <= k ==> at[i] <= |d.entries|
      invariant forall i :: 0 <= i < k ==> Served(d.entries, at[i], calls[i], at[i + 1], mems[i])
    {
      var r, mem := d.Getdents(calls[k].cap, calls[k].copyOk);
      assert Records(d.entries, d.pos, d.pos) == [];
      mems, at, k := mems + [mem], at + [d.pos], k + 1;
    }
    if Decent(d.entries) { WalkedIsSeen(d.entries, calls, at, mems, k); }
  }

  ghost predicate Served(es: seq<Entry>, from: nat, call: Call, to: nat, mem: seq<byte>) {
    Fills(es, from, call.cap, to) && mem == if call.copyOk then EncodedAll(Records(es, from, to)) else []
  }

  lemma {:induction false} WalkedIsSeen(es: seq<Entry>, calls: seq<Call>, at: seq<nat>, mems: seq<seq<byte>>, n: nat)
    requires Decent(es) && Run(es, calls, at) && |mems| == |calls| && n <= |calls|
    requires forall i :: 0 <= i < |calls| ==> Served(es, at[i], calls[i], at[i + 1], mems[i])
    ensures Walked(mems, n) == Seen(es, calls, at, n)
  {
    if n > 0 {
      WalkedIsSeen(es, calls, at, mems, n - 1);
      assert Served(es, at[n - 1], calls[n - 1], at[n - 1 + 1], mems[n - 1]);
      if calls[n - 1].copyOk { GuestReads(es, at[n - 1], at[n]); }
    }
  }
}
