/** Reading a C string out of guest memory, in chunks that stop at page ends. */
module GuestStrings {
  import opened Basics

  const WORD := 0x1_0000_0000_0000_0000
  const PAGE := 4096
  const CHUNK := 64
  const LIMIT := 4096

  /** Guest memory: the byte at an address, or nothing where it cannot be read. */
  type Memory = nat -> Option<byte>

  function At(mem: Memory, base: nat, i: nat): Option<byte> { mem((base + i) % WORD) }

  /** One byte at a time, up to a NUL, an unreadable byte, or `room` bytes. */
  function ByteWise(mem: Memory, base: nat, i: nat, room: nat): seq<byte>
    decreases room
  {
    if room == 0 || At(mem, base, i).None? || At(mem, base, i).value == 0 then []
    else [At(mem, base, i).value] + ByteWise(mem, base, i + 1, room - 1)
  }

  /** That is the longest string there: it holds the bytes up to the first that ends it. */
  lemma {:induction false} ByteWiseIs(mem: Memory, base: nat, i: nat, room: nat)
    ensures var s := ByteWise(mem, base, i, room);
      && |s| <= room
      && (forall k :: 0 <= k < |s| ==> s[k] != 0 && At(mem, base, i + k) == Some(s[k]))
      && (|s| < room ==> At(mem, base, i + |s|) == None || At(mem, base, i + |s|) == Some(0))
    decreases room
  {
    if room > 0 && At(mem, base, i).Some? && At(mem, base, i).value != 0 {
      ByteWiseIs(mem, base, i + 1, room - 1);
      var s, t := ByteWise(mem, base, i, room), ByteWise(mem, base, i + 1, room - 1);
      assert s == [s[0]] + t && i + |s| == i + 1 + |t|;
      forall k | 0 < k < |s| ensures s[k] != 0 && At(mem, base, i + k) == Some(s[k]) {
        assert s[k] == t[k - 1] && i + k == i + 1 + (k - 1);
      }
    }
  }

  /** process_vm_readv: the whole range or nothing. A range over a page end is not asked for. */
  method CopyIn(mem: Memory, addr: nat, n: nat) returns (r: Option<seq<byte>>)
    requires addr < WORD && 0 < n && addr % PAGE + n <= PAGE
    ensures r.Some? <==> forall a :: addr <= a < addr + n ==> mem(a).Some?
    ensures r.Some? ==> |r.value| == n && forall i :: 0 <= i < n ==> mem(addr + i) == Some(r.value[i])
  {
    var s, i := [], 0;
    while i < n
      invariant 0 <= i <= n && |s| == i && forall a :: addr <= a < addr + i ==> mem(a) == Some(s[a - addr])
    {
      var b := mem(addr + i);
      if b.None? { return None; }
      s, i := s + [b.value], i + 1;
    }
    return Some(s);
  }

  /** Within one page an address does not wrap. */
  lemma NoWrap(base: nat, off: nat, i: nat)
    requires ((base + off) % WORD) % PAGE + i < PAGE
    ensures (base + (off + i)) % WORD == (base + off) % WORD + i
  {
    var a, q := (base + off) % WORD, (base + off) / WORD;
    assert WORD == PAGE * (WORD / PAGE);
    assert a / PAGE <= WORD / PAGE - 1;
    assert a + i < WORD;
    assert base + (off + i) == q * WORD + (a + i);
    WholeWords(q, a + i);
  }

  lemma WholeWords(q: nat, r: nat)
    requires r < WORD
    ensures (q * WORD + r) % WORD == r
  {
  }

  /** What has been read so far, and what one byte at a time would still read, is the whole. */
  predicate Partial(mem: Memory, base: nat, limit: nat, s: seq<byte>) {
    |s| <= limit + 1 && s + ByteWise(mem, base, |s|, limit + 1 - |s|) == ByteWise(mem, base, 0, limit + 1)
  }

  predicate Complete(mem: Memory, base: nat, limit: nat, s: seq<byte>) { s == ByteWise(mem, base, 0, limit + 1) }

  lemma OneMore(mem: Memory, base: nat, limit: nat, s: seq<byte>, b: byte)
    requires |s| <= limit && At(mem, base, |s|) == Some(b) && b != 0 && Partial(mem, base, limit, s)
    ensures Partial(mem, base, limit, s + [b])
  {
    var rest := ByteWise(mem, base, |s| + 1, limit - |s|);
    assert s + [b] + rest == s + ([b] + rest);
  }

  lemma Ends(mem: Memory, base: nat, limit: nat, s: seq<byte>)
    requires Partial(mem, base, limit, s)
    requires (|s| == limit + 1 || At(mem, base, |s|) == None || At(mem, base, |s|) == Some(0))
    ensures Complete(mem, base, limit, s)
  {
    assert s + [] == s;
  }

  /** Appends one byte, unless it ends the string. */
  method Push(mem: Memory, base: nat, limit: nat, s: seq<byte>, c: byte) returns (t: seq<byte>, done: bool)
    requires |s| <= limit && At(mem, base, |s|) == Some(c) && Partial(mem, base, limit, s)
    ensures if done then Complete(mem, base, limit, t) else |t| == |s| + 1 <= limit && Partial(mem, base, limit, t)
  {
    if c == 0 {
      Ends(mem, base, limit, s);
      return s, true;
    }
    OneMore(mem, base, limit, s, c);
    t := s + [c];
    if |t| > limit {
      Ends(mem, base, limit, t);
      return t, true;
    }
    return t, false;
  }

  method TakeChunk(mem: Memory, base: nat, limit: nat, s: seq<byte>, chunk: seq<byte>)
      returns (t: seq<byte>, done: bool)
    requires |s| <= limit && Partial(mem, base, limit, s)
    requires forall i :: 0 <= i < |chunk| ==> At(mem, base, |s| + i) == Some(chunk[i])
    ensures if done then Complete(mem, base, limit, t)
      else |t| == |s| + |chunk| <= limit && Partial(mem, base, limit, t)
  {
    t := s;
    var i := 0;
    while i < |chunk|
      invariant 0 <= i <= |chunk| && |t| == |s| + i <= limit && Partial(mem, base, limit, t)
    {
      assert At(mem, base, |s| + i) == Some(chunk[i]);
      t, done := Push(mem, base, limit, t, chunk[i]);
      if done { return; }
      i := i + 1;
    }
    done := false;
  }

  method TakeBytes(mem: Memory, base: nat, limit: nat, s: seq<byte>, want: nat) returns (t: seq<byte>, done: bool)
    requires |s| <= limit && Partial(mem, base, limit, s)
    ensures if done then Complete(mem, base, limit, t) else |t| == |s| + want <= limit && Partial(mem, base, limit, t)
  {
    t := s;
    var i := 0;
    while i < want
      invariant 0 <= i <= want && |t| == |s| + i <= limit && Partial(mem, base, limit, t)
    {
      var one := CopyIn(mem, (base + |s| + i) % WORD, 1);
      if one.None? {
        Ends(mem, base, limit, t);
        return t, true;
      }
      assert mem((base + |t|) % WORD + 0) == Some(one.value[0]);
      t, done := Push(mem, base, limit, t, one.value[0]);
      if done { return; }
      i := i + 1;
    }
    done := false;
  }

  /** The loop of read_cstr, whatever the limit. */
  method ReadUpTo(mem: Memory, base: nat, limit: nat) returns (s: seq<byte>)
    requires base < WORD
    ensures s == ByteWise(mem, base, 0, limit + 1)
  {
    s := [];
    var off := 0;
    assert [] + ByteWise(mem, base, 0, limit + 1) == ByteWise(mem, base, 0, limit + 1);
    while true
      invariant off == |s| <= limit && Partial(mem, base, limit, s)
      decreases limit - |s|
    {
      var here := (base + off) % WORD;
      var toPage := PAGE - here % PAGE;
      var want := if toPage < CHUNK then toPage else CHUNK;
      var chunk := CopyIn(mem, here, want);
      var done;
      if chunk.Some? {
        forall i | 0 <= i < want ensures At(mem, base, off + i) == Some(chunk.value[i]) { NoWrap(base, off, i); }
        s, done := TakeChunk(mem, base, limit, s, chunk.value);
      } else {
        s, done := TakeBytes(mem, base, limit, s, want);
      }
      if done { return; }
      off := off + want;
    }
  }

  lemma StringIs(mem: Memory, base: nat, limit: nat, s: seq<byte>)
    requires s == ByteWise(mem, base, 0, limit + 1)
    ensures |s| <= limit + 1 && forall k :: 0 <= k < |s| ==> s[k] != 0 && At(mem, base, k) == Some(s[k])
    ensures |s| <= limit ==> At(mem, base, |s|) == None || At(mem, base, |s|) == Some(0)
  {
    ByteWiseIs(mem, base, 0, limit + 1);
  }

  /** read_cstr: however the chunks fall, the string one byte at a time would give. */
  method ReadCstr(mem: Memory, base: nat) returns (s: seq<byte>)
    requires base < WORD
    ensures s == ByteWise(mem, base, 0, LIMIT + 1)
    ensures |s| <= 4097 && forall k :: 0 <= k < |s| ==> s[k] != 0 && At(mem, base, k) == Some(s[k])
    ensures |s| < 4097 ==> At(mem, base, |s|) == None || At(mem, base, |s|) == Some(0)
  {
    s := ReadUpTo(mem, base, LIMIT);
    StringIs(mem, base, LIMIT, s);
  }

  /** So the string is unharmed by what lies past its NUL, readable or not. */
  lemma {:induction false} OnlyTheStringMatters(m: Memory, n: Memory, base: nat, room: nat, i: nat)
    requires forall j :: i <= j <= i + |ByteWise(m, base, i, room)| ==> At(m, base, j) == At(n, base, j)
    ensures ByteWise(n, base, i, room) == ByteWise(m, base, i, room)
    decreases room
  {
    assert At(m, base, i) == At(n, base, i);
    if ByteWise(m, base, i, room) != [] { OnlyTheStringMatters(m, n, base, room - 1, i + 1); }
  }
}
