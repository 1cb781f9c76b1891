/** The linux_dirent64 record: its layout, and how a reader walks a buffer of them. */
module Dirents {
  import opened Basics

  datatype Dirent = Dirent(ino: nat, off: nat, kind: byte, name: seq<byte>)

  /** Header, name and NUL, padded to eight bytes. */
  function Reclen(namelen: nat): (n: nat)
    ensures n % 8 == 0 && namelen + 20 <= n < namelen + 28
  {
    (19 + namelen + 1 + 7) / 8 * 8
  }

  // ----- little-endian numbers ------------------------------------------------------------

  function Bound(n: nat): nat { if n == 0 then 1 else 256 * Bound(n - 1) }

  function Le(v: nat, n: nat): (s: seq<byte>)
    ensures |s| == n
  {
    if n == 0 then [] else [v % 256] + Le(v / 256, n - 1)
  }

  function FromLe(s: seq<byte>): nat { if s == [] then 0 else s[0] + 256 * FromLe(s[1..]) }

  lemma {:induction false} LeRoundTrip(v: nat, n: nat)
    requires v < Bound(n)
    ensures FromLe(Le(v, n)) == v
  {
    if n > 0 {
      LeRoundTrip(v / 256, n - 1);
      assert Le(v, n)[1..] == Le(v / 256, n - 1);
    }
  }

  /** The low byte comes first. */
  lemma LowByteFirst(v: nat)
    requires v < 65536
    ensures Le(v, 2) == [v % 256, v / 256] && FromLe([v % 256, v / 256]) == v
  {
    assert Le(v / 256, 1) == [v / 256];
    LeRoundTrip(v, 2);
  }

  // ----- one record -------------------------------------------------------------------------

  function Zeros(n: nat): (s: seq<byte>)
    ensures |s| == n && forall i :: 0 <= i < n ==> s[i] == 0
  {
    if n == 0 then [] else [0] + Zeros(n - 1)
  }

  function Encoded(e: Dirent): (s: seq<byte>)
    ensures |s| == Reclen(|e.name|)
  {
    Le(e.ino, 8) + Le(e.off, 8) + Le(Reclen(|e.name|), 2) + [e.kind] + e.name + Zeros(Reclen(|e.name|) - 19 - |e.name|)
  }

  method Put(out: array<byte>, at: nat, value: nat, n: nat)
    requires at + n <= out.Length
    modifies out
    ensures out[at..at + n] == Le(value, n)
    ensures forall j :: 0 <= j < out.Length && !(at <= j < at + n) ==> out[j] == old(out[j])
  {
    ghost var digits := Le(value, n);
    var v, i := value, 0;
    while i < n
      invariant 0 <= i <= n && Le(v, n - i) == digits[i..]
      invariant forall j :: 0 <= j < i ==> out[at + j] == digits[j]
      invariant forall j :: 0 <= j < out.Length && !(at <= j < at + i) ==> out[j] == old(out[j])
    {
      assert digits[i..][0] == digits[i] && digits[i..][1..] == digits[i + 1..];
      out[at + i] := v % 256;
      v, i := v / 256, i + 1;
    }
  }

  method Clear(out: array<byte>, n: nat)
    requires n <= out.Length
    modifies out
    ensures forall j :: 0 <= j < n ==> out[j] == 0
    ensures forall j :: n <= j < out.Length ==> out[j] == old(out[j])
  {
    var i := 0;
    while i < n
      invariant 0 <= i <= n
      invariant forall j :: 0 <= j < i ==> out[j] == 0
      invariant forall j :: i <= j < out.Length ==> out[j] == old(out[j])
    {
      out[i] := 0;
      i := i + 1;
    }
  }

  method PutName(out: array<byte>, name: seq<byte>)
    requires 19 + |name| <= out.Length
    modifies out
    ensures out[19..19 + |name|] == name
    ensures forall j :: 0 <= j < out.Length && !(19 <= j < 19 + |name|) ==> out[j] == old(out[j])
  {
    var k := 0;
    while k < |name|
      invariant 0 <= k <= |name|
      invariant forall j :: 0 <= j < k ==> out[19 + j] == name[j]
      invariant forall j :: 0 <= j < out.Length && !(19 <= j < 19 + k) ==> out[j] == old(out[j])
    {
      out[19 + k] := name[k];
      k := k + 1;
    }
  }

  lemma Assembled(s: seq<byte>, e: Dirent)
    requires |s| == Reclen(|e.name|)
    requires s[..8] == Le(e.ino, 8) && s[8..16] == Le(e.off, 8) && s[16..18] == Le(|s|, 2) && s[18] == e.kind
    requires s[19..19 + |e.name|] == e.name && forall j :: 19 + |e.name| <= j < |s| ==> s[j] == 0
    ensures s == Encoded(e)
  {
    AllZeros(s[19 + |e.name|..]);
    Glue(s, 8, 16);
    Glue(s, 16, 18);
    Glue(s, 18, 19);
    Glue(s, 19, 19 + |e.name|);
    Glue(s, 19 + |e.name|, |s|);
  }

  lemma AllZeros(s: seq<byte>)
    requires forall j :: 0 <= j < |s| ==> s[j] == 0
    ensures s == Zeros(|s|)
  {
  }

  lemma Glue(s: seq<byte>, i: nat, j: nat)
    requires i <= j <= |s|
    ensures s[..i] + s[i..j] == s[..j]
    ensures (j == |s| ==> s[i..j] == s[i..] && s[..j] == s) && (j == i + 1 ==> s[i..j] == [s[i]])
  {
  }

  /** encode_dirent64 into a buffer: nothing when it does not fit. */
  method EncodeDirent(out: array<byte>, e: Dirent) returns (n: nat)
    modifies out
    ensures n == if out.Length < Reclen(|e.name|) then 0 else Reclen(|e.name|)
    ensures n > 0 ==> out[..n] == Encoded(e)
    ensures n > 0 ==> out[..8] == Le(e.ino, 8) && out[8..16] == Le(e.off, 8) && out[16..18] == Le(n, 2)
    ensures n > 0 ==> out[18] == e.kind && out[19..19 + |e.name|] == e.name
    ensures forall j :: 19 + |e.name| <= j < n ==> out[j] == 0
    ensures forall j :: n <= j < out.Length ==> out[j] == old(out[j])
  {
    n := Reclen(|e.name|);
    if out.Length < n { return 0; }
    Clear(out, n);
    Put(out, 0, e.ino, 8);
    ghost var ino := out[..8];
    Put(out, 8, e.off, 8);
    assert out[..8] == ino;
    ghost var off := out[8..16];
    Put(out, 16, n, 2);
    assert out[..8] == ino && out[8..16] == off;
    ghost var len := out[16..18];
    out[18] := e.kind;
    PutName(out, e.name);
    assert out[..8] == ino && out[8..16] == off && out[16..18] == len;
    Sliced(out[..], n, |e.name|);
    Assembled(out[..n], e);
  }

  lemma Sliced(s: seq<byte>, n: nat, len: nat)
    requires 19 + len <= n <= |s|
    ensures s[..n][..8] == s[..8]
    ensures s[..n][8..16] == s[8..16] && s[..n][16..18] == s[16..18] && s[..n][19..19 + len] == s[19..19 + len]
  {
  }

  // ----- the reader's side ------------------------------------------------------------------

  function Nul(s: seq<byte>): (i: nat)
    ensures i <= |s| && (i < |s| ==> s[i] == 0) && forall j :: 0 <= j < i ==> s[j] != 0
  {
    if s == [] || s[0] == 0 then 0 else 1 + Nul(s[1..])
  }

  /** A reader steps by d_reclen and takes the name up to its NUL. */
  function Walk(s: seq<byte>): seq<Dirent> {
    if |s| < 19 then [] else
      var reclen := FromLe(s[16..18]);
      if reclen < 20 || reclen > |s| then [] else
        var tail := s[19..reclen];
        [Dirent(FromLe(s[..8]), FromLe(s[8..16]), s[18], tail[..Nul(tail)])] + Walk(s[reclen..])
  }

  function EncodedAll(es: seq<Dirent>): seq<byte> { if es == [] then [] else Encoded(es[0]) + EncodedAll(es[1..]) }

  /** A record that fits its own fields: the length in sixteen bits, no NUL in the name. */
  predicate Fits(e: Dirent) {
    e.ino < Bound(8) && e.off < Bound(8) && Reclen(|e.name|) < Bound(2) && 0 !in e.name
  }

  lemma EncodedParts(e: Dirent, rest: seq<byte>)
    ensures var s, n := Encoded(e) + rest, Reclen(|e.name|);
      && s[..8] == Le(e.ino, 8) && s[8..16] == Le(e.off, 8) && s[16..18] == Le(n, 2)
      && s[18] == e.kind && s[19..n] == e.name + Zeros(n - 19 - |e.name|) && s[n..] == rest
  {
    var n := Reclen(|e.name|);
    var a, b, c, z := Le(e.ino, 8), Le(e.off, 8), Le(n, 2), Zeros(n - 19 - |e.name|);
    var s := a + b + c + [e.kind] + e.name + z + rest;
    assert s == Encoded(e) + rest;
    assert s[..8] == a && s[8..16] == b && s[16..18] == c && s[18] == e.kind;
    assert s[19..n] == e.name + z && s[n..] == rest;
  }

  lemma NulAfter(name: seq<byte>, pad: nat)
    requires 0 !in name && pad > 0
    ensures Nul(name + Zeros(pad)) == |name|
  {
    var s := name + Zeros(pad);
    assert s[|name|] == 0;
    assert forall j :: 0 <= j < |name| ==> s[j] == name[j];
  }

  lemma WalkOne(e: Dirent, rest: seq<byte>)
    requires Fits(e)
    ensures Walk(Encoded(e) + rest) == [e] + Walk(rest)
  {
    var n := Reclen(|e.name|);
    EncodedFields(e, rest);
    NulAfter(e.name, n - 19 - |e.name|);
    WalkStep(Encoded(e) + rest, e, n, e.name + Zeros(n - 19 - |e.name|));
  }

  lemma EncodedFields(e: Dirent, rest: seq<byte>)
    requires Fits(e)
    ensures var s, n := Encoded(e) + rest, Reclen(|e.name|);
      && FromLe(s[..8]) == e.ino && FromLe(s[8..16]) == e.off && FromLe(s[16..18]) == n
      && s[18] == e.kind && s[19..n] == e.name + Zeros(n - 19 - |e.name|) && s[n..] == rest
  {
    EncodedParts(e, rest);
    LeRoundTrip(e.ino, 8);
    LeRoundTrip(e.off, 8);
    LeRoundTrip(Reclen(|e.name|), 2);
  }

  lemma WalkStep(s: seq<byte>, e: Dirent, n: nat, tail: seq<byte>)
    requires 20 <= n <= |s|
    requires FromLe(s[..8]) == e.ino && FromLe(s[8..16]) == e.off && FromLe(s[16..18]) == n && s[18] == e.kind
    requires s[19..n] == tail && e.name <= tail && Nul(tail) == |e.name|
    ensures Walk(s) == [e] + Walk(s[n..])
  {
    assert tail[..|e.name|] == e.name;
  }

  /** A reader of the encoded buffer sees the records that went in, one for one. */
  lemma {:induction false} WalkReadsBack(es: seq<Dirent>)
    requires forall i :: 0 <= i < |es| ==> Fits(es[i])
    ensures Walk(EncodedAll(es)) == es
  {
    if es != [] {
      WalkOne(es[0], EncodedAll(es[1..]));
      WalkReadsBack(es[1..]);
    }
  }
}
