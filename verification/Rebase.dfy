/** Naming a host path that is too long by a route from the directory the call starts in. */
module Rebasing {
  import opened Basics
  import opened Text

  const PATH_MAX := 4096
  const AT_FDCWD := -100

  // ----- paths as components --------------------------------------------------------------

  predicate Component(c: string) { c != "" && c != "." && c != ".." && '/' !in c }

  predicate Normal(cs: seq<string>) { forall i :: 0 <= i < |cs| ==> Component(cs[i]) }

  /** "/a/b/c"; empty for the root. */
  function Absolute(cs: seq<string>): string { if cs == [] then "" else "/" + cs[0] + Absolute(cs[1..]) }

  function Enter(dir: seq<string>, c: string): seq<string> {
    if c == "" || c == "." then dir
    else if c == ".." then if dir == [] then [] else dir[..|dir| - 1]
    else dir + [c]
  }

  /** Where a relative path leads, taken component by component. */
  function Resolve(dir: seq<string>, rel: string): seq<string>
    decreases |rel|
  {
    var i := IndexOf(rel, '/');
    if i == |rel| then Enter(dir, rel) else Resolve(Enter(dir, rel[..i]), rel[i + 1..])
  }

  function Ups(n: nat): string { if n == 0 then "" else "../" + Ups(n - 1) }

  /** How many leading directories two paths share, the last of `hs` being no directory. */
  function Shared(bs: seq<string>, hs: seq<string>): (m: nat)
    ensures m <= |bs| && (hs != [] ==> m < |hs|) && (hs == [] ==> m == 0) && bs[..m] == hs[..m]
    ensures m < |bs| && m + 1 < |hs| ==> bs[m] != hs[m]
  {
    if bs == [] || |hs| < 2 || bs[0] != hs[0] then 0 else
      var m := Shared(bs[1..], hs[1..]);
      assert bs[..m + 1] == [bs[0]] + bs[1..][..m] && hs[..m + 1] == [hs[0]] + hs[1..][..m];
      m + 1
  }

  function Relative(bs: seq<string>, hs: seq<string>): string
    requires hs != []
  {
    var m := Shared(bs, hs);
    Ups(|bs| - m) + Absolute(hs[m..])[1..]
  }

  lemma {:induction false} SharedStem(stem: seq<string>, bs: seq<string>, hs: seq<string>)
    requires hs != []
    ensures Shared(stem + bs, stem + hs) == |stem| + Shared(bs, hs)
  {
    if stem == [] {
      assert stem + bs == bs && stem + hs == hs;
    } else {
      SharedStem(stem[1..], bs, hs);
      assert (stem + bs)[1..] == stem[1..] + bs && (stem + hs)[1..] == stem[1..] + hs;
    }
  }

  /** A route never climbs above what the two paths share. */
  lemma StemIsNotClimbed(stem: seq<string>, bs: seq<string>, hs: seq<string>)
    requires hs != []
    ensures Relative(stem + bs, stem + hs) == Relative(bs, hs)
  {
    SharedStem(stem, bs, hs);
    assert (stem + hs)[|stem| + Shared(bs, hs)..] == hs[Shared(bs, hs)..];
  }

  // ----- what the route means ---------------------------------------------------------------

  type Walker = (seq<string>, string) -> seq<string>

  ghost predicate Climbs(w: Walker) {
    forall dir: seq<string>, tail: string {:trigger w(dir, "../" + tail)} :: dir != [] ==>
      w(dir, "../" + tail) == w(dir[..|dir| - 1], tail)
  }

  ghost predicate Descends(w: Walker) {
    && (forall dir, c {:trigger w(dir, c), Component(c)} :: Component(c) ==> w(dir, c) == dir + [c])
    && (forall dir, c, more {:trigger w(dir, c + more)} ::
          Component(c) && more != "" && more[0] == '/' ==> w(dir, c + more) == w(dir + [c], more[1..]))
  }

  lemma UpOne(dir: seq<string>, tail: string)
    requires dir != []
    ensures Resolve(dir, "../" + tail) == Resolve(dir[..|dir| - 1], tail)
  {
    var rel := "../" + tail;
    IndexOfIs(rel, '/', 2);
    assert rel[..2] == ".." && rel[3..] == tail;
  }

  lemma DownOne(dir: seq<string>, c: string, more: string)
    requires Component(c) && more != "" && more[0] == '/'
    ensures Resolve(dir, c + more) == Resolve(dir + [c], more[1..])
  {
    IndexOfIs(c + more, '/', |c|);
    assert (c + more)[..|c|] == c && (c + more)[|c| + 1..] == more[1..];
  }

  lemma DownLast(dir: seq<string>, c: string)
    requires Component(c)
    ensures Resolve(dir, c) == dir + [c]
  {
    IndexOfIs(c, '/', |c|);
  }

  lemma ResolveMoves()
    ensures Climbs(Resolve) && Descends(Resolve)
  {
    forall dir: seq<string>, tail: string | dir != []
      ensures Resolve(dir, "../" + tail) == Resolve(dir[..|dir| - 1], tail)
    {
      UpOne(dir, tail);
    }
    forall dir, c | Component(c) ensures Resolve(dir, c) == dir + [c] { DownLast(dir, c); }
    forall dir, c, more: string | Component(c) && more != "" && more[0] == '/'
      ensures Resolve(dir, c + more) == Resolve(dir + [c], more[1..])
    {
      DownOne(dir, c, more);
    }
  }

  lemma {:induction false} Climb(w: Walker, dir: seq<string>, n: nat, tail: string)
    requires Climbs(w) && n <= |dir|
    ensures w(dir, Ups(n) + tail) == w(dir[..|dir| - n], tail)
    decreases n
  {
    if n == 0 {
      assert "" + tail == tail && dir[..|dir|] == dir;
    } else {
      Assoc("../", Ups(n - 1), tail);
      var up := dir[..|dir| - 1];
      assert w(dir, "../" + (Ups(n - 1) + tail)) == w(up, Ups(n - 1) + tail);
      Climb(w, up, n - 1, tail);
      assert up[..|up| - (n - 1)] == dir[..|dir| - n];
    }
  }

  lemma {:induction false} Descend(w: Walker, dir: seq<string>, cs: seq<string>)
    requires Descends(w) && cs != [] && Normal(cs)
    ensures w(dir, Absolute(cs)[1..]) == dir + cs
    decreases |cs|
  {
    var c, more := cs[0], Absolute(cs[1..]);
    Behind(c, more);
    assert Component(c);
    if |cs| == 1 {
      assert cs == [c] && w(dir, c) == dir + [c];
    } else {
      assert w(dir, c + more) == w(dir + [c], more[1..]);
      Descend(w, dir + [c], cs[1..]);
      assert dir + [c] + cs[1..] == dir + cs;
    }
  }

  lemma Behind(c: string, more: string)
    ensures ("/" + c + more)[1..] == c + more && c + "" == c
  {
  }

  /** The route leads from the base to the path: sibling, ancestor or descendant. */
  lemma RelativeLeads(bs: seq<string>, hs: seq<string>)
    requires hs != [] && Normal(hs)
    ensures Resolve(bs, Relative(bs, hs)) == hs
  {
    ResolveMoves();
    RouteWalks(Resolve, bs, hs);
  }

  lemma RouteWalks(w: Walker, bs: seq<string>, hs: seq<string>)
    requires Climbs(w) && Descends(w) && hs != [] && Normal(hs)
    ensures w(bs, Relative(bs, hs)) == hs
  {
    var m := Shared(bs, hs);
    Climb(w, bs, |bs| - m, Absolute(hs[m..])[1..]);
    Descend(w, bs[..m], hs[m..]);
    assert hs[..m] + hs[m..] == hs;
  }

  // ----- slashes and components ----------------------------------------------------------------

  lemma {:induction false} AbsoluteSplit(cs: seq<string>, i: nat)
    requires i <= |cs|
    ensures Absolute(cs) == Absolute(cs[..i]) + Absolute(cs[i..])
  {
    if i == 0 {
      assert cs[0..] == cs && "" + Absolute(cs) == Absolute(cs);
    } else {
      AbsoluteSplit(cs[1..], i - 1);
      assert cs[1..][..i - 1] == cs[..i][1..] && cs[1..][i - 1..] == cs[i..];
      Assoc("/" + cs[0], Absolute(cs[..i][1..]), Absolute(cs[i..]));
    }
  }

  lemma Assoc(a: string, b: string, c: string)
    ensures a + (b + c) == a + b + c
  {
  }

  /** Every slash of "/a/b/c/" ends a run of whole components. */
  lemma {:induction false} SlashEnds(cs: seq<string>, p: nat) returns (j: nat)
    requires Normal(cs) && p < |Absolute(cs) + "/"| && (Absolute(cs) + "/")[p] == '/'
    ensures j <= |cs| && p == |Absolute(cs[..j])|
    decreases |cs|
  {
    if p == 0 {
      j := 0;
    } else {
      var n := |cs[0]| + 1;
      assert Absolute(cs) + "/" == ("/" + cs[0]) + (Absolute(cs[1..]) + "/");
      assert forall q :: 0 < q < n ==> (Absolute(cs) + "/")[q] == cs[0][q - 1];
      j := SlashEnds(cs[1..], p - n);
      assert cs[..j + 1][1..] == cs[1..][..j];
      j := j + 1;
    }
  }

  /** A path that goes on with a slash after other components begins with them. */
  lemma {:induction false} BeginsWith(xs: seq<string>, hs: seq<string>)
    requires Normal(xs) && Normal(hs) && Absolute(xs) + "/" <= Absolute(hs)
    ensures |xs| < |hs| && hs[..|xs|] == xs
    decreases |xs|
  {
    if xs != [] {
      var x, h := xs[0] + (Absolute(xs[1..]) + "/"), hs[0] + Absolute(hs[1..]);
      assert Absolute(xs) + "/" == "/" + x && Absolute(hs) == "/" + h;
      assert x == ("/" + x)[1..] && h == ("/" + h)[1..] && x == h[..|x|];
      FirstComponent(xs[0], Absolute(xs[1..]) + "/", hs[0], Absolute(hs[1..]));
      BeginsWith(xs[1..], hs[1..]);
      assert xs == [xs[0]] + xs[1..] && hs[..|xs|] == [hs[0]] + hs[1..][..|xs| - 1];
    }
  }

  lemma FirstComponent(a: string, v: string, b: string, w: string)
    requires '/' !in a && '/' !in b && a + v <= b + w
    requires v != "" && v[0] == '/' && (w != "" ==> w[0] == '/')
    ensures a == b && v <= w
  {
    var s := b + w;
    assert s[|a|] == (a + v)[|a|] == '/';
    assert forall k :: 0 <= k < |a| ==> s[k] == (a + v)[k] == a[k];
    IndexOfIs(s, '/', |a|);
    IndexOfIs(s, '/', |b|);
    assert a == s[..|a|] == b;
    assert v == (a + v)[|a|..] && w == s[|b|..];
  }

  function Slashes(s: string): nat { if s == "" then 0 else (if s[0] == '/' then 1 else 0) + Slashes(s[1..]) }

  lemma {:induction false} SlashesAppend(a: string, b: string)
    ensures Slashes(a + b) == Slashes(a) + Slashes(b)
  {
    if a == "" {
      assert "" + b == b;
    } else {
      SlashesAppend(a[1..], b);
      assert (a + b)[1..] == a[1..] + b;
    }
  }

  lemma {:induction false} NoSlashes(c: string)
    requires '/' !in c
    ensures Slashes(c) == 0
  {
    if c != "" { NoSlashes(c[1..]); }
  }

  lemma {:induction false} SlashPerComponent(cs: seq<string>)
    requires Normal(cs)
    ensures Slashes(Absolute(cs)) == |cs|
  {
    if cs != [] {
      SlashPerComponent(cs[1..]);
      SlashesAppend("/" + cs[0], Absolute(cs[1..]));
      NoSlashes(cs[0]);
      assert ("/" + cs[0])[1..] == cs[0];
    }
  }

  // ----- the two character loops -----------------------------------------------------------------

  /** The end of the last slash in what two strings share from the front. */
  method CommonDirs(base: string, host: string) returns (common: nat, ghost same: nat)
    ensures common <= same <= |base| && same <= |host| && base[..same] == host[..same]
    ensures same < |base| && same < |host| ==> base[same] != host[same]
    ensures (common > 0 ==> base[common - 1] == '/') && '/' !in base[common..same]
  {
    common := 0;
    var k := 0;
    while k < |base| && k < |host| && base[k] == host[k]
      invariant common <= k <= |base| && k <= |host| && base[..k] == host[..k]
      invariant (common > 0 ==> base[common - 1] == '/') && '/' !in base[common..k]
    {
      if base[k] == '/' { common := k + 1; }
      k := k + 1;
    }
    same := k;
  }

  /** That end is where the shared directories end. */
  lemma CommonIsShared(bs: seq<string>, hs: seq<string>, common: nat, same: nat)
    requires Normal(bs) && Normal(hs) && hs != []
    requires var base, host := Absolute(bs) + "/", Absolute(hs);
      && common <= same <= |base| && same <= |host| && base[..same] == host[..same]
      && (same < |base| && same < |host| ==> base[same] != host[same])
      && (common > 0 ==> base[common - 1] == '/') && '/' !in base[common..same]
    ensures common == |Absolute(hs[..Shared(bs, hs)])| + 1
  {
    var base, host := Absolute(bs) + "/", Absolute(hs);
    var m := Shared(bs, hs);
    SharedStart(bs, hs, m);
    CommonAtLeast(base, host, common, same, Absolute(hs[..m]));
    var j := SlashEnds(bs, common - 1);
    Starts(bs, j);
    CommonPrefix(base, host, common, same, Absolute(bs[..j]));
    BeginsWith(bs[..j], hs);
    AtMostShared(bs, hs, j);
    Longer(bs, j, m);
  }

  lemma CommonAtLeast(base: string, host: string, common: nat, same: nat, pre: string)
    requires common <= same <= |base| && same <= |host| && (same < |base| && same < |host| ==> base[same] != host[same])
    requires '/' !in base[common..same] && pre + "/" <= base && pre + "/" <= host
    ensures common > |pre|
  {
    var n := |pre| + 1;
    assert base[..n] == pre + "/" == host[..n];
    SameReaches(base, host, same, n);
    assert base[|pre|] == (pre + "/")[|pre|] == '/';
    assert forall q :: common <= q < same ==> base[q] == base[common..same][q - common];
  }

  lemma CommonPrefix(base: string, host: string, common: nat, same: nat, pre: string)
    requires common <= same <= |base| && same <= |host| && base[..same] == host[..same]
    requires pre + "/" <= base && common == |pre| + 1
    ensures pre + "/" <= host
  {
    assert base[..same][..common] == base[..common] == pre + "/";
    assert host[..same][..common] == host[..common];
  }

  lemma Starts(cs: seq<string>, j: nat)
    requires j <= |cs|
    ensures Absolute(cs[..j]) + "/" <= Absolute(cs) + "/"
  {
    AbsoluteSplit(cs, j);
    GoesOn(Absolute(cs[..j]), Absolute(cs[j..]));
  }

  lemma GoesOn(a: string, b: string)
    requires b != "" ==> b[0] == '/'
    ensures a + "/" <= a + b + "/"
  {
    assert (a + b + "/")[..|a| + 1] == a + "/";
  }

  lemma SharedStart(bs: seq<string>, hs: seq<string>, m: nat)
    requires m <= |bs| && m < |hs| && bs[..m] == hs[..m]
    ensures Absolute(hs[..m]) + "/" <= Absolute(bs) + "/" && Absolute(hs[..m]) + "/" <= Absolute(hs)
  {
    Starts(bs, m);
    AbsoluteSplit(hs, m);
    assert Absolute(hs[m..])[0] == '/';
  }

  lemma SameReaches(base: string, host: string, same: nat, n: nat)
    requires same <= |base| && same <= |host| && (same < |base| && same < |host| ==> base[same] != host[same])
    requires n <= |base| && n <= |host| && base[..n] == host[..n]
    ensures n <= same
  {
    assert forall k :: 0 <= k < n ==> base[k] == base[..n][k] == host[..n][k] == host[k];
  }

  lemma {:induction false} AtMostShared(bs: seq<string>, hs: seq<string>, j: nat)
    requires j <= |bs| && j < |hs| && bs[..j] == hs[..j]
    ensures j <= Shared(bs, hs)
  {
    if j > 0 {
      assert bs[0] == bs[..j][0] == hs[..j][0] == hs[0];
      assert bs[1..][..j - 1] == bs[..j][1..] == hs[..j][1..] == hs[1..][..j - 1];
      AtMostShared(bs[1..], hs[1..], j - 1);
    }
  }

  lemma Longer(cs: seq<string>, j: nat, m: nat)
    requires j <= m <= |cs|
    ensures |Absolute(cs[..j])| <= |Absolute(cs[..m])|
  {
    AbsoluteSplit(cs[..m], j);
    assert cs[..m][..j] == cs[..j];
  }

  method UpsLoop(base: string, common: nat) returns (rest: string)
    requires common <= |base|
    ensures rest == Ups(Slashes(base[common..]))
  {
    rest := "";
    ghost var n := 0;
    var k := common;
    while k < |base|
      invariant common <= k <= |base| && rest == Ups(n) && n + Slashes(base[k..]) == Slashes(base[common..])
    {
      assert base[k..][1..] == base[k + 1..];
      if base[k] == '/' {
        UpsAppend(n);
        rest, n := rest + "../", n + 1;
      }
      k := k + 1;
    }
  }

  lemma {:induction false} UpsAppend(n: nat)
    ensures Ups(n) + "../" == Ups(n + 1)
  {
    if n > 0 {
      UpsAppend(n - 1);
      Assoc("../", Ups(n - 1), "../");
    }
  }

  // ----- rebase_on_dirfd ------------------------------------------------------------------------------

  /** The directory the call starts in, as the guest's bookkeeping has it. */
  function StartOf(isAt: bool, pathArg: int, argFd: int): int { if isAt && pathArg >= 1 then argFd else AT_FDCWD }

  function Chosen(fd: int, cwdHost: Option<string>, fdHost: Option<string>): Option<string> {
    if fd == AT_FDCWD then cwdHost else if fd >= 0 then fdHost else None
  }

  /** Where the host starts a walk: at the descriptor's directory, or at the real cwd, which
      is the base just when the test of the cwd says so. */
  ghost predicate StartsAt(fd: int, bs: seq<string>, start: seq<string>, cwdIs: bool) {
    if fd == AT_FDCWD then cwdIs <==> start == bs else start == bs
  }

  /** rebase_on_dirfd. `cwdHost` and `fdHost` are the host paths of the cwd and of the
      descriptor's directory, where those are host-backed; `cwdIs` is whether the caller's
      real cwd is there. A route is given just when one is needed, known and short enough,
      and a route from the cwd only when the caller is really there, save that the base
      itself is "." unasked. */
  method RebaseOnDirfd(host: string, isAt: bool, pathArg: int, argFd: int, cwdHost: Option<string>,
                       fdHost: Option<string>, cwdIs: bool,
                       ghost hs: seq<string>, ghost bs: seq<string>, ghost start: seq<string>)
      returns (r: Option<string>)
    requires Normal(hs) && Normal(bs) && (host == Absolute(hs) || (hs == [] && host == "/"))
    requires var dir :=
        if isAt && pathArg >= 1 && argFd != -100 then (if argFd >= 0 then fdHost else None) else cwdHost;
      dir.Some? ==> dir.value != "" && (dir.value == Absolute(bs) || dir.value == Absolute(bs) + "/")
    requires StartsAt(StartOf(isAt, pathArg, argFd), bs, start, cwdIs)
    ensures var fd := StartOf(isAt, pathArg, argFd);
      && (r.Some? <==>
            && |host| >= 4096 && pathArg >= 0
            && (if isAt && pathArg >= 1 && argFd != -100 then argFd >= 0 && fdHost.Some? else cwdHost.Some?)
            && (hs == bs || (|Relative(bs, hs)| < PATH_MAX && (fd == AT_FDCWD ==> cwdIs))))
      && (r.Some? ==> |r.value| < 4096 && hs != [] && r.value == if hs == bs then "." else Relative(bs, hs))
      && (r.Some? ==> (Resolve(start, r.value) != hs <==> fd == AT_FDCWD && hs == bs && !cwdIs))
  {
    if |host| < PATH_MAX || pathArg < 0 { return None; }
    var fd := if isAt && pathArg >= 1 then argFd else AT_FDCWD;
    var dir := Chosen(fd, cwdHost, fdHost);
    if dir.None? { return None; }
    var base := if dir.value[|dir.value| - 1] == '/' then dir.value else dir.value + "/";
    BaseIs(dir.value, bs);
    SameText(hs, bs);
    if |host| == |base| - 1 && host <= base {
      RouteLeads(hs, bs, start, fd, cwdIs);
      return Some(".");
    }
    var rest := Route(base, host, hs, bs);
    if rest == "" { rest := "."; }
    if |rest| >= PATH_MAX { return None; }
    if fd == AT_FDCWD && !cwdIs { return None; }
    RouteLeads(hs, bs, start, fd, cwdIs);
    return Some(rest);
  }

  /** The shared leading directories, ".." for each the base has more, and the rest. */
  method Route(base: string, host: string, ghost hs: seq<string>, ghost bs: seq<string>) returns (rest: string)
    requires Normal(hs) && Normal(bs) && hs != [] && host == Absolute(hs) && base == Absolute(bs) + "/"
    ensures rest == Relative(bs, hs)
  {
    var common, same := CommonDirs(base, host);
    CommonIsShared(bs, hs, common, same);
    rest := UpsLoop(base, common);
    RouteIs(bs, hs, common);
    rest := rest + host[if common < |host| then common else |host|..];
  }

  lemma BaseIs(dir: string, bs: seq<string>)
    requires Normal(bs) && dir != "" && (dir == Absolute(bs) || dir == Absolute(bs) + "/")
    ensures (if dir[|dir| - 1] == '/' then dir else dir + "/") == Absolute(bs) + "/"
  {
    if dir == Absolute(bs) {
      AbsoluteSplit(bs, |bs| - 1);
      var c := bs[|bs| - 1];
      assert bs[|bs| - 1..] == [c];
      assert Absolute([c]) == "/" + c + "" == "/" + c;
      assert dir[|dir| - 1] == c[|c| - 1];
    }
  }

  lemma SameText(hs: seq<string>, bs: seq<string>)
    requires Normal(hs) && Normal(bs)
    ensures (|Absolute(hs)| == |Absolute(bs) + "/"| - 1 && Absolute(hs) <= Absolute(bs) + "/") <==> hs == bs
  {
    if |Absolute(hs)| == |Absolute(bs)| && Absolute(hs) <= Absolute(bs) + "/" {
      assert Absolute(hs) == (Absolute(bs) + "/")[..|Absolute(hs)|] == Absolute(bs);
      OneSpelling(hs, bs);
    }
  }

  lemma {:induction false} OneSpelling(hs: seq<string>, bs: seq<string>)
    requires Normal(hs) && Normal(bs) && Absolute(hs) == Absolute(bs)
    ensures hs == bs
  {
    if hs != [] && bs != [] {
      var v, w := Absolute(hs[1..]), Absolute(bs[1..]);
      Behind(hs[0], v);
      Behind(bs[0], w);
      SameFirst(hs[0], v, bs[0], w);
      OneSpelling(hs[1..], bs[1..]);
      assert hs == [hs[0]] + hs[1..] && bs == [bs[0]] + bs[1..];
    }
  }

  lemma SameFirst(a: string, v: string, b: string, w: string)
    requires '/' !in a && '/' !in b && a + v == b + w && (v != "" ==> v[0] == '/') && (w != "" ==> w[0] == '/')
    ensures a == b && v == w
  {
    IndexOfIs(a + v, '/', |a|);
    IndexOfIs(b + w, '/', |b|);
    assert a == (a + v)[..|a|] && v == (a + v)[|a|..];
    assert b == (b + w)[..|b|] && w == (b + w)[|b|..];
  }

  lemma RouteIs(bs: seq<string>, hs: seq<string>, common: nat)
    requires Normal(bs) && hs != [] && common == |Absolute(hs[..Shared(bs, hs)])| + 1
    ensures common <= |Absolute(bs) + "/"| && common <= |Absolute(hs)|
    ensures Ups(Slashes((Absolute(bs) + "/")[common..])) + Absolute(hs)[common..] == Relative(bs, hs)
  {
    var m := Shared(bs, hs);
    SharedStart(bs, hs, m);
    AbsoluteSplit(hs, m);
    AbsoluteSplit(bs, m);
    Beyond(Absolute(hs[..m]), Absolute(hs[m..]), Absolute(bs[m..]));
    SlashesBehind(bs[m..]);
    assert Absolute(hs)[common..] == Absolute(hs[m..])[1..];
    assert (Absolute(bs) + "/")[common..] == (Absolute(bs[m..]) + "/")[1..];
  }

  lemma Beyond(pre: string, h: string, b: string)
    requires h != ""
    ensures (pre + h)[|pre| + 1..] == h[1..] && (pre + b + "/")[|pre| + 1..] == (b + "/")[1..]
  {
    assert pre + b + "/" == pre + (b + "/");
  }

  lemma SlashesBehind(cs: seq<string>)
    requires Normal(cs)
    ensures Slashes((Absolute(cs) + "/")[1..]) == |cs|
  {
    SlashPerComponent(cs);
    SlashesAppend(Absolute(cs), "/");
    assert (Absolute(cs) + "/")[0] == '/' && Slashes("/") == 1;
  }

  /** THE MEANING. From where the host really starts, and after the test of the cwd where there
      is one, the route misses the wanted path if and only if it is the base itself that
      is wanted, from a cwd that is not there. */
  lemma RouteLeads(hs: seq<string>, bs: seq<string>, start: seq<string>, fd: int, cwdIs: bool)
    requires Normal(hs) && hs != [] && StartsAt(fd, bs, start, cwdIs)
    requires fd == AT_FDCWD && hs != bs ==> cwdIs
    ensures Resolve(start, if hs == bs then "." else Relative(bs, hs)) != hs <==> fd == AT_FDCWD && hs == bs && !cwdIs
  {
    IndexOfIs(".", '/', 1);
    if hs != bs { RelativeLeads(bs, hs); }
  }

  /** That case: any long base, wanted from a cwd that has moved, gets a route astray. */
  method MovedCwdGoesAstray(bs: seq<string>, start: seq<string>) returns (r: Option<string>)
    requires Normal(bs) && |Absolute(bs)| >= PATH_MAX && start != bs
    ensures r.Some? && Resolve(start, r.value) != bs
  {
    var host := Absolute(bs);
    r := RebaseOnDirfd(host, false, 0, 0, Some(host), None, false, bs, bs, start);
  }
}
