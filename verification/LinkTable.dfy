/** The journal of the link table: one line per change, folded again at start. */
module LinkJournal {
  import opened HostNames
  import opened AliasMap
  import opened Text

  datatype Change = Added(alias: Path, backing: Path) | Removed(alias: Path)

  function Apply(m: Aliases, c: Change): Aliases {
    match c
    case Added(a, b) => m[a := b]
    case Removed(a) => m - {a}
  }

  function Render(c: Change): string {
    match c
    case Added(a, b) => "+\t" + a + "\t" + b + "\n"
    case Removed(a) => "-\t" + a + "\n"
  }

  /** One line read back. A line that is no change leaves the state alone. */
  function ReadLine(m: Aliases, line: string): Aliases {
    var s := if line != "" && line[|line| - 1] == '\n' then line[..|line| - 1] else line;
    if |s| < 3 || s[1] != '\t' then m else
      var rest := s[2..];
      var tab := IndexOf(rest, '\t');
      if s[0] == '-' then m - {rest}
      else if s[0] != '+' || tab == |rest| then m
      else m[rest[..tab] := rest[tab + 1..]]
  }

  predicate OneLine(s: string) { '\n' !in s }

  /** The names a line can carry: a tab ends the alias, a newline ends the line, and
      the reader's buffer holds the rest. */
  predicate Loggable(c: Change) {
    |Render(c)| <= LINE_MAX && OneLine(c.alias) &&
    match c
    case Added(a, b) => '\t' !in a && OneLine(b)
    case Removed(a) => a != ""
  }

  /** What a line must look like to be a change: a sign, a tab, and an alias; for an entry, a tab
      and a backing after it. */
  lemma LinesAre(m: Aliases, a: Path, b: Path)
    requires '\t' !in a && OneLine(a) && OneLine(b)
    ensures ReadLine(m, "+\t" + a + "\t" + b + "\n") == m[a := b]
    ensures a != "" ==> ReadLine(m, "-\t" + a + "\n") == m - {a}
  {
    AddedReads(m, a, b);
    if a != "" { RemovedReads(m, a); }
  }

  lemma OtherLinesAreSkipped(m: Aliases, s: string)
    requires |s| < 3 || s[1] != '\t' || (s[0] != '+' && s[0] != '-') || (s[0] == '+' && '\t' !in s[2..])
    requires OneLine(s)
    ensures ReadLine(m, s) == m && ReadLine(m, s + "\n") == m
  {
    assert (s + "\n")[..|s|] == s;
    if |s| >= 2 { IndexOfIs(s[2..], '\t', IndexOf(s[2..], '\t')); }
  }

  lemma ChangeReadsBack(m: Aliases, c: Change)
    requires Loggable(c)
    ensures IsLine(Render(c), LINE_MAX)
    ensures ReadLine(m, Render(c)) == Apply(m, c)
  {
    match c {
      case Added(a, b) => AddedReads(m, a, b);
      case Removed(a) => RemovedReads(m, a);
    }
  }

  lemma AddedReads(m: Aliases, a: Path, b: Path)
    requires OneLine(a) && OneLine(b) && '\t' !in a
    ensures |Render(Added(a, b))| <= LINE_MAX ==> IsLine(Render(Added(a, b)), LINE_MAX)
    ensures ReadLine(m, Render(Added(a, b))) == m[a := b]
  {
    var line := Render(Added(a, b));
    var s := line[..|line| - 1];
    var rest := a + "\t" + b;
    assert s[2..] == rest && s[0] == '+' && s[1] == '\t';
    IndexOfIs(rest, '\t', |a|);
    assert rest[..|a|] == a && rest[|a| + 1..] == b;
  }

  lemma RemovedReads(m: Aliases, a: Path)
    requires OneLine(a) && a != ""
    ensures |Render(Removed(a))| <= LINE_MAX ==> IsLine(Render(Removed(a)), LINE_MAX)
    ensures ReadLine(m, Render(Removed(a))) == m - {a}
  {
    var line := Render(Removed(a));
    assert line[..|line| - 1][2..] == a;
  }

  /** Reading the journal's text back gives exactly what the changes amount to. */
  lemma JournalRebuilds(log: seq<Change>)
    requires forall i :: 0 <= i < |log| ==> Loggable(log[i])
    ensures FoldLines(ReadLine, map[], Written(Render, log)) == Fold(Apply, map[], log)
  {
    forall i | 0 <= i < |log| ensures ReadsBack(Apply, Render, ReadLine, log[i]) {
      ChangeReadsBackAlways(log[i]);
    }
    LogReadsBack(Apply, Render, ReadLine, map[], log);
  }

  lemma ChangeReadsBackAlways(c: Change)
    requires Loggable(c)
    ensures ReadsBack(Apply, Render, ReadLine, c)
  {
    forall m ensures IsLine(Render(c), LINE_MAX) && ReadLine(m, Render(c)) == Apply(m, c) { ChangeReadsBack(m, c); }
  }

  // ----- a crash in the middle of a line ---------------------------------------------------

  /** What the first `k` characters of a change's line make of the table. */
  function Torn(m: Aliases, c: Change, k: nat): Aliases
    requires k < |Render(c)|
  {
    match c
    case Added(a, b) => if k < |a| + 3 then m else m[a := b[..k - |a| - 3]]
    case Removed(a) => if k < 3 then m else m - {a[..k - 2]}
  }

  lemma TornReads(m: Aliases, c: Change, k: nat)
    requires Loggable(c) && k < |Render(c)|
    ensures ReadLine(m, Render(c)[..k]) == Torn(m, c, k)
  {
    match c {
      case Added(a, b) => TornAdded(m, a, b, k);
      case Removed(a) =>
        var s := Render(c)[..k];
        if k >= 3 { assert s == "-\t" + a[..k - 2]; }
    }
  }

  lemma TornAdded(m: Aliases, a: Path, b: Path, k: nat)
    requires OneLine(a) && OneLine(b) && '\t' !in a && k < |Render(Added(a, b))|
    ensures ReadLine(m, Render(Added(a, b))[..k]) == Torn(m, Added(a, b), k)
  {
    CutAdded(a, b, k);
    if k >= |a| + 3 { TwoNames(m, a, b[..k - |a| - 3]); } else if k >= 3 { NameAlone(m, a[..k - 2]); }
  }

  lemma CutAdded(a: Path, b: Path, k: nat)
    requires k < |Render(Added(a, b))|
    ensures k >= |a| + 3 ==> Render(Added(a, b))[..k] == "+\t" + (a + ("\t" + b[..k - |a| - 3]))
    ensures 3 <= k < |a| + 3 ==> Render(Added(a, b))[..k] == "+\t" + a[..k - 2]
  {
  }

  /** A line without its newline. */
  lemma TwoNames(m: Aliases, a: Path, b: Path)
    requires OneLine(b) && '\t' !in a
    ensures ReadLine(m, "+\t" + (a + ("\t" + b))) == m[a := b]
  {
    var s, rest := "+\t" + (a + ("\t" + b)), a + ("\t" + b);
    assert s[2..] == rest && s[|s| - 1] != '\n';
    IndexOfIs(rest, '\t', |a|);
    assert rest[..|a|] == a && rest[|a| + 1..] == b;
  }

  lemma NameAlone(m: Aliases, a: Path)
    requires OneLine(a) && '\t' !in a && a != ""
    ensures ReadLine(m, "+\t" + a) == m
  {
    var s := "+\t" + a;
    assert s[2..] == a && s[|s| - 1] != '\n';
    IndexOfIs(a, '\t', |a|);
  }

  /** A TORN JOURNAL. The change whose line was cut is lost or made as if nothing had happened, if
      and only if the cut is before the backing's name, or at the very end, or what is read
      instead is already so. Nothing before it is lost. */
  lemma TornJournal(log: seq<Change>, c: Change, k: nat)
    requires (forall i :: 0 <= i < |log| ==> Loggable(log[i])) && Loggable(c) && k < |Render(c)|
    ensures var m := Fold(Apply, map[], log);
      FoldLines(ReadLine, map[], Written(Render, log) + Render(c)[..k]) == Torn(m, c, k)
    ensures var m := Fold(Apply, map[], log);
      Torn(m, c, k) == m || Torn(m, c, k) == Apply(m, c) <==>
        k == |Render(c)| - 1 ||
        match c
        case Added(a, b) => k < |a| + 3 || (a in m && m[a] == b[..k - |a| - 3])
        case Removed(a) => k < 3 || a[..k - 2] !in m
  {
    var m, text := Fold(Apply, map[], log), Written(Render, log);
    JournalRebuilds(log);
    forall i | 0 <= i < |log| ensures IsLine(Render(log[i]), LINE_MAX) { ChangeReadsBack(m, log[i]); }
    WrittenComplete(Render, log);
    ChangeReadsBack(m, c);
    TornReads(m, c, k);
    if k == 0 { assert text + Render(c)[..k] == text; } else { TornTail(ReadLine, map[], text, Render(c), k); }
    TornIs(m, c, k);
  }

  lemma TornIs(m: Aliases, c: Change, k: nat)
    requires k < |Render(c)|
    ensures Torn(m, c, k) == m || Torn(m, c, k) == Apply(m, c) <==>
      k == |Render(c)| - 1 ||
      match c
      case Added(a, b) => k < |a| + 3 || (a in m && m[a] == b[..k - |a| - 3])
      case Removed(a) => k < 3 || a[..k - 2] !in m
  {
    var t := Torn(m, c, k);
    match c {
      case Added(a, b) =>
        if k >= |a| + 3 {
          var cut := b[..k - |a| - 3];
          assert t[a] == cut && Apply(m, c)[a] == b && (|cut| == |b| ==> cut == b);
          assert a in m && m[a] == cut ==> m[a := cut] == m;
        }
      case Removed(a) =>
        if k >= 3 {
          var cut := a[..k - 2];
          assert cut !in t && (|cut| == |a| ==> cut == a);
          assert cut in m && cut != a ==> cut in Apply(m, c);
          assert cut !in m ==> m - {cut} == m;
        }
    }
  }

  /** Cut in the middle of a backing, a line gives the alias to the directory above it. */
  lemma TornAliasLeadsAstray(a: Path, dir: Path, name: Path)
    requires Loggable(Added(a, dir + name)) && dir != "" && name != ""
    ensures var c := Added(a, dir + name);
      FoldLines(ReadLine, map[], Render(c)[..|a| + 3 + |dir|]) == map[a := dir] != Apply(map[], c)
  {
    var c := Added(a, dir + name);
    var k := |a| + 3 + |dir|;
    assert (dir + name)[..|dir|] == dir;
    assert Written(Render, []) + Render(c)[..k] == Render(c)[..k];
    TornJournal([], c, k);
    assert map[a := dir][a] == dir && Apply(map[], c)[a] == dir + name;
  }

  /** Of the names that fit a line, exactly those without a tab survive as aliases. */
  lemma AliasSurvivesIffTabFree(a: Path, b: Path)
    requires OneLine(a) && OneLine(b) && |Render(Added(a, b))| <= LINE_MAX
    ensures (forall m :: ReadLine(m, Render(Added(a, b))) == m[a := b]) <==> '\t' !in a
  {
    if '\t' !in a {
      forall m ensures ReadLine(m, Render(Added(a, b))) == m[a := b] { ChangeReadsBack(m, Added(a, b)); }
    } else {
      var line := Render(Added(a, b));
      var rest := a + "\t" + b;
      assert line[..|line| - 1][2..] == rest;
      assert IndexOf(rest, '\t') < |a| by { var i :| 0 <= i < |a| && a[i] == '\t'; assert rest[i] == '\t'; }
      assert a !in ReadLine(map[], line);
      assert ReadLine(map[], line) != map[][a := b];
    }
  }
}

/** The table that makes several names share one file where the host has no link(2). */
module LinkTables {
  import opened Basics
  import opened HostNames
  import opened AliasMap
  import opened LinkJournal
  import opened Text

  type Lists = map<Path, seq<Path>>

  /** The two maps of the table. */
  datatype State = State(alias: Aliases, names: Lists)

  /** `names` lists under each backing exactly its aliases, each once. */
  ghost predicate Inverse(alias: Aliases, names: Lists) {
    && (forall b :: b in names ==> names[b] != [] && Distinct(names[b]))
    && (forall b, a :: b in names && a in names[b] ==> a in alias && alias[a] == b)
    && (forall a :: a in alias ==> alias[a] in names && a in names[alias[a]])
  }

  function Without<T(==, !new)>(s: seq<T>, x: T): (r: seq<T>)
    ensures forall y :: y in r <==> y in s && y != x
  {
    if s == [] then [] else if s[0] == x then Without(s[1..], x) else [s[0]] + Without(s[1..], x)
  }

  lemma {:induction false} WithoutKeepsDistinct<T(!new)>(s: seq<T>, x: T)
    requires Distinct(s)
    ensures Distinct(Without(s, x))
  {
    if s != [] {
      assert s == [s[0]] + s[1..];
      WithoutKeepsDistinct(s[1..], x);
      assert s[0] !in s[1..];
    }
  }

  lemma {:induction false} DistinctSize<T(!new)>(s: seq<T>)
    requires Distinct(s)
    ensures |set x | x in s| == |s|
  {
    if s != [] {
      var front, last := s[..|s| - 1], s[|s| - 1];
      assert (set x | x in s) == (set x | x in front) + {last};
      assert last !in front;
      DistinctSize(front);
    }
  }

  /** erase_name of the source: an empty list goes away altogether. */
  function NameErased(names: Lists, backing: Path, alias: Path): Lists {
    if backing !in names then names else
      var rest := Without(names[backing], alias);
      if rest == [] then names - {backing} else names[backing := rest]
  }

  lemma ErasedStaysInverse(alias: Aliases, names: Lists, a: Path)
    requires Inverse(alias, names) && a in alias
    ensures Inverse(alias - {a}, NameErased(names, alias[a], a))
  {
    WithoutKeepsDistinct(names[alias[a]], a);
  }

  lemma AddedStaysInverse(alias: Aliases, names: Lists, a: Path, b: Path)
    requires Inverse(alias, names) && a !in alias
    ensures Inverse(alias[a := b], names[b := (if b in names then names[b] else []) + [a]])
  {
    assert b in names ==> a !in names[b];
  }

  lemma BackingHasAlias(alias: Aliases, names: Lists, b: Path) returns (a: Path)
    requires Inverse(alias, names) && b in names
    ensures a in alias && alias[a] == b
  {
    a := names[b][0];
    assert a in names[b];
  }

  lemma CountIsLinkCount(alias: Aliases, others: seq<Path>, backing: Path)
    requires Distinct(others) && backing !in alias
    requires forall a :: a in others <==> a in alias && alias[a] == backing
    ensures |set p | p in alias.Keys + {backing} && Resolve(alias, p) == backing| == 1 + |others|
  {
    DistinctSize(others);
    OneMoreName((set p | p in alias.Keys + {backing} && Resolve(alias, p) == backing), (set x | x in others), backing);
  }

  lemma OneMoreName(all: set<Path>, listed: set<Path>, b: Path)
    requires b !in listed && forall p :: p in all <==> p in listed || p == b
    ensures |all| == 1 + |listed|
  {
    assert all == listed + {b};
  }

  // ----- what the calls make of the two maps -----------------------------------------

  function Listing(names: Lists, b: Path): seq<Path> { if b in names then names[b] else [] }

  function AddedTo(s: State, a: Path, b: Path): State {
    State(s.alias[a := b], s.names[b := Listing(s.names, b) + [a]])
  }

  function DroppedFrom(s: State, a: Path): State {
    if a !in s.alias then s else State(s.alias - {a}, NameErased(s.names, s.alias[a], a))
  }

  /** The first `k` of the entries `after` added, one after another. */
  function AddedUpTo(s: State, after: seq<(Path, Path)>, k: nat): State
    requires k <= |after|
  {
    if k == 0 then s else AddedTo(AddedUpTo(s, after, k - 1), after[k - 1].0, after[k - 1].1)
  }

  function DroppedUpTo(s: State, gone: seq<Path>, k: nat): State
    requires k <= |gone|
  {
    if k == 0 then s else DroppedFrom(DroppedUpTo(s, gone, k - 1), gone[k - 1])
  }

  function Repoints(rest: seq<Path>, heir: Path): (after: seq<(Path, Path)>)
    ensures |after| == |rest| && forall i :: 0 <= i < |rest| ==> after[i] == (rest[i], heir)
  {
    seq(|rest|, i requires 0 <= i < |rest| => (rest[i], heir))
  }

  /** The first alias listed takes the place of `b`, and the others listed now lead to it. */
  function PromotedFrom(s: State, b: Path): State {
    var all := Listing(s.names, b);
    if all == [] then s else
      AddedUpTo(State(s.alias - {all[0]}, s.names - {b}), Repoints(all[1..], all[0]), |all| - 1)
  }

  /** The heir is the alias that was made first. */
  lemma OldestIsHeir(s: State, b: Path, first: Path, second: Path)
    requires b !in s.names && first != second
    ensures var t := PromotedFrom(AddedTo(AddedTo(s, first, b), second, b), b).alias;
      first !in t && second in t && t[second] == first
  {
    var u := AddedTo(AddedTo(s, first, b), second, b);
    assert u.names[b] == [first, second] && u.names[b][1..] == [second];
    var v := State(u.alias - {first}, u.names - {b});
    var one := Repoints([second], first);
    assert AddedUpTo(v, one, 1) == AddedTo(AddedUpTo(v, one, 0), second, first);
  }

  predicate IsAffected(t: Aliases, a: Path, from: Path) { a in t && (Under(a, from) || Under(t[a], from)) }

  /** The entries a rename of `from` rewrites, in some order. */
  ghost predicate Visits(t: Aliases, from: Path, before: seq<Path>) {
    Distinct(before) && forall a :: a in before <==> IsAffected(t, a, from)
  }

  /** The entries of `before` as the rename rewrites them. */
  function MovedEntries(was: Aliases, from: Path, to: Path, before: seq<Path>): (after: seq<(Path, Path)>)
    requires forall i :: 0 <= i < |before| ==> before[i] in was
    ensures |after| == |before|
    ensures forall i :: 0 <= i < |before| ==> after[i] == (Moved(before[i], from, to), Moved(was[before[i]], from, to))
  {
    seq(|before|, i requires 0 <= i < |before| => (Moved(before[i], from, to), Moved(was[before[i]], from, to)))
  }

  ghost function Rewritten(s: State, from: Path, to: Path, before: seq<Path>): State
    requires Visits(s.alias, from, before)
  {
    assert forall i :: 0 <= i < |before| ==> before[i] in before;
    AddedUpTo(DroppedUpTo(s, before, |before|), MovedEntries(s.alias, from, to, before), |before|)
  }

  /** What a rename of `from` to `to` may leave: the order is the hash table's. */
  ghost predicate Rewrites(s: State, from: Path, to: Path, u: State) {
    exists before :: Visits(s.alias, from, before) && u == Rewritten(s, from, to, before)
  }

  // ----- every alias is listed, whatever is called -----------------------------------------

  /** The half of being inverses that every call keeps: no alias is missing from the list of
      its backing, and no list is empty. */
  ghost predicate Listed(s: State) {
    NoneEmpty(s.names) && forall a :: a in s.alias ==> IsListed(s, a)
  }

  ghost predicate NoneEmpty(names: Lists) { forall b :: b in names ==> names[b] != [] }

  predicate IsListed(s: State, a: Path)
    requires a in s.alias
  {
    a in Listing(s.names, s.alias[a])
  }

  /** Listed, or still to be added. */
  ghost predicate ListedFrom(s: State, after: seq<(Path, Path)>, k: nat) {
    NoneEmpty(s.names) && forall a :: a in s.alias ==> IsListed(s, a) || exists i :: k <= i < |after| && after[i].0 == a
  }

  lemma AddedIsListed(s: State, after: seq<(Path, Path)>, k: nat)
    requires k < |after| && ListedFrom(s, after, k)
    ensures ListedFrom(AddedTo(s, after[k].0, after[k].1), after, k + 1)
  {
    var u := AddedTo(s, after[k].0, after[k].1);
    forall a | a in u.alias ensures IsListed(u, a) || exists i :: k + 1 <= i < |after| && after[i].0 == a {
      if a == after[k].0 {
        assert u.names[after[k].1][|Listing(s.names, after[k].1)|] == a;
      } else if IsListed(s, a) {
        var j :| 0 <= j < |Listing(s.names, s.alias[a])| && Listing(s.names, s.alias[a])[j] == a;
        assert Listing(u.names, s.alias[a])[j] == a;
      }
    }
  }

  lemma {:induction false} AllAddedAreListed(s: State, after: seq<(Path, Path)>, k: nat)
    requires k <= |after| && ListedFrom(s, after, 0)
    ensures ListedFrom(AddedUpTo(s, after, k), after, k)
  {
    if k > 0 {
      AllAddedAreListed(s, after, k - 1);
      AddedIsListed(AddedUpTo(s, after, k - 1), after, k - 1);
    }
  }

  lemma DroppedIsListed(s: State, a: Path)
    requires Listed(s)
    ensures Listed(DroppedFrom(s, a))
  {
    if a in s.alias {
      var u := DroppedFrom(s, a);
      forall x | x in u.alias ensures IsListed(u, x) { assert IsListed(s, x); }
    }
  }

  lemma {:induction false} AllDroppedAreListed(s: State, gone: seq<Path>, k: nat)
    requires k <= |gone| && Listed(s)
    ensures Listed(DroppedUpTo(s, gone, k))
  {
    if k > 0 {
      AllDroppedAreListed(s, gone, k - 1);
      DroppedIsListed(DroppedUpTo(s, gone, k - 1), gone[k - 1]);
    }
  }

  lemma PromotedIsListed(s: State, b: Path)
    requires Listed(s)
    ensures Listed(PromotedFrom(s, b))
  {
    var all := Listing(s.names, b);
    if all != [] {
      var heir, rest := all[0], all[1..];
      var mid, after := State(s.alias - {heir}, s.names - {b}), Repoints(rest, heir);
      forall a | a in mid.alias ensures IsListed(mid, a) || exists i :: 0 <= i < |after| && after[i].0 == a {
        assert IsListed(s, a);
        if s.alias[a] == b {
          var j :| 0 <= j < |all| && all[j] == a;
          assert after[j - 1].0 == a;
        }
      }
      AllAddedAreListed(mid, after, |after|);
    }
  }

  lemma RewrittenIsListed(s: State, from: Path, to: Path, before: seq<Path>)
    requires Listed(s) && Visits(s.alias, from, before)
    ensures Listed(Rewritten(s, from, to, before))
  {
    assert forall i :: 0 <= i < |before| ==> before[i] in before;
    AllDroppedAreListed(s, before, |before|);
    AllAddedAreListed(DroppedUpTo(s, before, |before|), MovedEntries(s.alias, from, to, before), |before|);
  }

  // ----- when the maps stay inverses ------------------------------------------------------

  /** The two maps are inverses and make no chain. */
  ghost predicate Sane(s: State) { Inverse(s.alias, s.names) && NoChain(s.alias) }

  lemma SaneIsListed(s: State)
    requires Inverse(s.alias, s.names)
    ensures Listed(s)
  {
  }

  /** An alias that is new, of a file with a name of its own. */
  predicate Fresh(t: Aliases, a: Path, b: Path) {
    a !in t && b !in t && a != b && forall x :: x in t ==> t[x] != a
  }

  /** An entry keeps the maps inverses if it is fresh, and never makes them inverses again. */
  lemma AddedIsSane(s: State, a: Path, b: Path)
    requires Listed(s)
    ensures Sane(AddedTo(s, a, b)) <==> Sane(s) && Fresh(s.alias, a, b)
  {
    if Sane(s) && Fresh(s.alias, a, b) { AddedStaysInverse(s.alias, s.names, a, b); }
    if Sane(AddedTo(s, a, b)) { SaneBefore(s, a, b); }
  }

  lemma SaneBefore(s: State, a: Path, b: Path)
    requires Listed(s) && Sane(AddedTo(s, a, b))
    ensures Sane(s) && Fresh(s.alias, a, b)
  {
    var u := AddedTo(s, a, b);
    assert a in s.alias ==> IsListed(s, a);
    NewToLists(s, a, b);
    assert u.alias[a] == b;
    forall c | c in s.names ensures Distinct(s.names[c]) {
      assert Distinct(u.names[c]);
      assert forall i :: 0 <= i < |s.names[c]| ==> u.names[c][i] == s.names[c][i];
    }
    forall c, x | c in s.names && x in s.names[c] ensures x in s.alias && s.alias[x] == c {
      assert a !in Listing(s.names, c) && x != a;
      assert x in u.names[c] && u.alias[x] == c;
    }
    forall x | x in s.alias ensures s.alias[x] in s.names && s.alias[x] !in s.alias && s.alias[x] != a {
      assert IsListed(s, x) && u.alias[x] == s.alias[x];
    }
  }

  lemma NewToLists(s: State, a: Path, b: Path)
    requires Inverse(AddedTo(s, a, b).alias, AddedTo(s, a, b).names)
    ensures forall c :: a !in Listing(s.names, c)
  {
    var u := AddedTo(s, a, b);
    forall c ensures a !in Listing(s.names, c) {
      var l := Listing(s.names, c);
      if a in l {
        var i :| 0 <= i < |l| && l[i] == a;
        assert u.names[c][i] == a;
        assert u.alias[a] == b;
        TwiceIsNotDistinct(l, a);
      }
    }
  }

  lemma TwiceIsNotDistinct(l: seq<Path>, a: Path)
    requires a in l
    ensures !Distinct(l + [a])
  {
    var i :| 0 <= i < |l| && l[i] == a;
    assert (l + [a])[i] == (l + [a])[|l|];
  }

  /** None of the first `k` entries clashes with the table or with another. */
  ghost predicate Clear(t: Aliases, after: seq<(Path, Path)>, k: nat)
    requires k <= |after|
  {
    && (forall i :: 0 <= i < k ==> after[i].0 !in t && after[i].1 !in t && forall x :: x in t ==> t[x] != after[i].0)
    && (forall i, j :: 0 <= i < k && 0 <= j < k ==> after[j].0 != after[i].1 && (i != j ==> after[i].0 != after[j].0))
  }

  lemma {:induction false} AddedKeys(s: State, after: seq<(Path, Path)>, k: nat)
    requires k <= |after|
    ensures var u := AddedUpTo(s, after, k);
      && (forall n :: n in s.alias ==> n in u.alias)
      && (forall i :: 0 <= i < k ==> after[i].0 in u.alias)
      && (forall n :: n in u.alias ==>
            (n in s.alias && u.alias[n] == s.alias[n]) || exists i :: 0 <= i < k && after[i] == (n, u.alias[n]))
  {
    if k > 0 {
      AddedKeys(s, after, k - 1);
      var t, u := AddedUpTo(s, after, k - 1), AddedUpTo(s, after, k);
      forall n | n in u.alias
        ensures (n in s.alias && u.alias[n] == s.alias[n]) || exists i :: 0 <= i < k && after[i] == (n, u.alias[n])
      {
        if n == after[k - 1].0 { assert after[k - 1] == (n, u.alias[n]); } else { assert u.alias[n] == t.alias[n]; }
      }
    }
  }

  lemma {:induction false} AddedLists(s: State, after: seq<(Path, Path)>, k: nat)
    requires k <= |after|
    ensures forall i :: 0 <= i < k ==> after[i].1 in AddedUpTo(s, after, k).names
  {
    if k > 0 { AddedLists(s, after, k - 1); }
  }

  lemma ClearKeys(s: State, after: seq<(Path, Path)>, k: nat)
    requires k <= |after| && Clear(s.alias, after, k)
    ensures var u := AddedUpTo(s, after, k).alias;
      && (forall n :: n in s.alias ==> n in u && u[n] == s.alias[n])
      && (forall i :: 0 <= i < k ==> after[i].0 in u && u[after[i].0] == after[i].1)
  {
    AddedKeys(s, after, k);
    var u := AddedUpTo(s, after, k).alias;
    forall n | n in s.alias ensures n in u && u[n] == s.alias[n] {}
    forall i | 0 <= i < k ensures after[i].0 in u && u[after[i].0] == after[i].1 { assert after[i].0 !in s.alias; }
  }

  lemma ClearStep(s: State, after: seq<(Path, Path)>, k: nat)
    requires k < |after| && Clear(s.alias, after, k)
    ensures Clear(s.alias, after, k + 1) <==> Fresh(AddedUpTo(s, after, k).alias, after[k].0, after[k].1)
  {
    ClearKeys(s, after, k);
    AddedKeys(s, after, k);
    ClearByKeys(s.alias, AddedUpTo(s, after, k).alias, after, k);
  }

  lemma ClearByKeys(t: Aliases, u: Aliases, after: seq<(Path, Path)>, k: nat)
    requires k < |after| && Clear(t, after, k)
    requires forall n :: n in t ==> n in u && u[n] == t[n]
    requires forall i :: 0 <= i < k ==> after[i].0 in u && u[after[i].0] == after[i].1
    requires forall n :: n in u ==> (n in t && u[n] == t[n]) || exists i :: 0 <= i < k && after[i] == (n, u[n])
    ensures Clear(t, after, k + 1) <==> Fresh(u, after[k].0, after[k].1)
  {
    var a, b := after[k].0, after[k].1;
    if Fresh(u, a, b) {
      assert forall i :: 0 <= i < k ==> after[i].0 != b && after[i].0 != a && u[after[i].0] == after[i].1;
    }
  }

  /** Adding many keeps the maps inverses if and only if none clashes. */
  lemma AllSane(s: State, after: seq<(Path, Path)>)
    requires Listed(s)
    ensures Sane(AddedUpTo(s, after, |after|)) <==> Sane(s) && Clear(s.alias, after, |after|)
  {
    if Clear(s.alias, after, |after|) {
      forall i | 0 <= i < |after| ensures FreshAt(s, after, i) { ClearIsFresh(s, after, i); }
      FreshKeepsSane(s, after, |after|);
    }
    if Sane(AddedUpTo(s, after, |after|)) { SaneWasClear(s, after, |after|); }
  }

  predicate FreshAt(s: State, after: seq<(Path, Path)>, i: nat)
    requires i < |after|
  {
    Fresh(AddedUpTo(s, after, i).alias, after[i].0, after[i].1)
  }

  lemma ClearIsFresh(s: State, after: seq<(Path, Path)>, i: nat)
    requires i < |after| && Clear(s.alias, after, |after|)
    ensures FreshAt(s, after, i)
  {
    assert Clear(s.alias, after, i + 1);
    ClearStep(s, after, i);
  }

  lemma {:induction false} FreshKeepsSane(s: State, after: seq<(Path, Path)>, k: nat)
    requires k <= |after| && Listed(s) && forall i :: 0 <= i < k ==> FreshAt(s, after, i)
    ensures Sane(AddedUpTo(s, after, k)) <==> Sane(s)
  {
    if k > 0 {
      FreshKeepsSane(s, after, k - 1);
      assert FreshAt(s, after, k - 1);
      SomeAddedListed(s, after, k - 1);
      AddedIsSane(AddedUpTo(s, after, k - 1), after[k - 1].0, after[k - 1].1);
    }
  }

  lemma FreshIsSane(s: State, a: Path, b: Path)
    ensures Sane(s) ==> (Sane(AddedTo(s, a, b)) <==> Fresh(s.alias, a, b))
  {
    if Sane(s) {
      SaneIsListed(s);
      AddedIsSane(s, a, b);
    }
  }

  lemma {:induction false} SaneWasClear(s: State, after: seq<(Path, Path)>, k: nat)
    requires k <= |after| && Listed(s) && Sane(AddedUpTo(s, after, k))
    ensures Sane(s) && Clear(s.alias, after, k)
  {
    if k > 0 {
      SomeAddedListed(s, after, k - 1);
      AddedIsSane(AddedUpTo(s, after, k - 1), after[k - 1].0, after[k - 1].1);
      SaneWasClear(s, after, k - 1);
      ClearStep(s, after, k - 1);
    }
  }

  lemma {:induction false} SomeAddedListed(s: State, after: seq<(Path, Path)>, k: nat)
    requires k <= |after| && Listed(s)
    ensures Listed(AddedUpTo(s, after, k))
  {
    if k > 0 {
      SomeAddedListed(s, after, k - 1);
      StillListed(AddedUpTo(s, after, k - 1), after[k - 1].0, after[k - 1].1);
    }
  }

  lemma StillListed(s: State, a: Path, b: Path)
    requires Listed(s)
    ensures Listed(AddedTo(s, a, b))
  {
    var after := [(a, b)];
    AddedIsListed(s, after, 0);
  }

  lemma {:induction false} AllDropped(s: State, gone: seq<Path>, k: nat)
    requires k <= |gone|
    ensures DroppedUpTo(s, gone, k).alias == s.alias - (set a | a in gone[..k])
    ensures Sane(s) ==> Sane(DroppedUpTo(s, gone, k))
  {
    if k > 0 {
      AllDropped(s, gone, k - 1);
      assert gone[..k] == gone[..k - 1] + [gone[k - 1]];
      var t, a := DroppedUpTo(s, gone, k - 1), gone[k - 1];
      if a in t.alias && Inverse(t.alias, t.names) { ErasedStaysInverse(t.alias, t.names, a); }
    }
  }

  /** THE RENAME. Every entry is rewritten, whoever wins where two land on one name, and the maps
      stay inverses if and only if none clashes. */
  lemma RewrittenLands(s: State, from: Path, to: Path, before: seq<Path>)
    requires Visits(s.alias, from, before)
    ensures Lands(s.alias, from, to, Rewritten(s, from, to, before).alias)
    ensures Sane(s) ==> (Sane(Rewritten(s, from, to, before)) <==> NoClash(s.alias, from, to))
  {
    assert forall i :: 0 <= i < |before| ==> before[i] in before;
    var after, kept := MovedEntries(s.alias, from, to, before), DroppedUpTo(s, before, |before|);
    assert before[..|before|] == before;
    AllDropped(s, before, |before|);
    EntriesLand(s.alias, from, to, before, kept, after);
    if Sane(s) {
      SaneIsListed(kept);
      AllSane(kept, after);
      ClearIff(s.alias, from, to, before, kept.alias, after);
    }
  }

  lemma RewritesLands(s: State, from: Path, to: Path, before: seq<Path>, u: State)
    requires Visits(s.alias, from, before) && u == Rewritten(s, from, to, before)
    ensures Rewrites(s, from, to, u) && Lands(s.alias, from, to, u.alias)
    ensures Sane(s) ==> (Sane(u) <==> NoClash(s.alias, from, to))
    ensures !Touches(s.alias, to) ==> u.alias == PrefixRenamed(s.alias, from, to) && (Sane(s) ==> Sane(u))
  {
    RewrittenLands(s, from, to, before);
    if !Touches(s.alias, to) {
      FreeIsClear(s.alias, from, to);
      LandsFree(s.alias, from, to, u.alias);
    }
  }

  lemma EntriesLand(was: Aliases, from: Path, to: Path, before: seq<Path>, kept: State, after: seq<(Path, Path)>)
    requires Visits(was, from, before) && kept.alias == was - (set a | a in before)
    requires |after| == |before| && forall i :: 0 <= i < |before| ==>
      before[i] in was && after[i] == (Moved(before[i], from, to), Moved(was[before[i]], from, to))
    ensures Lands(was, from, to, AddedUpTo(kept, after, |after|).alias)
  {
    var r := AddedUpTo(kept, after, |after|).alias;
    AddedKeys(kept, after, |after|);
    forall a | a in was ensures Moved(a, from, to) in r {
      if a in before { var i :| 0 <= i < |before| && before[i] == a; assert after[i].0 in r; }
    }
    forall n | n in r ensures LandsAt(was, from, to, n, r[n]) {
      if n in kept.alias && r[n] == kept.alias[n] {
        assert n in was && !IsAffected(was, n, from);
      } else {
        var i :| 0 <= i < |after| && after[i] == (n, r[n]);
        assert before[i] in was;
      }
    }
  }

  lemma ClearIff(was: Aliases, from: Path, to: Path, before: seq<Path>, kept: Aliases, after: seq<(Path, Path)>)
    requires NoChain(was) && Visits(was, from, before) && kept == was - (set a | a in before)
    requires |after| == |before| && forall i :: 0 <= i < |before| ==>
      before[i] in was && after[i] == (Moved(before[i], from, to), Moved(was[before[i]], from, to))
    ensures Clear(kept, after, |after|) <==> NoClash(was, from, to)
  {
    assert forall a :: a in kept ==>
      Moved(a, from, to) == a && Moved(kept[a], from, to) == kept[a] && kept[a] == was[a];
    if NoClash(was, from, to) { ClearFrom(was, from, to, before, kept, after); }
    if Clear(kept, after, |after|) { ClearGives(was, from, to, before, kept, after); }
  }

  lemma ClearFrom(was: Aliases, from: Path, to: Path, before: seq<Path>, kept: Aliases, after: seq<(Path, Path)>)
    requires NoChain(was) && NoClash(was, from, to) && Distinct(before) && |after| == |before|
    requires forall i :: 0 <= i < |before| ==>
      before[i] in was && after[i] == (Moved(before[i], from, to), Moved(was[before[i]], from, to))
    requires forall a :: a in kept ==> a in was && kept[a] == was[a] && a !in before
    requires forall a :: a in kept ==> Moved(a, from, to) == a && Moved(kept[a], from, to) == kept[a]
    ensures Clear(kept, after, |after|)
  {
    forall i | 0 <= i < |after|
      ensures after[i].0 !in kept && after[i].1 !in kept && forall x :: x in kept ==> kept[x] != after[i].0
    {
      assert before[i] in before;
      forall x | x in kept ensures x != after[i].0 && x != after[i].1 && kept[x] != after[i].0 {
        assert x in was && Moved(x, from, to) == x && Moved(was[x], from, to) == was[x];
      }
    }
    forall i, j | 0 <= i < |after| && 0 <= j < |after|
      ensures after[j].0 != after[i].1 && (i != j ==> after[i].0 != after[j].0)
    {
      assert before[i] in was && before[j] in was;
    }
  }

  lemma ClearGives(was: Aliases, from: Path, to: Path, before: seq<Path>, kept: Aliases, after: seq<(Path, Path)>)
    requires |after| == |before| && Clear(kept, after, |after|)
    requires forall i :: 0 <= i < |before| ==>
      before[i] in was && after[i] == (Moved(before[i], from, to), Moved(was[before[i]], from, to))
    requires forall a :: a in was ==> a in before || (a in kept && kept[a] == was[a])
    requires forall a :: a in kept ==> Moved(a, from, to) == a && Moved(kept[a], from, to) == kept[a]
    ensures NoClash(was, from, to)
  {
    forall a, c | a in was && c in was
      ensures Moved(a, from, to) == Moved(c, from, to) ==> a == c
      ensures Moved(a, from, to) == Moved(was[c], from, to) ==> a == was[c]
    {
      if a in before {
        var i :| 0 <= i < |before| && before[i] == a;
        if c in before { var j :| 0 <= j < |before| && before[j] == c; assert after[j].1 == Moved(was[c], from, to); }
      } else if c in before {
        var j :| 0 <= j < |before| && before[j] == c;
        assert after[j].1 == Moved(was[c], from, to);
      }
    }
  }

  // ----- promotion -------------------------------------------------------------------------

  lemma {:induction false} RepointedAlias(s: State, rest: seq<Path>, heir: Path, k: nat)
    requires k <= |rest|
    ensures var u := AddedUpTo(s, Repoints(rest, heir), k).alias;
      u.Keys == s.alias.Keys + (set a | a in rest[..k])
      && forall a :: a in u ==> u[a] == if a in rest[..k] then heir else s.alias[a]
  {
    if k > 0 {
      RepointedAlias(s, rest, heir, k - 1);
      assert rest[..k] == rest[..k - 1] + [rest[k - 1]];
    }
  }

  lemma {:induction false} RepointedNames(s: State, rest: seq<Path>, heir: Path, k: nat)
    requires k <= |rest| && heir !in s.names
    ensures AddedUpTo(s, Repoints(rest, heir), k).names == if k == 0 then s.names else s.names[heir := rest[..k]]
  {
    if k > 0 {
      RepointedNames(s, rest, heir, k - 1);
      assert rest[..k] == rest[..k - 1] + [rest[k - 1]];
    }
  }

  /** Whatever was called before, no alias is left behind at the name that was given up. */
  lemma PromoteVacates(s: State, b: Path)
    requires Listed(s) && Listing(s.names, b) != [] && Listing(s.names, b)[0] != b
    ensures forall a :: a in PromotedFrom(s, b).alias ==> PromotedFrom(s, b).alias[a] != b
  {
    var all := Listing(s.names, b);
    var heir, rest := all[0], all[1..];
    assert all == [heir] + rest && rest[..|rest|] == rest;
    RepointedAlias(State(s.alias - {heir}, s.names - {b}), rest, heir, |rest|);
    forall a | a in s.alias && s.alias[a] == b ensures a in all { assert IsListed(s, a); }
  }

  /** With inverse maps, the other aliases are exactly those repointed. */
  lemma PromotedIs(s: State, b: Path)
    requires Sane(s) && b in s.names
    ensures var heir := s.names[b][0];
      && heir in s.alias && s.alias[heir] == b && Sane(PromotedFrom(s, b))
      && PromotedFrom(s, b).alias == Promoted(s.alias, b, heir)
  {
    PromotedIsValid(s.alias, s.names, b);
    var heir, rest := s.names[b][0], s.names[b][1..];
    var mid := State(s.alias - {heir}, s.names - {b});
    assert rest[..|rest|] == rest;
    RepointedAlias(mid, rest, heir, |rest|);
    RepointedNames(mid, rest, heir, |rest|);
    PromotedBy(s.alias, b, heir, rest, PromotedFrom(s, b).alias);
  }

  lemma PromotesWell(s: State, b: Path)
    ensures Sane(s) ==> Sane(PromotedFrom(s, b)) && (Listing(s.names, b) != [] <==> IsBacking(s.alias, b))
    ensures Sane(s) && Listing(s.names, b) != [] ==>
      var heir := s.names[b][0];
      heir in s.alias && s.alias[heir] == b && PromotedFrom(s, b).alias == Promoted(s.alias, b, heir)
  {
    if Sane(s) && b in s.names { PromotedIs(s, b); }
  }

  lemma PromotedBy(was: Aliases, backing: Path, heir: Path, rest: seq<Path>, now: Aliases)
    requires now.Keys == was.Keys - {heir}
    requires forall a :: a in was && a != heir ==> (a in rest <==> was[a] == backing)
    requires forall a :: a in now ==> now[a] == if a in rest then heir else was[a]
    ensures now == Promoted(was, backing, heir)
  {
  }

  /** The lists after an heir took over, with the other aliases if there are any. */
  function Inherited(names: Lists, backing: Path, heir: Path, rest: seq<Path>): Lists {
    if rest == [] then names - {backing} else (names - {backing})[heir := rest]
  }

  lemma PromotedIsValid(was: Aliases, names: Lists, backing: Path)
    requires Inverse(was, names) && NoChain(was) && backing in names
    ensures var heir, rest := names[backing][0], names[backing][1..];
      && heir in was && was[heir] == backing && heir !in names
      && (forall a :: a in rest ==> a in was && a != heir)
      && (forall a :: a in was && a != heir ==> (a in rest <==> was[a] == backing))
      && NoChain(Promoted(was, backing, heir))
      && Inverse(Promoted(was, backing, heir), Inherited(names, backing, heir, rest))
  {
    var all := names[backing];
    var heir, rest := all[0], all[1..];
    assert all == [heir] + rest;
    assert heir in all && heir !in rest;
    forall b | b in names ensures b !in was { var _ := BackingHasAlias(was, names, b); }
    assert forall a :: a in all <==> a in was && was[a] == backing;
    assert Distinct(rest);
    PromotedInverse(was, names, backing, heir, rest);
  }

  lemma PromotedInverse(was: Aliases, names: Lists, backing: Path, heir: Path, rest: seq<Path>)
    requires Inverse(was, names)
    requires backing in names && heir !in names && heir in was && was[heir] == backing && Distinct(rest)
    requires forall a :: a in rest <==> a in was && a != heir && was[a] == backing
    ensures Inverse(Promoted(was, backing, heir), Inherited(names, backing, heir, rest))
  {
    var p, n := Promoted(was, backing, heir), Inherited(names, backing, heir, rest);
    forall b, a | b in n && a in n[b] ensures a in p && p[a] == b {}
    forall a | a in p ensures p[a] in n && a in n[p[a]] { assert was[a] == backing ==> a in rest; }
  }

  // ----- the table's calls, and what each may write --------------------------------------

  datatype Op = Adding(alias: Path, backing: Path) | Dropping(alias: Path) | Promoting(backing: Path)
    | Renaming(from: Path, to: Path)

  /** What a call makes of the table. */
  ghost predicate Leads(s: State, op: Op, u: State) {
    match op
    case Adding(a, b) => u == AddedTo(s, a, b)
    case Dropping(a) => u == DroppedFrom(s, a)
    case Promoting(b) => u == PromotedFrom(s, b)
    case Renaming(from, to) => Rewrites(s, from, to, u)
  }

  /** What a call that keeps the two maps inverses asks of the table. */
  ghost predicate Allowed(t: Aliases, op: Op) {
    match op
    case Adding(a, b) => Fresh(t, a, b)
    case Renaming(from, to) => NoClash(t, from, to)
    case _ => true
  }

  lemma LeadsToListed(s: State, op: Op, u: State)
    requires Leads(s, op, u) && Listed(s)
    ensures Listed(u)
  {
    match op {
      case Adding(a, b) => StillListed(s, a, b);
      case Dropping(a) => DroppedIsListed(s, a);
      case Promoting(b) => PromotedIsListed(s, b);
      case Renaming(from, to) =>
        var before :| Visits(s.alias, from, before) && u == Rewritten(s, from, to, before);
        RewrittenIsListed(s, from, to, before);
    }
  }

  lemma LeadsToSane(s: State, op: Op, u: State)
    requires Leads(s, op, u) && Sane(s) && Allowed(s.alias, op)
    ensures Sane(u)
  {
    match op {
      case Adding(a, b) => AddedIsSane(s, a, b);
      case Dropping(a) => if a in s.alias { ErasedStaysInverse(s.alias, s.names, a); }
      case Promoting(b) => PromotesWell(s, b);
      case Renaming(from, to) =>
        var before :| Visits(s.alias, from, before) && u == Rewritten(s, from, to, before);
        RewrittenLands(s, from, to, before);
    }
  }

  /** The journal lines a call may write. */
  ghost predicate Writes(s: State, op: Op, c: Change) {
    match op
    case Adding(a, b) => c == Added(a, b)
    case Dropping(a) => a in s.alias && c == Removed(a)
    case Promoting(b) =>
      var all := Listing(s.names, b);
      all != [] &&
      (match c
       case Removed(h) => h == all[0]
       case Added(a, h) => a in all[1..] && h == all[0])
    case Renaming(from, to) =>
      (match c
       case Removed(a) => IsAffected(s.alias, a, from)
       case Added(n, v) => exists a {:trigger a in s.alias} ::
         IsAffected(s.alias, a, from) && n == Moved(a, from, to) && v == Moved(s.alias[a], from, to))
  }

  ghost predicate Grew(was: seq<Change>, now: seq<Change>, s: State, op: Op) {
    was <= now && forall i :: |was| <= i < |now| ==> Writes(s, op, now[i])
  }

  predicate Readable(log: seq<Change>) { forall i :: 0 <= i < |log| ==> Loggable(log[i]) }

  /** Every line the call may write fits the reader's buffer, its alias without a tab. */
  ghost predicate OpFits(s: State, op: Op) { forall c :: Writes(s, op, c) ==> Loggable(c) }

  lemma StaysReadable(was: seq<Change>, now: seq<Change>, s: State, op: Op)
    requires Grew(was, now, s, op)
    ensures Readable(was) && OpFits(s, op) ==> Readable(now)
  {
    if Readable(was) && OpFits(s, op) {
      forall i | 0 <= i < |now| ensures Loggable(now[i]) {
        if i >= |was| { assert Writes(s, op, now[i]); }
      }
    }
  }

  /** The lines since `was` are all of one sort. */
  ghost predicate Lines(was: seq<Change>, now: seq<Change>, sort: Change -> bool) {
    was <= now && forall i :: |was| <= i < |now| ==> sort(now[i])
  }

  lemma OneLineMore(was: seq<Change>, now: seq<Change>, later: seq<Change>, s: State, after: seq<(Path, Path)>, i: nat)
    requires i < |after| && Lines(was, now, (c: Change) => c.Added? && (c.alias, c.backing) in after)
    requires Grew(now, later, s, Adding(after[i].0, after[i].1))
    ensures Lines(was, later, (c: Change) => c.Added? && (c.alias, c.backing) in after)
  {
    forall k | |was| <= k < |later| ensures later[k].Added? && (later[k].alias, later[k].backing) in after {
      if k < |now| { assert later[k] == now[k]; } else { assert Writes(s, Adding(after[i].0, after[i].1), later[k]); }
    }
  }

  lemma RenameGrew(was: seq<Change>, mid: seq<Change>, now: seq<Change>, s: State, from: Path, to: Path,
                   before: seq<Path>)
    requires Visits(s.alias, from, before) && forall i :: 0 <= i < |before| ==> before[i] in s.alias
    requires Lines(was, mid, (c: Change) => c.Removed? && c.alias in before)
    requires Lines(mid, now, (c: Change) => c.Added? && (c.alias, c.backing) in MovedEntries(s.alias, from, to, before))
    ensures Grew(was, now, s, Renaming(from, to))
  {
    var after := MovedEntries(s.alias, from, to, before);
    forall i | |was| <= i < |now| ensures Writes(s, Renaming(from, to), now[i]) {
      if i < |mid| {
        assert now[i] == mid[i];
      } else {
        var k :| 0 <= k < |after| && after[k] == (now[i].alias, now[i].backing);
        assert before[k] in before && before[k] in s.alias;
      }
    }
  }

  lemma PromoteGrew(was: seq<Change>, mid: seq<Change>, now: seq<Change>, s: State, b: Path, heir: Path,
                    rest: seq<Path>)
    requires Listing(s.names, b) == [heir] + rest && (mid == was || mid == was + [Removed(heir)])
    requires Lines(mid, now, (c: Change) => c.Added? && (c.alias, c.backing) in Repoints(rest, heir))
    ensures Grew(was, now, s, Promoting(b))
  {
    assert ([heir] + rest)[1..] == rest;
    forall i | |was| <= i < |now| ensures Writes(s, Promoting(b), now[i]) {
      if i < |mid| {
        assert now[i] == mid[i];
      } else {
        var k :| 0 <= k < |rest| && Repoints(rest, heir)[k] == (now[i].alias, now[i].backing);
        assert rest[k] in rest;
      }
    }
  }

  class LinkTable {
    var alias: Aliases
    var names: Lists
    const file: LogFile<Aliases, Change>

    ghost function Now(): State
      reads this
    {
      State(alias, names)
    }

    /** The two maps are inverses, and the journal holds what the table holds. */
    ghost predicate Consistent()
      reads this, file
    {
      Inverse(alias, names) && Synced()
    }

    ghost predicate Synced()
      reads this, file
    {
      && file.apply == Apply && file.render == Render && file.Valid()
      && (file.on ==> file.Folded() == alias)
    }

    ghost predicate Valid()
      reads this, file
    {
      Consistent() && NoChain(alias)
    }

    /** Every line written since the file was started can be read back. */
    ghost predicate Journaled()
      reads this, file
    {
      file.on ==> file.base == "" && file.start == map[] && Readable(file.log)
    }

    constructor ()
      ensures Valid() && Journaled() && fresh(file) && alias == map[] && !file.on
    {
      file := new LogFile<Aliases, Change>(Apply, Render, map[]);
      alias, names := map[], map[];
    }

    /** st_nlink: the number of names that lead to the file at `backing`. */
    function Count(backing: Path): (n: nat)
      requires Valid()
      reads this, file
      ensures backing !in alias ==> n == |set p | p in alias.Keys + {backing} && Resolve(alias, p) == backing|
    {
      var others := if backing in names then names[backing] else [];
      assert backing !in alias ==>
        |set p | p in alias.Keys + {backing} && Resolve(alias, p) == backing| == 1 + |others|
      by {
        if backing !in alias { CountIsLinkCount(alias, others, backing); }
      }
      1 + |others|
    }

    /** One entry, in both maps and the journal. A table whose maps were inverses keeps them so
        exactly when the alias is new and the backing a name of its own. */
    method Add(a: Path, b: Path)
      requires Synced()
      modifies this, file`text, file`log
      ensures Synced() && Now() == AddedTo(old(Now()), a, b)
      ensures Grew(old(file.log), file.log, old(Now()), Adding(a, b))
      ensures old(Valid()) ==> (Valid() <==> Fresh(old(alias), a, b))
    {
      ghost var was := Now();
      alias := alias[a := b];
      names := names[b := (if b in names then names[b] else []) + [a]];
      file.Append(Added(a, b));
      FreshIsSane(was, a, b);
    }

    method Drop(a: Path)
      requires Synced()
      modifies this, file`text, file`log
      ensures Synced() && Now() == DroppedFrom(old(Now()), a)
      ensures Grew(old(file.log), file.log, old(Now()), Dropping(a))
      ensures old(Valid()) ==> Valid()
    {
      if a !in alias { return; }
      if Inverse(alias, names) { ErasedStaysInverse(alias, names, a); }
      names := NameErased(names, alias[a], a);
      alias := alias - {a};
      file.Append(Removed(a));
    }

    /** The backing's name is about to go. The caller must move the file onto the
        returned heir, which the other aliases now lead to. */
    method Promote(backing: Path) returns (heir: Path, found: bool)
      requires Synced()
      modifies this, file`text, file`log
      ensures Synced() && Now() == PromotedFrom(old(Now()), backing)
      ensures found <==> Listing(old(names), backing) != []
      ensures found ==> heir == old(names)[backing][0]
      ensures Grew(old(file.log), file.log, old(Now()), Promoting(backing))
      ensures old(Valid()) ==> Valid() && (found <==> IsBacking(old(alias), backing))
      ensures old(Valid()) && found ==>
        heir in old(alias) && old(alias)[heir] == backing && alias == Promoted(old(alias), backing, heir)
    {
      ghost var was := Now();
      PromotesWell(was, backing);
      if backing !in names || names[backing] == [] { return "", false; }
      var rest := names[backing][1..];
      heir, found := names[backing][0], true;
      assert names[backing] == [heir] + rest;
      names := names - {backing};
      alias := alias - {heir};
      ghost var log := file.log;
      file.Append(Removed(heir));
      ghost var mid := file.log;
      AddAll(Repoints(rest, heir));
      PromoteGrew(log, mid, file.log, was, backing, heir, rest);
    }

    /** A rename moved `from` to `to`, and with it every name beneath. The entries are
        visited in whatever order the hash table yields. */
    method RenamePrefix(from: Path, to: Path)
      requires Synced()
      modifies this, file`text, file`log
      ensures Synced() && Rewrites(old(Now()), from, to, Now()) && Lands(old(alias), from, to, alias)
      ensures Grew(old(file.log), file.log, old(Now()), Renaming(from, to))
      ensures old(Valid()) ==> (Valid() <==> NoClash(old(alias), from, to))
      ensures !Touches(old(alias), to) ==> alias == PrefixRenamed(old(alias), from, to) && (old(Valid()) ==> Valid())
    {
      ghost var was, log := Now(), file.log;
      var before := Affected(from);
      var after := MovedEntries(alias, from, to, before);
      DropAll(before);
      ghost var mid := file.log;
      AddAll(after);
      RenameGrew(log, mid, file.log, was, from, to, before);
      RewritesLands(was, from, to, before, Now());
    }

    method DropAll(gone: seq<Path>)
      requires Synced()
      modifies this, file`text, file`log
      ensures Synced() && Now() == DroppedUpTo(old(Now()), gone, |gone|)
      ensures Lines(old(file.log), file.log, (c: Change) => c.Removed? && c.alias in gone)
    {
      var i := 0;
      while i < |gone|
        invariant 0 <= i <= |gone|
        invariant Synced() && Now() == DroppedUpTo(old(Now()), gone, i)
        invariant Lines(old(file.log), file.log, (c: Change) => c.Removed? && c.alias in gone)
      {
        ghost var now, here := file.log, Now();
        Drop(gone[i]);
        assert forall k :: |now| <= k < |file.log| ==> Writes(here, Dropping(gone[i]), file.log[k]);
        i := i + 1;
      }
    }

    /** Entries entered one after another, by promote and by the rename. */
    method AddAll(after: seq<(Path, Path)>)
      requires Synced()
      modifies this, file`text, file`log
      ensures Synced() && Now() == AddedUpTo(old(Now()), after, |after|)
      ensures Lines(old(file.log), file.log, (c: Change) => c.Added? && (c.alias, c.backing) in after)
    {
      var i := 0;
      while i < |after|
        invariant 0 <= i <= |after|
        invariant Synced() && Now() == AddedUpTo(old(Now()), after, i)
        invariant Lines(old(file.log), file.log, (c: Change) => c.Added? && (c.alias, c.backing) in after)
      {
        ghost var now, here := file.log, Now();
        Add(after[i].0, after[i].1);
        OneLineMore(old(file.log), now, file.log, here, after, i);
        i := i + 1;
      }
    }

    /** The aliases whose entry a rename of `from` rewrites. */
    method Affected(from: Path) returns (before: seq<Path>)
      ensures Distinct(before)
      ensures forall a :: a in before <==> a in alias && (Under(a, from) || Under(alias[a], from))
    {
      before := [];
      var todo := alias.Keys;
      while todo != {}
        invariant todo <= alias.Keys && Distinct(before)
        invariant forall a :: a in before <==> a in alias && a !in todo && (Under(a, from) || Under(alias[a], from))
      {
        var a :| a in todo;
        todo := todo - {a};
        if Under(a, from) || Under(alias[a], from) { before := before + [a]; }
      }
    }

    /** Start: fold the journal, keep the entries whose two files are still there, and
        write the file anew. `present` says which names the host can lstat. */
    method Attach(text: string, present: set<Path>)
      requires file.apply == Apply && file.render == Render
      modifies this, file
      ensures Consistent() && file.on && file.base == "" && file.start == map[]
      ensures alias == Surviving(FoldLines(ReadLine, map[], text), present)
      ensures forall a, b :: HasEntry(alias, a, b) <==>
        HasEntry(FoldLines(ReadLine, map[], text), a, b) && a in present && b in present
      ensures NoChain(FoldLines(ReadLine, map[], text)) ==> Valid()
      ensures EntriesFit(alias) ==> Journaled()
    {
      var state := ReadJournal(text);
      alias, names := map[], map[];
      file.Reopen("", map[]);
      Enlist(state, present);
      if EntriesFit(alias) { EntriesReadable(file.log, alias); }
    }

    static method ReadJournal(text: string) returns (state: Aliases)
      ensures state == FoldLines(ReadLine, map[], text)
    {
      state := map[];
      var rest := text;
      while rest != ""
        invariant FoldLines(ReadLine, state, rest) == FoldLines(ReadLine, map[], text)
        decreases |rest|
      {
        var line := FirstLine(rest);
        state, rest := ReadLine(state, line), rest[|line|..];
      }
    }

    method Enlist(state: Aliases, present: set<Path>)
      requires Consistent() && file.on && alias == map[] && file.log == []
      modifies this, file`text, file`log
      ensures Consistent() && alias == Surviving(state, present)
      ensures Lines([], file.log, (c: Change) => IsEntry(Surviving(state, present), c))
    {
      ghost var live := Surviving(state, present);
      var todo := state.Keys;
      while todo != {}
        invariant todo <= state.Keys && Consistent()
        invariant forall a :: a in alias <==> a in live && a !in todo
        invariant forall a :: a in alias ==> alias[a] == live[a]
        invariant Lines([], file.log, (c: Change) => IsEntry(live, c))
      {
        var a :| a in todo;
        todo := todo - {a};
        if a in present && state[a] in present { EnterLive(a, state[a], live); }
      }
      assert alias == live;
    }

    method EnterLive(a: Path, b: Path, ghost live: Aliases)
      requires Consistent()
      requires a !in alias && a in live && live[a] == b && Lines([], file.log, (c: Change) => IsEntry(live, c))
      modifies this, file`text, file`log
      ensures Consistent() && alias == old(alias)[a := b] && Lines([], file.log, (c: Change) => IsEntry(live, c))
    {
      AddedStaysInverse(alias, names, a, b);
      ghost var now, here := file.log, Now();
      Add(a, b);
      EntryLine(now, file.log, here, live, a);
    }

    // ----- runs ---------------------------------------------------------------------

    /** The journal's text, read back, is the table. */
    lemma ReplayYieldsTable()
      requires Synced() && Journaled() && file.on
      ensures FoldLines(ReadLine, map[], file.text) == alias
    {
      assert "" + Written(Render, file.log) == Written(Render, file.log);
      JournalRebuilds(file.log);
    }

    method Perform(op: Op)
      requires Synced()
      modifies this, file`text, file`log
      ensures Synced() && Leads(old(Now()), op, Now())
      ensures old(Journaled()) && OpFits(old(Now()), op) ==> Journaled()
    {
      ghost var was, log := Now(), file.log;
      match op {
        case Adding(a, b) => Add(a, b);
        case Dropping(a) => Drop(a);
        case Promoting(b) => var _, _ := Promote(b);
        case Renaming(from, to) => RenamePrefix(from, to);
      }
      StaysReadable(log, file.log, was, op);
    }

    /** Any run of calls. Where every line the calls write fits the reader, the journal can be
        read back at the end. */
    method Run(ops: seq<Op>) returns (ghost states: seq<State>)
      requires Synced()
      modifies this, file`text, file`log
      ensures Synced() && Follows(states, ops, |ops|) && states[0] == old(Now()) && states[|ops|] == Now()
      ensures old(Journaled()) && Fits(states, ops, |ops|) ==> Journaled()
    {
      states := [Now()];
      var n := 0;
      while n < |ops|
        invariant 0 <= n <= |ops| && Synced()
        invariant Follows(states, ops, n) && states[0] == old(Now()) && states[n] == Now()
        invariant old(Journaled()) && Fits(states, ops, n) ==> Journaled()
      {
        Perform(ops[n]);
        OneCallMore(states, ops, n, Now());
        states, n := states + [Now()], n + 1;
      }
    }
  }

  /** The tables a run of calls goes through. */
  ghost predicate Follows(states: seq<State>, ops: seq<Op>, n: nat) {
    n <= |ops| && |states| == n + 1 && forall k :: 0 <= k < n ==> Leads(states[k], ops[k], states[k + 1])
  }

  /** Every line the calls write fits the reader's buffer. */
  ghost predicate Fits(states: seq<State>, ops: seq<Op>, n: nat)
    requires n <= |ops| && |states| == n + 1
  {
    forall k :: 0 <= k < n ==> OpFits(states[k], ops[k])
  }

  lemma OneCallMore(states: seq<State>, ops: seq<Op>, n: nat, u: State)
    requires n < |ops| && Follows(states, ops, n) && Leads(states[n], ops[n], u)
    ensures Follows(states + [u], ops, n + 1)
    ensures Fits(states + [u], ops, n + 1) <==> Fits(states, ops, n) && OpFits(states[n], ops[n])
  {
    var more := states + [u];
    assert forall k :: 0 <= k <= n ==> more[k] == states[k];
    forall k | 0 <= k < n + 1 ensures Leads(more[k], ops[k], more[k + 1]) {
      if k < n { assert Leads(states[k], ops[k], states[k + 1]); }
    }
    if Fits(more, ops, n + 1) {
      forall k | 0 <= k < n ensures OpFits(states[k], ops[k]) { assert OpFits(more[k], ops[k]); }
      assert OpFits(more[n], ops[n]);
    }
  }

  /** Over any run, no alias is ever missing from its list, and the maps are inverses up to the
      first call onto a name in use. */
  lemma {:induction false} RunKeeps(states: seq<State>, ops: seq<Op>, k: nat)
    requires Follows(states, ops, |ops|) && k <= |ops| && Listed(states[0])
    ensures Listed(states[k])
    ensures Sane(states[0]) && (forall j :: 0 <= j < k ==> Allowed(states[j].alias, ops[j])) ==> Sane(states[k])
  {
    if k > 0 {
      RunKeeps(states, ops, k - 1);
      assert Leads(states[k - 1], ops[k - 1], states[k - 1 + 1]);
      LeadsToListed(states[k - 1], ops[k - 1], states[k]);
      if Sane(states[k - 1]) && Allowed(states[k - 1].alias, ops[k - 1]) {
        LeadsToSane(states[k - 1], ops[k - 1], states[k]);
      }
    }
  }

  predicate IsEntry(t: Aliases, c: Change) { c.Added? && c.alias in t && t[c.alias] == c.backing }

  ghost predicate EntriesFit(t: Aliases) { forall a :: a in t ==> Loggable(Added(a, t[a])) }

  lemma EntriesReadable(log: seq<Change>, live: Aliases)
    requires EntriesFit(live) && Lines([], log, (c: Change) => IsEntry(live, c))
    ensures Readable(log)
  {
    forall i | 0 <= i < |log| ensures Loggable(log[i]) {
      assert IsEntry(live, log[i]) && log[i] == Added(log[i].alias, live[log[i].alias]);
    }
  }

  lemma EntryLine(now: seq<Change>, later: seq<Change>, s: State, live: Aliases, a: Path)
    requires a in live && Grew(now, later, s, Adding(a, live[a])) && Lines([], now, (c: Change) => IsEntry(live, c))
    ensures Lines([], later, (c: Change) => IsEntry(live, c))
  {
    forall k | 0 <= k < |later| ensures IsEntry(live, later[k]) {
      if k < |now| { assert later[k] == now[k]; } else { assert Writes(s, Adding(a, live[a]), later[k]); }
    }
  }

  predicate HasEntry(t: Aliases, a: Path, b: Path) { a in t && t[a] == b }

  function Surviving(state: Aliases, present: set<Path>): Aliases {
    map a | a in state && a in present && state[a] in present :: state[a]
  }

  /** Names that fit a line two at a time, without tab or newline. */
  predicate FitName(p: Path) { p != "" && '\t' !in p && '\n' !in p && 2 * |p| + 4 <= LINE_MAX }

  ghost predicate FitNames(s: State) {
    && (forall a :: a in s.alias ==> FitName(a) && FitName(s.alias[a]))
    && (forall b :: b in s.names ==> FitName(b) && forall a :: a in s.names[b] ==> FitName(a))
  }

  /** Between tables of such names only such lines are written. */
  lemma FitNamesSuffice(s: State, op: Op, u: State)
    requires Leads(s, op, u) && FitNames(s) && FitNames(u)
    ensures OpFits(s, op)
  {
    forall c | Writes(s, op, c) ensures Loggable(c) {
      match op {
        case Adding(a, b) => assert u.alias[a] == b;
        case Dropping(_) =>
        case Promoting(b) => ListingFits(s, b, c);
        case Renaming(from, to) => if c.Added? { RewrittenFits(s, from, to, u, c.alias, c.backing); }
      }
    }
  }

  lemma ListingFits(s: State, b: Path, c: Change)
    requires FitNames(s) && Writes(s, Promoting(b), c)
    ensures Loggable(c)
  {
    var all := s.names[b];
    assert all[0] in all;
    assert c.Added? ==> c.alias in all;
  }

  lemma RewrittenFits(s: State, from: Path, to: Path, u: State, n: Path, v: Path)
    requires Rewrites(s, from, to, u) && FitNames(u) && Writes(s, Renaming(from, to), Added(n, v))
    ensures FitName(n) && FitName(v)
  {
    var before :| Visits(s.alias, from, before) && u == Rewritten(s, from, to, before);
    assert forall i :: 0 <= i < |before| ==> before[i] in before;
    var after := MovedEntries(s.alias, from, to, before);
    AddedKeys(DroppedUpTo(s, before, |before|), after, |after|);
    AddedLists(DroppedUpTo(s, before, |before|), after, |after|);
    var a :| a in s.alias && IsAffected(s.alias, a, from)
      && n == Moved(a, from, to) && v == Moved(s.alias[a], from, to);
    var i :| 0 <= i < |before| && before[i] == a;
    assert after[i] == (n, v);
  }

  /** Every line of the session fits the reader's buffer. */
  ghost predicate SessionFits(states: seq<State>, ops: seq<Op>)
    requires |states| == |ops| + 1
  {
    EntriesFit(states[0].alias) && Fits(states, ops, |ops|)
  }

  lemma FitSession(states: seq<State>, ops: seq<Op>)
    requires Follows(states, ops, |ops|) && forall k :: 0 <= k < |states| ==> FitNames(states[k])
    ensures SessionFits(states, ops)
  {
    forall k | 0 <= k < |ops| ensures OpFits(states[k], ops[k]) {
      assert Leads(states[k], ops[k], states[k + 1]);
      FitNamesSuffice(states[k], ops[k], states[k + 1]);
    }
    forall a | a in states[0].alias ensures Loggable(Added(a, states[0].alias[a])) {
      assert FitName(a) && FitName(states[0].alias[a]);
    }
  }

  /** A start from any text and any run; what fits the reader is what the journal then holds. */
  method Session(text: string, present: set<Path>, ops: seq<Op>) returns (links: LinkTable, ghost states: seq<State>)
    ensures links.Synced() && Follows(states, ops, |ops|)
    ensures states[0].alias == Surviving(FoldLines(ReadLine, map[], text), present) && states[|ops|] == links.Now()
    ensures forall k :: 0 <= k <= |ops| ==> Listed(states[k])
    ensures NoChain(states[0].alias) && (forall k :: 0 <= k < |ops| ==> Allowed(states[k].alias, ops[k])) ==>
      links.Valid()
    ensures SessionFits(states, ops) ==> FoldLines(ReadLine, map[], links.file.text) == links.alias
  {
    links := new LinkTable();
    links.Attach(text, present);
    SaneIsListed(links.Now());
    states := links.Run(ops);
    forall k | 0 <= k <= |ops| ensures Listed(states[k]) { RunKeeps(states, ops, k); }
    RunKeeps(states, ops, |ops|);
    if links.Journaled() { links.ReplayYieldsTable(); }
  }

  /** A RESTART, after a start from any text and any run whose lines fit the reader, as those of
      tables of fitting names do: a table of its own reads the journal found and keeps
      exactly the entries whose files are there, all of them if no file is gone. */
  method RestartKeepsTable(text: string, present: set<Path>, ops: seq<Op>, later: set<Path>)
      returns (was: LinkTable, now: LinkTable, ghost states: seq<State>)
    ensures was.Synced() && now.Consistent() && Follows(states, ops, |ops|)
    ensures states[|ops|] == was.Now() && forall a, b :: HasEntry(states[0].alias, a, b) <==>
      HasEntry(FoldLines(ReadLine, map[], text), a, b) && a in present && b in present
    ensures SessionFits(states, ops) || (forall k :: 0 <= k <= |ops| ==> FitNames(states[k])) ==>
      forall a, b :: HasEntry(now.alias, a, b) <==> HasEntry(was.alias, a, b) && a in later && b in later
    ensures SessionFits(states, ops) && (forall a :: a in was.alias ==> a in later && was.alias[a] in later) ==>
      now.alias == was.alias
  {
    was, states := Session(text, present, ops);
    if forall k :: 0 <= k <= |ops| ==> FitNames(states[k]) { FitSession(states, ops); }
    now := Started(was.file.text, later);
    KeepsAll(was.alias, now.alias, later);
  }

  method Started(text: string, present: set<Path>) returns (links: LinkTable)
    ensures links.Consistent()
    ensures forall a, b :: HasEntry(links.alias, a, b) <==>
      HasEntry(FoldLines(ReadLine, map[], text), a, b) && a in present && b in present
  {
    links := new LinkTable();
    links.Attach(text, present);
  }

  lemma KeepsAll(was: Aliases, now: Aliases, present: set<Path>)
    ensures (forall a, b :: HasEntry(now, a, b) <==> HasEntry(was, a, b) && a in present && b in present)
      && (forall a :: a in was ==> a in present && was[a] in present)
      ==> now == was
  {
    if (forall a, b :: HasEntry(now, a, b) <==> HasEntry(was, a, b) && a in present && b in present)
       && forall a :: a in was ==> a in present && was[a] in present {
      forall a | a in was ensures a in now && now[a] == was[a] { assert HasEntry(was, a, was[a]); }
      forall a | a in now ensures a in was { assert HasEntry(now, a, now[a]); }
    }
  }
}
