/** The alias map of the link table, as a value, and what a guest sees through it.

    An alias has a placeholder on the host's disk and is redirected to its backing,
    which holds the data. The guest's view of a name is the disk entry its
    resolution leads to. */
module AliasMap {
  import opened HostNames
  import opened PosixFs

  type Aliases = map<Path, Path>

  function Resolve(alias: Aliases, p: Path): Path {
    if p in alias then alias[p] else p
  }

  /** No backing is itself an alias, so one step of resolution is enough. */
  ghost predicate NoChain(alias: Aliases) {
    forall a :: a in alias ==> alias[a] !in alias
  }

  /** Some entry names `p` or something beneath it. */
  predicate Touches(alias: Aliases, p: Path) {
    exists a :: a in alias && (Under(a, p) || Under(alias[a], p))
  }

  /** Some alias leads to `p`. */
  predicate IsBacking(alias: Aliases, p: Path) { exists a :: a in alias && alias[a] == p }

  /** Every entry rewritten as a rename of `from` to `to` rewrites names. */
  ghost function PrefixRenamed(alias: Aliases, from: Path, to: Path): (r: Aliases)
    requires !Touches(alias, to)
    ensures forall a {:trigger Moved(a, from, to)} :: a in alias ==>
      Moved(a, from, to) in r && r[Moved(a, from, to)] == Moved(alias[a], from, to)
    ensures forall n {:trigger n in r} :: n in r ==>
      Moved(n, to, from) in alias && Moved(Moved(n, to, from), from, to) == n
  {
    MovedBackAll(alias, from, to);
    map n | n in (set a | a in alias :: Moved(a, from, to)) :: Moved(alias[Moved(n, to, from)], from, to)
  }

  lemma MovedBackAll(alias: Aliases, from: Path, to: Path)
    requires !Touches(alias, to)
    ensures forall a :: a in alias ==> Moved(Moved(a, from, to), to, from) == a
  {
    forall a | a in alias ensures Moved(Moved(a, from, to), to, from) == a {
      if Under(a, from) { MovedBack(a, from, to); }
    }
  }

  /** The table a rename of `from` to `to` may leave when `to` is already named: every entry
      is rewritten, and where two land on one name either may win. */
  ghost predicate Lands(alias: Aliases, from: Path, to: Path, r: Aliases) {
    && (forall a {:trigger Moved(a, from, to)} :: a in alias ==> Moved(a, from, to) in r)
    && (forall n {:trigger n in r} :: n in r ==> LandsAt(alias, from, to, n, r[n]))
  }

  ghost predicate LandsAt(alias: Aliases, from: Path, to: Path, n: Path, b: Path) {
    exists a {:trigger a in alias} :: a in alias && Moved(a, from, to) == n && Moved(alias[a], from, to) == b
  }

  /** Onto a free name there is only one. */
  lemma LandsFree(alias: Aliases, from: Path, to: Path, r: Aliases)
    requires Lands(alias, from, to, r) && !Touches(alias, to)
    ensures r == PrefixRenamed(alias, from, to)
  {
    var p := PrefixRenamed(alias, from, to);
    MovedBackAll(alias, from, to);
    forall n | n in r ensures n in p && p[n] == r[n] {
      assert LandsAt(alias, from, to, n, r[n]);
      var a :| a in alias && Moved(a, from, to) == n && Moved(alias[a], from, to) == r[n];
    }
    forall n | n in p ensures n in r {
      assert Moved(Moved(n, to, from), from, to) == n;
    }
  }

  /** No alias lands on another name of the table when `from` becomes `to`. */
  ghost predicate NoClash(alias: Aliases, from: Path, to: Path) {
    forall a, c :: a in alias && c in alias ==>
      && (Moved(a, from, to) == Moved(c, from, to) ==> a == c)
      && (Moved(a, from, to) == Moved(alias[c], from, to) ==> a == alias[c])
  }

  lemma FreeIsClear(alias: Aliases, from: Path, to: Path)
    requires !Touches(alias, to)
    ensures NoClash(alias, from, to)
  {
    MovedBackAll(alias, from, to);
    forall c | c in alias ensures Moved(Moved(alias[c], from, to), to, from) == alias[c] {
      if Under(alias[c], from) { MovedBack(alias[c], from, to); }
    }
  }

  /** `r` holds the entries of `alias` under the names `h` gives them, and no others. */
  ghost predicate Carries(alias: Aliases, r: Aliases, h: Path -> Path) {
    && (forall a {:trigger alias[a]} :: a in alias ==> h(a) in r && r[h(a)] == h(alias[a]))
    && (forall n {:trigger n in r} :: n in r ==> CameFrom(alias, h, n))
  }

  ghost predicate CameFrom(alias: Aliases, h: Path -> Path, n: Path) {
    exists a {:trigger a in alias} :: a in alias && h(a) == n
  }

  /** `h` brings no alias together with another name. */
  ghost predicate Injective(alias: Aliases, h: Path -> Path) {
    forall a, c :: a in alias && c in alias ==> (h(a) == h(c) ==> a == c) && (h(a) == h(alias[c]) ==> a == alias[c])
  }

  /** Some entry of `t` has arrived at each name of `u`. */
  ghost predicate Arrives(t: Aliases, u: Aliases, k: Path -> Path) {
    && (forall a {:trigger t[a]} :: a in t ==> k(a) in u)
    && (forall n {:trigger n in u} :: n in u ==> ArrivesAt(t, k, n, u[n]))
  }

  ghost predicate ArrivesAt(t: Aliases, k: Path -> Path, n: Path, b: Path) {
    exists a {:trigger a in t} :: a in t && k(a) == n && k(t[a]) == b
  }

  lemma InjectiveAfter(alias: Aliases, t: Aliases, h: Path -> Path, k: Path -> Path, g: Path -> Path)
    requires Carries(alias, t, h) && Injective(alias, g) && forall q :: g(q) == k(h(q))
    ensures Injective(t, k)
  {
    forall m, n | m in t && n in t ensures (k(m) == k(n) ==> m == n) && (k(m) == k(t[n]) ==> m == t[n]) {
      assert CameFrom(alias, h, m) && CameFrom(alias, h, n);
      var a :| a in alias && h(a) == m;
      var c :| c in alias && h(c) == n;
      assert g(a) == k(m) && g(c) == k(n);
      assert t[h(c)] == h(alias[c]);
    }
  }

  lemma ArrivesOnce(t: Aliases, u: Aliases, k: Path -> Path, m: Path)
    requires Arrives(t, u, k) && Injective(t, k) && m in t
    ensures k(m) in u && u[k(m)] == k(t[m])
  {
    assert t[m] == t[m];
    assert ArrivesAt(t, k, k(m), u[k(m)]);
  }

  lemma CarriesOn(alias: Aliases, t: Aliases, u: Aliases, h: Path -> Path, k: Path -> Path, g: Path -> Path)
    requires Carries(alias, t, h) && Arrives(t, u, k) && Injective(t, k) && forall q :: g(q) == k(h(q))
    ensures Carries(alias, u, g)
  {
    forall a | a in alias ensures g(a) in u && u[g(a)] == g(alias[a]) {
      assert t[h(a)] == h(alias[a]);
      ArrivesOnce(t, u, k, h(a));
    }
    forall n | n in u ensures CameFrom(alias, g, n) {
      assert ArrivesAt(t, k, n, u[n]);
      var m :| m in t && k(m) == n;
      assert CameFrom(alias, h, m);
      var a :| a in alias && h(a) == m;
      assert g(a) == n;
    }
  }

  /** A rename after `h` has no clash, and so only one outcome, if the two together keep the
      table's names apart. */
  lemma LandsAfter(alias: Aliases, t: Aliases, u: Aliases, h: Path -> Path, from: Path, to: Path, g: Path -> Path)
    requires Carries(alias, t, h)
    requires Lands(t, from, to, u) && Injective(alias, g) && forall q :: g(q) == Moved(h(q), from, to)
    ensures NoClash(t, from, to) && Carries(alias, u, g)
  {
    var k := q => Moved(q, from, to);
    assert Arrives(t, u, k) by { LandsArrives(t, from, to, u, k); }
    InjectiveAfter(alias, t, h, k, g);
    CarriesOn(alias, t, u, h, k, g);
  }

  lemma LandsArrives(t: Aliases, from: Path, to: Path, u: Aliases, k: Path -> Path)
    requires Lands(t, from, to, u) && forall q :: k(q) == Moved(q, from, to)
    ensures Arrives(t, u, k)
  {
    forall n | n in u ensures ArrivesAt(t, k, n, u[n]) {
      assert LandsAt(t, from, to, n, u[n]);
      var a :| a in t && Moved(a, from, to) == n && Moved(t[a], from, to) == u[n];
      assert k(a) == n && k(t[a]) == u[n];
    }
  }

  /** Whatever wins, nothing is left where it came from. */
  lemma LandsAway(alias: Aliases, from: Path, to: Path, r: Aliases)
    requires Lands(alias, from, to, r) && Apart(from, to)
    ensures !Touches(r, from)
  {
    forall n | n in r ensures !Under(n, from) && !Under(r[n], from) {
      assert LandsAt(alias, from, to, n, r[n]);
      var a :| a in alias && Moved(a, from, to) == n && Moved(alias[a], from, to) == r[n];
      MovedOut(a, from, to);
      MovedOut(alias[a], from, to);
    }
  }

  lemma MovedOut(q: Path, from: Path, to: Path)
    requires Apart(from, to)
    ensures !Under(Moved(q, from, to), from)
  {
    var r := Moved(q, from, to);
    if Under(r, from) && Under(r, to) { AncestorsComparable(r, from, to); }
  }

  /** Both sides of every entry relabelled. */
  ghost function RelabelAliases(alias: Aliases, f: Path -> Path): (r: Aliases)
    requires Involution(f)
    ensures forall a {:trigger a in r} :: a in r <==> f(a) in alias
    ensures forall a {:trigger r[a]} :: a in r ==> r[a] == f(alias[f(a)])
  {
    var k := Relabel(alias, f);
    map a | a in k :: f(k[a])
  }

  /** The table with two subtrees of names traded. */
  ghost function SwapAliases(alias: Aliases, x: Path, y: Path): Aliases
    requires Apart(x, y)
  {
    RelabelAliases(alias, Swapper(x, y))
  }

  /** `heir` takes over as the file the other aliases of `backing` lead to. */
  function Promoted(alias: Aliases, backing: Path, heir: Path): Aliases {
    map a | a in alias && a != heir :: if alias[a] == backing then heir else alias[a]
  }

  /** A rename onto a name nothing is called is a swap with nothing. */
  lemma RenameIsSwap(alias: Aliases, from: Path, to: Path)
    requires Apart(from, to) && !Touches(alias, to)
    ensures PrefixRenamed(alias, from, to) == SwapAliases(alias, from, to)
  {
    var f := Swapper(from, to);
    assert forall a :: a in alias ==> Moved(a, from, to) == f(a) && Moved(alias[a], from, to) == f(alias[a]);
    RelabelledEntries(alias, PrefixRenamed(alias, from, to), q => Moved(q, from, to), q => Moved(q, to, from), f);
  }

  /** `r` holds the entries of `alias` under the names `f` gives them, and no others. */
  ghost predicate Renames(alias: Aliases, r: Aliases, f: Path -> Path, back: Path -> Path) {
    && (forall a {:trigger alias[a]} :: a in alias ==> f(a) in r && r[f(a)] == f(alias[a]))
    && (forall n {:trigger n in r} :: n in r ==> back(n) in alias && f(back(n)) == n)
  }

  lemma RelabelledEntries(alias: Aliases, r: Aliases, g: Path -> Path, back: Path -> Path, f: Path -> Path)
    requires Involution(f) && Renames(alias, r, g, back)
    requires forall a :: a in alias ==> g(a) == f(a) && g(alias[a]) == f(alias[a])
    ensures r == RelabelAliases(alias, f)
  {
    var s := RelabelAliases(alias, f);
    forall n | n in r ensures n in s && r[n] == s[n] {
      assert f(f(back(n))) == back(n);
    }
    forall n | n in s ensures n in r {
      assert f(f(n)) == n;
    }
  }

  lemma RelabelAliasesTwice(alias: Aliases, f: Path -> Path)
    requires Involution(f)
    ensures RelabelAliases(RelabelAliases(alias, f), f) == alias
  {
    var s := RelabelAliases(alias, f);
    forall a | a in alias ensures f(a) in s && f(s[f(a)]) == alias[a] {
      assert f(f(a)) == a && f(f(alias[a])) == alias[a];
    }
  }

  /** A rename that neither operand of which the table knows would not change it,
      which is why the dispatcher may skip the table altogether. */
  lemma UntouchedRename(alias: Aliases, from: Path, to: Path)
    requires !Touches(alias, from) && !Touches(alias, to)
    ensures PrefixRenamed(alias, from, to) == alias
  {
    forall a | a in alias ensures Moved(a, from, to) == a && Moved(alias[a], from, to) == alias[a] {}
  }

  lemma RenameKeepsNoChain(alias: Aliases, from: Path, to: Path)
    requires NoChain(alias) && !Touches(alias, to)
    ensures NoChain(PrefixRenamed(alias, from, to))
  {
    var r := PrefixRenamed(alias, from, to);
    forall n | n in r ensures r[n] !in r {
      var a := Moved(n, to, from);
      assert a in alias && r[n] == Moved(alias[a], from, to);
      if Under(alias[a], from) { MovedBack(alias[a], from, to); }
      assert Moved(r[n], to, from) == alias[a];
    }
  }

  // ----- what the guest sees --------------------------------------------------

  /** Placeholders are exactly the aliases, and backings are data. */
  ghost predicate Agree(alias: Aliases, disk: Fs) {
    && (forall p :: p in disk ==> (disk[p].Placeholder? <==> p in alias))
    && (forall a :: a in alias ==> a in disk && alias[a] in disk && disk[alias[a]].Data?)
  }

  /** The host itself has one name per inode: it refuses link(2). */
  ghost predicate OneName(disk: Fs) {
    forall p, q :: p in disk && q in disk && disk[p] == disk[q] && !disk[p].Placeholder? ==> p == q
  }

  /** The table and the host's disk belong together. */
  ghost predicate Coherent(alias: Aliases, disk: Fs) {
    TreeShaped(disk) && Agree(alias, disk) && OneName(disk)
  }

  ghost function View(alias: Aliases, disk: Fs): Fs
    requires Agree(alias, disk)
  {
    map p | p in disk :: disk[Resolve(alias, p)]
  }

  lemma CoherentFacts(alias: Aliases, disk: Fs)
    requires Coherent(alias, disk)
    ensures NoChain(alias)
    ensures TreeShaped(View(alias, disk))
    ensures forall x, y :: x in disk && y in disk ==>
      (SameFile(View(alias, disk), x, y) <==> x == y || (!disk[x].Dir? && Resolve(alias, x) == Resolve(alias, y)))
    ensures forall x, y :: CanRename(View(alias, disk), x, y) <==> CanRename(disk, x, y)
    ensures forall x, y :: CanExchange(View(alias, disk), x, y) <==> CanExchange(disk, x, y)
  {
    var v := View(alias, disk);
    assert forall p :: p in disk ==> (v[p].Dir? <==> disk[p].Dir?);
    SameShape(v, disk);
    forall x, y | x in disk && y in disk
      ensures SameFile(v, x, y) <==> x == y || (!disk[x].Dir? && Resolve(alias, x) == Resolve(alias, y))
    {
      assert v[x] == disk[Resolve(alias, x)] && v[y] == disk[Resolve(alias, y)];
    }
  }

  lemma SameShape(v: Fs, disk: Fs)
    requires v.Keys == disk.Keys && forall p :: p in disk ==> (v[p].Dir? <==> disk[p].Dir?)
    ensures forall x, y :: CanRename(v, x, y) <==> CanRename(disk, x, y)
    ensures forall x, y :: CanExchange(v, x, y) <==> CanExchange(disk, x, y)
  {
    assert forall y :: ParentsExist(v, y) <==> ParentsExist(disk, y);
  }

  /** A name that is not on the disk is no part of any entry. */
  lemma AbsentIsUntouched(alias: Aliases, disk: Fs, p: Path)
    requires Coherent(alias, disk) && p !in disk && p != ""
    ensures !Touches(alias, p)
    ensures forall q :: q in disk ==> !Under(q, p)
  {
  }

  /** link(2) on a host without it: a placeholder and an entry. */
  lemma LinkRefines(alias: Aliases, disk: Fs, src: Path, dst: Path)
    requires Coherent(alias, disk) && src in disk && !disk[src].Dir?
    requires dst !in disk && ParentsExist(disk, dst)
    ensures Coherent(alias[dst := Resolve(alias, src)], disk[dst := Placeholder])
    ensures View(alias[dst := Resolve(alias, src)], disk[dst := Placeholder]) == Linked(View(alias, disk), src, dst)
  {
    AbsentIsUntouched(alias, disk, dst);
    PlaceholderKeepsTree(disk, dst);
    LinkKeepsAgreement(alias, disk, Resolve(alias, src), dst);
    assert Resolve(alias, src) != dst;
  }

  lemma PlaceholderKeepsTree(disk: Fs, dst: Path)
    requires TreeShaped(disk) && dst !in disk && ParentsExist(disk, dst)
    ensures TreeShaped(disk[dst := Placeholder])
  {
    var d2 := disk[dst := Placeholder];
    forall q, p | q in d2 && Under(q, p) && p != q && p != "" ensures p in d2 && d2[p].Dir? {
      assert p in disk && disk[p].Dir?;
    }
  }

  lemma LinkKeepsAgreement(alias: Aliases, disk: Fs, backing: Path, dst: Path)
    requires Agree(alias, disk) && backing in disk && disk[backing].Data? && dst !in disk
    ensures Agree(alias[dst := backing], disk[dst := Placeholder])
    ensures View(alias[dst := backing], disk[dst := Placeholder]) == View(alias, disk)[dst := disk[backing]]
  {
  }

  /** Removing an alias removes one name and nothing else. */
  lemma DropRefines(alias: Aliases, disk: Fs, name: Path)
    requires Coherent(alias, disk) && name in alias
    ensures Coherent(alias - {name}, disk - {name})
    ensures View(alias - {name}, disk - {name}) == Unlinked(View(alias, disk), name)
  {
    assert TreeShaped(disk - {name}) by {
      assert forall q :: q in disk && Under(q, name) ==> q == name;
      LeafKeepsTree(disk, name);
    }
  }

  /** So does removing a name the table does not know. */
  lemma PlainRefines(alias: Aliases, disk: Fs, name: Path)
    requires Coherent(alias, disk) && name in disk && name !in alias
    requires forall a :: a in alias ==> alias[a] != name
    requires forall q :: q in disk && Under(q, name) ==> q == name
    ensures Coherent(alias, disk - {name})
    ensures View(alias, disk - {name}) == Unlinked(View(alias, disk), name)
  {
    LeafKeepsTree(disk, name);
    PlainKeepsAgreement(alias, disk, name);
  }

  lemma LeafKeepsTree(disk: Fs, name: Path)
    requires TreeShaped(disk) && forall q :: q in disk && Under(q, name) ==> q == name
    ensures TreeShaped(disk - {name})
  {
    var d2 := disk - {name};
    forall q, p | q in d2 && Under(q, p) && p != q && p != "" ensures p in d2 && d2[p].Dir? {
      assert q in disk && p in disk && disk[p].Dir?;
    }
  }

  lemma PlainKeepsAgreement(alias: Aliases, disk: Fs, name: Path)
    requires Agree(alias, disk) && name in disk && name !in alias && forall a :: a in alias ==> alias[a] != name
    ensures Agree(alias, disk - {name}) && View(alias, disk - {name}) == View(alias, disk) - {name}
  {
  }

  /** rename(2) of a file onto a free name or another file touches those two names only. */
  lemma FileMove(fs: Fs, a: Path, b: Path)
    requires TreeShaped(fs) && a in fs && fs[a].Data? && a != b && ParentsExist(fs, b)
    requires b in fs ==> !fs[b].Dir? && fs[b] != fs[a]
    ensures CanRename(fs, a, b) && Renamed(fs, a, b) == (fs - {a})[b := fs[a]]
  {
    assert !Under(a, b) && !Under(b, a);
    var r, e := Renamed(fs, a, b), (fs - {a})[b := fs[a]];
    forall q ensures (q in r <==> q in e) && (q in r ==> r[q] == e[q]) {
      if q == b {
        assert Moved(b, b, a) == a;
      } else if Under(q, b) {
        assert Under(Moved(q, b, a), a) && Moved(q, b, a) != a;
      } else if Under(q, a) && q != a {
        assert q !in fs;
      }
    }
  }

  /** Removing a backing moves its data onto an heir, and every other name keeps it. */
  lemma PromoteRefines(alias: Aliases, disk: Fs, name: Path, heir: Path)
    requires Coherent(alias, disk) && heir in alias && alias[heir] == name
    ensures CanRename(disk, name, heir)
    ensures Coherent(Promoted(alias, name, heir), Renamed(disk, name, heir))
    ensures View(Promoted(alias, name, heir), Renamed(disk, name, heir)) == Unlinked(View(alias, disk), name)
  {
    FileMove(disk, name, heir);
    HeirKeepsTree(disk, name, heir);
    HeirKeepsAgreement(alias, disk, name, heir);
    var d2 := (disk - {name})[heir := disk[name]];
    forall p, q | p in d2 && q in d2 && d2[p] == d2[q] && !d2[p].Placeholder? ensures p == q {
      assert disk[if p == heir then name else p] == disk[if q == heir then name else q];
    }
  }

  lemma HeirKeepsTree(disk: Fs, name: Path, heir: Path)
    requires TreeShaped(disk) && name in disk && heir in disk && disk[name].Data? && disk[heir].Placeholder?
    ensures TreeShaped((disk - {name})[heir := disk[name]])
  {
    var d2 := (disk - {name})[heir := disk[name]];
    forall q, p | q in d2 && Under(q, p) && p != q && p != "" ensures p in d2 && d2[p].Dir? {
      assert p in disk && disk[p].Dir?;
    }
  }

  lemma HeirKeepsAgreement(alias: Aliases, disk: Fs, name: Path, heir: Path)
    requires Agree(alias, disk) && heir in alias && alias[heir] == name
    ensures Agree(Promoted(alias, name, heir), (disk - {name})[heir := disk[name]])
    ensures View(Promoted(alias, name, heir), (disk - {name})[heir := disk[name]]) == View(alias, disk) - {name}
  {
    var a2, d2 := Promoted(alias, name, heir), (disk - {name})[heir := disk[name]];
    assert Agree(a2, d2);
    forall p | p in d2 ensures d2[Resolve(a2, p)] == disk[Resolve(alias, p)] {}
  }

  /** Were the host to refuse that move, the promotion alone would leave the heir
      showing its placeholder: the table may only change together with the disk. */
  lemma PromoteWithoutMoveBreaks(alias: Aliases, disk: Fs, name: Path, heir: Path)
    requires Coherent(alias, disk) && heir in alias && alias[heir] == name
    ensures !Coherent(Promoted(alias, name, heir), disk)
    ensures disk[Resolve(Promoted(alias, name, heir), heir)] == Placeholder != View(alias, disk)[heir]
  {
  }

  /** Undoing a promotion: the data goes back and the heir's placeholder returns. */
  lemma UndoRestoresDisk(alias: Aliases, disk: Fs, name: Path, heir: Path)
    requires Coherent(alias, disk) && heir in alias && alias[heir] == name
    ensures var d1 := (disk - {name})[heir := disk[name]];
      CanRename(d1, heir, name) && Renamed(d1, heir, name)[heir := Placeholder] == disk
  {
    HeirKeepsTree(disk, name, heir);
    FileMove((disk - {name})[heir := disk[name]], heir, name);
  }

  /** In the table, a prefix rename and an added entry give the very map back. */
  lemma UndoRestoresTable(alias: Aliases, name: Path, heir: Path)
    requires NoChain(alias) && heir in alias && alias[heir] == name
    requires forall a :: a in alias ==> (Under(a, name) ==> a == name) && (Under(a, heir) ==> a == heir)
    requires forall a :: a in alias ==>
      (Under(alias[a], name) ==> alias[a] == name) && (Under(alias[a], heir) ==> alias[a] == heir)
    requires !Under(heir, name)
    ensures var a1 := Promoted(alias, name, heir);
      !Touches(a1, name) && PrefixRenamed(a1, heir, name) == alias - {heir}
  {
    var a1 := Promoted(alias, name, heir);
    assert !Touches(a1, name) by {
      forall a | a in a1 ensures !Under(a, name) && !Under(a1[a], name) { assert alias[heir] !in alias; }
    }
    forall a | a in a1 ensures !Under(a, heir) && Moved(a1[a], heir, name) == alias[a] {
      if alias[a] == name {
        assert Moved(heir, heir, name) == name;
      } else {
        assert alias[a] !in alias;
      }
    }
    RenamedValues(a1, heir, name, alias - {heir});
  }

  lemma RenamedValues(alias: Aliases, from: Path, to: Path, goal: Aliases)
    requires !Touches(alias, to) && goal.Keys == alias.Keys
    requires forall a :: a in alias ==> !Under(a, from) && goal[a] == Moved(alias[a], from, to)
    ensures PrefixRenamed(alias, from, to) == goal
  {
    var r := PrefixRenamed(alias, from, to);
    forall n | n in r ensures n in goal && r[n] == goal[n] {
      assert Moved(n, to, from) in alias;
    }
    forall n | n in goal ensures n in r { assert Moved(n, from, to) in r; }
  }

  /** Swapping subtrees in the table and on the disk swaps them in the view. */
  lemma SwapRefines(alias: Aliases, disk: Fs, x: Path, y: Path)
    requires Coherent(alias, disk) && Apart(x, y) && x in disk && ParentsExist(disk, y)
    ensures Coherent(SwapAliases(alias, x, y), SwapKeys(disk, x, y))
    ensures View(SwapAliases(alias, x, y), SwapKeys(disk, x, y)) == SwapKeys(View(alias, disk), x, y)
  {
    SwapKeepsTree(disk, x, y);
    RelabelRefines(alias, disk, Swapper(x, y));
    RelabelKeepsOneName(disk, Swapper(x, y));
  }

  lemma RelabelKeepsOneName(disk: Fs, f: Path -> Path)
    requires OneName(disk) && Involution(f)
    ensures OneName(Relabel(disk, f))
  {
    var d2 := Relabel(disk, f);
    forall p, q | p in d2 && q in d2 && d2[p] == d2[q] && !d2[p].Placeholder? ensures p == q {
      assert f(p) == f(q);
      assert f(f(p)) == p && f(f(q)) == q;
    }
  }

  lemma RelabelRefines(alias: Aliases, disk: Fs, f: Path -> Path)
    requires Agree(alias, disk) && Involution(f)
    ensures Agree(RelabelAliases(alias, f), Relabel(disk, f))
    ensures View(RelabelAliases(alias, f), Relabel(disk, f)) == Relabel(View(alias, disk), f)
  {
    var a2, d2 := RelabelAliases(alias, f), Relabel(disk, f);
    forall a | a in a2 ensures a in d2 && a2[a] in d2 && d2[a2[a]].Data? && d2[a2[a]] == disk[alias[f(a)]] {
      assert f(f(alias[f(a)])) == alias[f(a)];
    }
    assert Agree(a2, d2);
    var v, w := View(a2, d2), Relabel(View(alias, disk), f);
    forall p | p in d2 ensures v[p] == w[p] {}
    assert v.Keys == w.Keys;
  }

  /** rename(2) onto a free name, in every case: a backing, an alias, a plain file,
      a directory with any of these beneath it. */
  lemma MoveRefines(alias: Aliases, disk: Fs, from: Path, to: Path)
    requires Coherent(alias, disk) && RenameOk(disk, from, to) && to !in disk
    ensures !Touches(alias, to)
    ensures Coherent(PrefixRenamed(alias, from, to), Renamed(disk, from, to))
    ensures CanRename(View(alias, disk), from, to)
    ensures View(PrefixRenamed(alias, from, to), Renamed(disk, from, to)) == Renamed(View(alias, disk), from, to)
  {
    var v := View(alias, disk);
    assert !Touches(alias, to) by { AbsentIsUntouched(alias, disk, to); }
    assert CanRename(v, from, to) by { CoherentFacts(alias, disk); }
    assert Renamed(disk, from, to) == SwapKeys(disk, from, to) by { RenamedToFree(disk, from, to); }
    assert Renamed(v, from, to) == SwapKeys(v, from, to) by { RenamedToFree(v, from, to); }
    RenameIsSwap(alias, from, to);
    SwapRefines(alias, disk, from, to);
  }

  lemma RenamedToFree(fs: Fs, from: Path, to: Path)
    requires CanRename(fs, from, to) && to !in fs
    ensures Renamed(fs, from, to) == SwapKeys(fs, from, to)
  {
    assert fs - {to} == fs;
  }

  lemma RenamedIsSwap(fs: Fs, from: Path, to: Path)
    requires CanRename(fs, from, to) && !SameFile(fs, from, to)
    ensures Renamed(fs, from, to) == SwapKeys(fs - {to}, from, to)
  {
  }

  /** What `to` held before does not matter once it has been removed. */
  lemma RenamedForgetsTarget(fs: Fs, from: Path, to: Path)
    requires RenameOk(fs, from, to) && !SameFile(fs, from, to)
    ensures RenameOk(fs - {to}, from, to)
    ensures Renamed(fs - {to}, from, to) == Renamed(fs, from, to)
  {
    RenamedIsSwap(fs, from, to);
    RenamedIsSwap(fs - {to}, from, to);
    assert fs - {to} - {to} == fs - {to};
  }

  /** rename(2) over an alias: its placeholder is replaced and its entry goes. */
  lemma OntoAliasRefines(alias: Aliases, disk: Fs, from: Path, to: Path)
    requires Coherent(alias, disk)
    requires RenameOk(disk, from, to) && to in alias && Resolve(alias, from) != Resolve(alias, to)
    ensures !Touches(alias - {to}, to)
    ensures Coherent(PrefixRenamed(alias - {to}, from, to), Renamed(disk, from, to))
    ensures CanRename(View(alias, disk), from, to)
    ensures View(PrefixRenamed(alias - {to}, from, to), Renamed(disk, from, to)) == Renamed(View(alias, disk), from, to)
  {
    DropRefines(alias, disk, to);
    OntoRemoved(alias, disk, alias - {to}, from, to);
  }

  /** rename(2) over a file without aliases, or over an empty directory. */
  lemma OntoPlainRefines(alias: Aliases, disk: Fs, from: Path, to: Path)
    requires Coherent(alias, disk) && RenameOk(disk, from, to) && to in disk && to !in alias
    requires forall a :: a in alias ==> alias[a] != to
    ensures !Touches(alias, to)
    ensures Coherent(PrefixRenamed(alias, from, to), Renamed(disk, from, to))
    ensures CanRename(View(alias, disk), from, to)
    ensures View(PrefixRenamed(alias, from, to), Renamed(disk, from, to)) == Renamed(View(alias, disk), from, to)
  {
    PlainRefines(alias, disk, to);
    OntoRemoved(alias, disk, alias, from, to);
  }

  lemma OntoRemoved(alias: Aliases, disk: Fs, a1: Aliases, from: Path, to: Path)
    requires Coherent(alias, disk) && RenameOk(disk, from, to) && to in disk
    requires disk[from].Dir? || Resolve(alias, from) != Resolve(alias, to)
    requires Coherent(a1, disk - {to}) && View(a1, disk - {to}) == Unlinked(View(alias, disk), to)
    ensures !Touches(a1, to)
    ensures Coherent(PrefixRenamed(a1, from, to), Renamed(disk, from, to))
    ensures CanRename(View(alias, disk), from, to)
    ensures View(PrefixRenamed(a1, from, to), Renamed(disk, from, to)) == Renamed(View(alias, disk), from, to)
  {
    var v := View(alias, disk);
    assert CanRename(v, from, to) && !SameFile(v, from, to) by { CoherentFacts(alias, disk); }
    assert !SameFile(disk, from, to);
    RenamedForgetsTarget(disk, from, to);
    RenamedForgetsTarget(v, from, to);
    MoveRefines(a1, disk - {to}, from, to);
  }

  /** rename(2) over a backing, whose data was moved onto an heir first. The host lets
      the second move through exactly when POSIX lets the whole rename through. */
  lemma OntoBackingRefines(alias: Aliases, disk: Fs, from: Path, to: Path, heir: Path)
    requires Coherent(alias, disk) && heir in alias && alias[heir] == to
    requires from in disk && !disk[from].Dir? && Resolve(alias, from) != to
    ensures var a1, d1, v := Promoted(alias, to, heir), (disk - {to})[heir := disk[to]], View(alias, disk);
      && Coherent(a1, d1) && to !in d1
      && (CanRename(d1, from, to) <==> CanRename(v, from, to))
      && (CanRename(v, from, to) ==>
            && !Touches(a1, to)
            && Coherent(PrefixRenamed(a1, from, to), Renamed(d1, from, to))
            && View(PrefixRenamed(a1, from, to), Renamed(d1, from, to)) == Renamed(v, from, to))
  {
    var a1, d1, v := Promoted(alias, to, heir), (disk - {to})[heir := disk[to]], View(alias, disk);
    FileMove(disk, to, heir);
    PromoteRefines(alias, disk, to, heir);
    assert !SameFile(v, from, to) by { CoherentFacts(alias, disk); }
    assert TreeShaped(v) by { CoherentFacts(alias, disk); }
    assert CanRename(d1, from, to) <==> CanRename(v - {to}, from, to) by { CoherentFacts(a1, d1); }
    if CanRename(v, from, to) {
      RenamedForgetsTarget(v, from, to);
      MoveRefines(a1, d1, from, to);
    } else if CanRename(v - {to}, from, to) {
      FreeTargetRename(v, from, to);
    }
  }

  lemma FreeTargetRename(fs: Fs, from: Path, to: Path)
    requires TreeShaped(fs) && from != to && to in fs && !fs[to].Dir? && from in fs && !fs[from].Dir?
    requires CanRename(fs - {to}, from, to)
    ensures CanRename(fs, from, to)
  {
  }

  /** RENAME_EXCHANGE, also of a name with its own alias. */
  lemma ExchangeRefines(alias: Aliases, disk: Fs, x: Path, y: Path)
    requires Coherent(alias, disk) && CanExchange(disk, x, y) && x != y
    ensures Coherent(SwapAliases(alias, x, y), Exchanged(disk, x, y))
    ensures CanExchange(View(alias, disk), x, y)
    ensures View(SwapAliases(alias, x, y), Exchanged(disk, x, y)) == Exchanged(View(alias, disk), x, y)
  {
    SwapRefines(alias, disk, x, y);
  }

  // ----- RENAME_EXCHANGE in three prefix renames --------------------------------

  /** The name the first subtree is parked under while the second moves. */
  function Mark(from: Path): Path { from + "\U{0001}lx-swap" }

  lemma MarkIsApart(x: Path)
    ensures Apart(x, Mark(x))
  {
    var m := Mark(x);
    assert m[..|x|] == x && m[|x|] != '/';
  }

  /** The table with the two subtrees traded, also of a name with itself. */
  ghost function Swapped(alias: Aliases, x: Path, y: Path): Aliases
    requires x == y || Apart(x, y)
  {
    if x == y then alias else SwapAliases(alias, x, y)
  }

  lemma SwapAliasesTwice(alias: Aliases, x: Path, y: Path)
    requires Apart(x, y)
    ensures SwapAliases(SwapAliases(alias, x, y), x, y) == alias
  {
    RelabelAliasesTwice(alias, Swapper(x, y));
  }

  /** Parking `x` under `m` does not lose the name `n`: it is not parked there itself, unless
      the move of `y` takes it away, and it is not parked where `y` is. */
  predicate Parks(n: Path, x: Path, y: Path, m: Path) {
    (Under(n, m) ==> Under(n, y)) && (Under(n, x) ==> !Under(Moved(n, x, m), y))
  }

  predicate MarkFree(alias: Aliases, x: Path, y: Path, m: Path) {
    forall a :: a in alias ==> Parks(a, x, y, m) && Parks(alias[a], x, y, m)
  }

  lemma UntouchedIsFree(alias: Aliases, x: Path, y: Path, m: Path)
    requires !Touches(alias, m) && Apart(y, m)
    ensures MarkFree(alias, x, y, m)
  {
    forall n | Under(n, x) && Under(Moved(n, x, m), y) ensures false { AncestorsComparable(Moved(n, x, m), y, m); }
  }

  function ThreeMoves(q: Path, x: Path, y: Path, m: Path): Path { Moved(Moved(Moved(q, x, m), y, x), m, y) }

  lemma ThreeMovesSwap(q: Path, x: Path, y: Path, m: Path)
    requires Apart(x, m) && Parks(q, x, y, m)
    ensures ThreeMoves(q, x, y, m) == Swap(q, x, y)
  {
    if Under(q, x) {
      assert Moved(q, x, m)[|m|..] == q[|x|..];
    } else if Under(q, y) {
      var p := Moved(q, y, x);
      if Under(p, m) { AncestorsComparable(p, x, m); }
    }
  }

  lemma SwapInjective(p: Path, q: Path, x: Path, y: Path)
    requires (x == y || Apart(x, y)) && Swap(p, x, y) == Swap(q, x, y)
    ensures p == q
  {
    if x == y {
      assert Swap(p, x, x) == p && Swap(q, x, x) == q;
    } else {
      SwapInvolution(p, x, y);
      SwapInvolution(q, x, y);
    }
  }

  /** Parked under a name that loses nothing, three renames are a swap and no step has a clash:
      also of a name with its own alias, or into the mark. */
  lemma ExchangeBySteps(alias: Aliases, x: Path, y: Path, m: Path, t1: Aliases, t2: Aliases, t3: Aliases)
    requires (x == y || Apart(x, y)) && Apart(x, m) && MarkFree(alias, x, y, m)
    requires Lands(alias, x, m, t1) && Lands(t1, y, x, t2) && Lands(t2, m, y, t3)
    ensures NoClash(alias, x, m) && NoClash(t1, y, x) && NoClash(t2, m, y)
    ensures t3 == Swapped(alias, x, y)
  {
    var h1 := q => Moved(q, x, m);
    var h2 := q => Moved(h1(q), y, x);
    var h3 := q => Moved(h2(q), m, y);
    StepsInjective(alias, x, y, m, h1, h2, h3);
    StepsCarry(alias, x, y, m, t1, t2, t3, h1, h2, h3);
    CarriesSwap(alias, t3, x, y, h3);
  }

  lemma StepsCarry(alias: Aliases, x: Path, y: Path, m: Path, t1: Aliases, t2: Aliases, t3: Aliases,
                   h1: Path -> Path, h2: Path -> Path, h3: Path -> Path)
    requires forall q :: h1(q) == Moved(q, x, m)
    requires forall q :: h2(q) == Moved(h1(q), y, x)
    requires forall q :: h3(q) == Moved(h2(q), m, y)
    requires Injective(alias, h1) && Injective(alias, h2) && Injective(alias, h3)
    requires Lands(alias, x, m, t1) && Lands(t1, y, x, t2) && Lands(t2, m, y, t3)
    ensures NoClash(alias, x, m) && NoClash(t1, y, x) && NoClash(t2, m, y) && Carries(alias, t3, h3)
  {
    FirstStep(alias, x, m, t1, h1);
    LandsAfter(alias, t1, t2, h1, y, x, h2);
    LandsAfter(alias, t2, t3, h2, m, y, h3);
  }

  lemma FirstStep(alias: Aliases, from: Path, to: Path, t: Aliases, h: Path -> Path)
    requires Lands(alias, from, to, t) && Injective(alias, h) && forall q :: h(q) == Moved(q, from, to)
    ensures NoClash(alias, from, to) && Carries(alias, t, h)
  {
    var id: Path -> Path := q => q;
    assert Carries(alias, alias, id) by { assert forall n :: n in alias ==> CameFrom(alias, id, n); }
    LandsAfter(alias, alias, t, id, from, to, h);
  }

  /** No two names of the table are brought together on the way, since the swap keeps them apart. */
  lemma StepsInjective(alias: Aliases, x: Path, y: Path, m: Path, h1: Path -> Path, h2: Path -> Path, h3: Path -> Path)
    requires (x == y || Apart(x, y)) && Apart(x, m) && MarkFree(alias, x, y, m)
    requires forall q :: h1(q) == Moved(q, x, m)
    requires forall q :: h2(q) == Moved(h1(q), y, x)
    requires forall q :: h3(q) == Moved(h2(q), m, y)
    ensures Injective(alias, h1) && Injective(alias, h2) && Injective(alias, h3)
    ensures forall a {:trigger alias[a]} :: a in alias ==>
      h3(a) == Swap(a, x, y) && h3(alias[a]) == Swap(alias[a], x, y)
  {
    forall a | a in alias ensures h3(a) == Swap(a, x, y) && h3(alias[a]) == Swap(alias[a], x, y) {
      ThreeMovesSwap(a, x, y, m);
      ThreeMovesSwap(alias[a], x, y, m);
    }
    forall a, c | a in alias && c in alias
      ensures (h3(a) == h3(c) ==> a == c) && (h3(a) == h3(alias[c]) ==> a == alias[c])
    {
      if h3(a) == h3(c) { SwapInjective(a, c, x, y); }
      if h3(a) == h3(alias[c]) { SwapInjective(a, alias[c], x, y); }
    }
  }

  lemma CarriesSwap(alias: Aliases, r: Aliases, x: Path, y: Path, h: Path -> Path)
    requires (x == y || Apart(x, y)) && Carries(alias, r, h)
    requires forall a {:trigger alias[a]} :: a in alias ==> h(a) == Swap(a, x, y) && h(alias[a]) == Swap(alias[a], x, y)
    ensures r == Swapped(alias, x, y)
  {
    if x == y {
      assert forall q :: Swap(q, x, x) == q;
      CarriesNothing(alias, r, h);
    } else {
      CarriesRelabel(alias, r, h, Swapper(x, y));
    }
  }

  lemma CarriesNothing(alias: Aliases, r: Aliases, h: Path -> Path)
    requires Carries(alias, r, h) && forall a {:trigger alias[a]} :: a in alias ==> h(a) == a && h(alias[a]) == alias[a]
    ensures r == alias
  {
    forall n | n in r ensures n in alias && r[n] == alias[n] {
      assert CameFrom(alias, h, n);
      var a :| a in alias && h(a) == n;
      assert r[h(a)] == h(alias[a]);
    }
    forall n | n in alias ensures n in r { assert r[h(n)] == h(alias[n]); }
  }

  lemma CarriesRelabel(alias: Aliases, r: Aliases, h: Path -> Path, f: Path -> Path)
    requires Involution(f) && Carries(alias, r, h)
    requires forall a {:trigger alias[a]} :: a in alias ==> h(a) == f(a) && h(alias[a]) == f(alias[a])
    ensures r == RelabelAliases(alias, f)
  {
    var s := RelabelAliases(alias, f);
    forall n | n in r ensures n in s && r[n] == s[n] {
      assert CameFrom(alias, h, n);
      var a :| a in alias && h(a) == n;
      assert r[h(a)] == h(alias[a]) && f(f(a)) == a;
    }
    forall n | n in s ensures n in r {
      assert f(f(n)) == n;
      assert r[h(f(n))] == h(alias[f(n)]);
    }
  }

  /** THE MARK. Three renames in turn, each onto whatever is there and with any winner where
      names clash, swap the two subtrees if and only if parking loses no name. */
  lemma MarkMustBeFree(alias: Aliases, x: Path, y: Path, m: Path, t1: Aliases, t2: Aliases, t3: Aliases)
    requires (x == y || Apart(x, y)) && Apart(x, m)
    requires Lands(alias, x, m, t1) && Lands(t1, y, x, t2) && Lands(t2, m, y, t3)
    ensures t3 == Swapped(alias, x, y) <==> MarkFree(alias, x, y, m)
  {
    if MarkFree(alias, x, y, m) {
      ExchangeBySteps(alias, x, y, m, t1, t2, t3);
    } else if t3 == Swapped(alias, x, y) {
      SwapParksAll(alias, x, y, m, t1, t2, t3);
    }
  }

  lemma SwapParksAll(alias: Aliases, x: Path, y: Path, m: Path, t1: Aliases, t2: Aliases, t3: Aliases)
    requires (x == y || Apart(x, y)) && Apart(x, m)
    requires Lands(t1, y, x, t2) && Lands(t2, m, y, t3) && t3 == Swapped(alias, x, y)
    ensures MarkFree(alias, x, y, m)
  {
    forall a | a in alias ensures Parks(a, x, y, m) && Parks(alias[a], x, y, m) {
      SwappedAt(alias, x, y, a);
      SwappedParks(a, x, y, m, t1, t2, t3);
      SwappedParks(alias[a], x, y, m, t1, t2, t3);
    }
  }

  /** A name that arrives has been parked. */
  lemma SwappedParks(n: Path, x: Path, y: Path, m: Path, t1: Aliases, t2: Aliases, t3: Aliases)
    requires (x == y || Apart(x, y)) && Apart(x, m)
    requires Lands(t1, y, x, t2) && Lands(t2, m, y, t3) && IsName(t3, Swap(n, x, y))
    ensures Parks(n, x, y, m)
  {
    if !Parks(n, x, y, m) {
      LandsOn(t2, m, y, t3, Swap(n, x, y));
      var q :| IsName(t2, q) && Moved(q, m, y) == Swap(n, x, y);
      LostName(n, q, x, y, m);
      LandsAway(t1, y, x, t2);
    }
  }

  predicate IsName(alias: Aliases, n: Path) { n in alias || IsBacking(alias, n) }

  lemma SwappedAt(alias: Aliases, x: Path, y: Path, a: Path)
    requires (x == y || Apart(x, y)) && a in alias
    ensures IsName(Swapped(alias, x, y), Swap(a, x, y)) && IsName(Swapped(alias, x, y), Swap(alias[a], x, y))
  {
    var s := Swapped(alias, x, y);
    if x == y {
      assert Swap(a, x, x) == a && Swap(alias[a], x, x) == alias[a];
    } else {
      var f := Swapper(x, y);
      assert f(f(a)) == a;
      assert s[f(a)] == f(alias[a]);
    }
  }

  /** Every name of the table a rename leaves was a name before it. */
  lemma LandsOn(alias: Aliases, from: Path, to: Path, r: Aliases, n: Path)
    requires Lands(alias, from, to, r) && IsName(r, n)
    ensures exists q :: IsName(alias, q) && Moved(q, from, to) == n
  {
    var k := if n in r then n else var k :| k in r && r[k] == n; k;
    assert LandsAt(alias, from, to, k, r[k]);
    var a :| a in alias && Moved(a, from, to) == k && Moved(alias[a], from, to) == r[k];
    assert IsName(alias, a) && IsName(alias, alias[a]);
  }

  /** A name that parking loses is nowhere to be found at the end. */
  lemma LostName(n: Path, q: Path, x: Path, y: Path, m: Path)
    requires (x == y || Apart(x, y)) && Apart(x, m) && !Parks(n, x, y, m) && Moved(q, m, y) == Swap(n, x, y)
    ensures x != y && Under(q, y)
  {
    var p := Moved(n, x, m);
    if Under(n, x) && Under(n, m) { AncestorsComparable(n, x, m); }
    if x == y && Under(p, x) && Under(p, m) { AncestorsComparable(p, x, m); }
    if Under(n, x) && Under(q, m) {
      assert q[|m|..] == Swap(n, x, y)[|y|..] == n[|x|..];
      assert q == p;
    }
  }

  /** What the guest sees leaves no choice of table. */
  lemma ViewDetermines(alias: Aliases, other: Aliases, disk: Fs)
    requires Agree(alias, disk) && Agree(other, disk) && OneName(disk) && View(alias, disk) == View(other, disk)
    ensures alias == other
  {
    forall a | a in alias ensures a in other && other[a] == alias[a] {
      assert View(alias, disk)[a] == disk[alias[a]] && View(other, disk)[a] == disk[other[a]];
    }
    forall a | a in other ensures a in alias { assert disk[a].Placeholder?; }
  }
}
