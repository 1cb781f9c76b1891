/** The dispatcher's link, unlink and rename on a host that refuses link(2). */
module LinkDispatch {
  import opened HostNames
  import opened PosixFs
  import opened AliasMap
  import opened LinkTables

  datatype Errno = ENOENT | EEXIST | EPERM | ENOTDIR | HostErrno
  datatype Outcome = Done | Failed(errno: Errno)
  datatype Flags = Flags(noReplace: bool, exchange: bool)

  /** The host calls that fail although POSIX would let them through. */
  datatype Host = Host(refuseMain: bool, refusePromote: bool, refuseUndo: bool, refuseReopen: bool)

  /** renameat2(2) would do it. */
  predicate Permitted(v: Fs, from: Path, to: Path, flags: Flags) {
    && (flags.noReplace ==> to !in v)
    && if flags.exchange then CanExchange(v, from, to) else CanRename(v, from, to)
  }

  function RenamedAs(v: Fs, from: Path, to: Path, flags: Flags): Fs
    requires Permitted(v, from, to, flags)
  {
    if flags.exchange then Exchanged(v, from, to) else Renamed(v, from, to)
  }

  /** link(2) would do it. */
  predicate Linkable(v: Fs, src: Path, dst: Path) {
    src in v && !v[src].Dir? && dst !in v && ParentsExist(v, dst)
  }

  predicate Unlinkable(v: Fs, name: Path) {
    name in v && !v[name].Dir?
  }

  /** An heir was promoted in the table; the data has not moved. */
  ghost predicate HalfPromoted(before: Aliases, after: Aliases, name: Path) {
    exists heir :: heir in before && before[heir] == name && after == Promoted(before, name, heir)
  }

  lemma BackingsAreListed(alias: Aliases, names: Lists)
    requires Inverse(alias, names)
    ensures forall n :: IsBacking(alias, n) <==> n in names
  {
    forall n | n in names ensures IsBacking(alias, n) { var _ := BackingHasAlias(alias, names, n); }
  }

  /** The table has a say in the rename. */
  predicate Known(alias: Aliases, from: Path, to: Path) { Touches(alias, from) || Touches(alias, to) }

  /** The host refuses a rename onto a file with other names, and then its undoing. */
  predicate Stranded(alias: Aliases, disk: Fs, from: Path, to: Path, host: Host) {
    && IsBacking(alias, to) && from in disk && !disk[from].Dir? && Resolve(alias, from) != to
    && !host.refusePromote && host.refuseMain && (host.refuseUndo || host.refuseReopen)
  }

  /** What is then left on the disk: the data where the heir was, or the heir gone. */
  function Left(disk: Fs, to: Path, heir: Path, host: Host): Fs
    requires to in disk
  {
    if host.refuseUndo then (disk - {to})[heir := disk[to]] else if host.refuseReopen then disk - {heir} else disk
  }

  ghost predicate LeftBehind(alias: Aliases, disk: Fs, to: Path, host: Host, now: Fs) {
    to in disk && exists heir :: heir in alias && alias[heir] == to && now == Left(disk, to, heir, host)
  }

  /** The table has lost its file, or one of its names, unless the undoing was let through. */
  lemma LeftIsBroken(alias: Aliases, disk: Fs, to: Path, heir: Path, host: Host)
    requires Coherent(alias, disk) && heir in alias && alias[heir] == to
    ensures Coherent(alias, Left(disk, to, heir, host)) <==> !host.refuseUndo && !host.refuseReopen
    ensures host.refuseUndo ==> forall n :: Resolve(alias, n) == to ==> Resolve(alias, n) !in Left(disk, to, heir, host)
  {
    assert heir != to;
    var now := Left(disk, to, heir, host);
    if host.refuseUndo { assert to !in now; } else if host.refuseReopen { assert heir !in now; }
  }

  lemma LeftBehindBreaks(alias: Aliases, disk: Fs, to: Path, host: Host, now: Fs)
    requires Coherent(alias, disk)
    ensures LeftBehind(alias, disk, to, host, now) ==>
      if host.refuseUndo || host.refuseReopen then !Coherent(alias, now) else now == disk
  {
    if LeftBehind(alias, disk, to, host, now) {
      var heir :| heir in alias && alias[heir] == to && now == Left(disk, to, heir, host);
      LeftIsBroken(alias, disk, to, heir, host);
    }
  }

  lemma UndoneDisk(alias: Aliases, disk: Fs, to: Path, heir: Path)
    requires Coherent(alias, disk) && heir in alias && alias[heir] == to
    ensures var d1 := (disk - {to})[heir := disk[to]];
      && heir in d1 && CanRename(d1, heir, to) && heir !in Renamed(d1, heir, to)
      && Renamed(d1, heir, to) == disk - {heir} && Renamed(d1, heir, to)[heir := Placeholder] == disk
  {
    UndoRestoresDisk(alias, disk, to, heir);
    var d1 := (disk - {to})[heir := disk[to]];
    assert disk - {heir} == Renamed(d1, heir, to)[heir := Placeholder] - {heir} == Renamed(d1, heir, to);
  }

  /** Nothing stands in the way of a rename onto a file with other names. */
  lemma SharedMayBeReplaced(alias: Aliases, disk: Fs, from: Path, to: Path)
    requires Coherent(alias, disk)
    requires IsBacking(alias, to) && from in disk && !disk[from].Dir? && Resolve(alias, from) != to
    ensures CanRename(disk, from, to) && CanRename(AliasMap.View(alias, disk), from, to)
  {
    CoherentFacts(alias, disk);
    FileIsLeaf(disk, to);
    FileIsLeaf(disk, from);
  }

  lemma MovesUnopposed(alias: Aliases, disk: Fs, from: Path, to: Path)
    requires Coherent(alias, disk)
    ensures var v := AliasMap.View(alias, disk);
      Unopposed(v, from, to) ==> CanRename(v, from, to) && Arrived(v, Renamed(v, from, to), from, to)
  {
    var v := AliasMap.View(alias, disk);
    assert TreeShaped(v) by { CoherentFacts(alias, disk); }
    if Unopposed(v, from, to) { UnopposedMoves(v, from, to); }
  }

  class Dispatcher {
    const links: LinkTable
    var disk: Fs

    constructor (links: LinkTable, disk: Fs)
      ensures this.links == links && this.disk == disk
    {
      this.links, this.disk := links, disk;
    }

    ghost predicate Valid()
      reads this, links, links.file
    {
      links.Valid() && Coherent(links.alias, disk)
    }

    /** The file system the guest sees. */
    ghost function View(): Fs
      requires Valid()
      reads this, links, links.file
    {
      AliasMap.View(links.alias, disk)
    }

    method HostRename(from: Path, to: Path, flags: Flags, refuse: bool) returns (ok: bool)
      modifies this`disk
      ensures ok <==> !refuse && Permitted(old(disk), from, to, flags)
      ensures disk == if ok then RenamedAs(old(disk), from, to, flags) else old(disk)
    {
      ok := !refuse && Permitted(disk, from, to, flags);
      if ok { disk := RenamedAs(disk, from, to, flags); }
    }

    method HostUnlink(name: Path, refuse: bool) returns (ok: bool)
      modifies this`disk
      ensures ok <==> !refuse && Unlinkable(old(disk), name)
      ensures disk == if ok then Unlinked(old(disk), name) else old(disk)
    {
      ok := !refuse && Unlinkable(disk, name);
      if ok { disk := Unlinked(disk, name); }
    }

    /** An heir for the names of a file that is about to lose its own. */
    method Inherit(name: Path) returns (heir: Path)
      requires links.Valid() && IsBacking(links.alias, name)
      modifies links, links.file`text, links.file`log
      ensures links.Valid() && heir in old(links.alias) && old(links.alias)[heir] == name
      ensures links.alias == Promoted(old(links.alias), name, heir)
    {
      var found;
      heir, found := links.Promote(name);
    }

    /** The table told of a rename onto a name it does not know. */
    method Carry(from: Path, to: Path)
      requires links.Valid() && !Touches(links.alias, to)
      modifies links, links.file`text, links.file`log
      ensures links.Valid() && links.alias == PrefixRenamed(old(links.alias), from, to)
    {
      links.RenamePrefix(from, to);
    }

    /** The table told that an alias is gone. */
    method Forget(name: Path)
      requires links.Valid()
      modifies links, links.file`text, links.file`log
      ensures links.Valid() && links.alias == old(links.alias) - {name}
    {
      assert name !in links.alias ==> links.alias - {name} == links.alias;
      links.Drop(name);
    }

    /** link(2): the new name joins the inode the old one names. */
    method Link(src: Path, dst: Path, host: Host) returns (out: Outcome)
      requires Valid()
      modifies this, links, links.file`text, links.file`log
      ensures Valid()
      ensures out.Done? <==> !host.refuseMain && Linkable(old(View()), src, dst)
      ensures View() == if out.Done? then Linked(old(View()), src, dst) else old(View())
      ensures src !in old(View()) ==> out == Failed(ENOENT)
      ensures src in old(View()) && old(View())[src].Dir? ==> out == Failed(EPERM)
      ensures src in old(View()) && !old(View())[src].Dir? ==> out == Done || out == Failed(HostErrno)
      ensures src in old(View()) && !old(View())[src].Dir? ==>
        (out == Done <==> !host.refuseMain && dst !in old(View()) && ParentsExist(old(View()), dst))
    {
      CoherentFacts(links.alias, disk);
      ghost var v := View();
      var file := Resolve(links.alias, src);
      if file !in disk { return Failed(ENOENT); }
      if disk[file].Dir? { return Failed(EPERM); }
      assert ParentsExist(v, dst) <==> ParentsExist(disk, dst);
      if dst in disk || !ParentsExist(disk, dst) || host.refuseMain { return Failed(HostErrno); }
      assert src in disk;
      LinkRefines(links.alias, disk, src, dst);
      AbsentIsUntouched(links.alias, disk, dst);
      disk := disk[dst := Placeholder];
      links.Add(dst, file);
      return Done;
    }

    /** unlink(2): exactly one name goes, and the file lives on under its others; except
        that a file with other names stays put, and its names are left wrong, when the
        host refuses to move its data onto one of them. */
    method Unlink(name: Path, host: Host) returns (out: Outcome)
      requires Valid()
      modifies this, links, links.file`text, links.file`log
      ensures out.Done? ==> Unlinkable(old(View()), name) && name in old(View()) && !old(View())[name].Dir?
      ensures name in old(View()) && !old(View())[name].Dir? && !host.refuseMain && !host.refusePromote ==> out.Done?
      ensures !(host.refusePromote && name in old(links.names)) ==>
                Valid() && View() == if out.Done? then Unlinked(old(View()), name) else old(View())
      ensures host.refusePromote && name in old(links.names) ==>
                out.Failed? && disk == old(disk) && HalfPromoted(old(links.alias), links.alias, name) && !Valid()
    {
      ghost var alias, before := links.alias, disk;
      assert name in links.names ==> name !in links.alias by {
        if name in links.names { ghost var _ := BackingHasAlias(links.alias, links.names, name); }
      }
      if name in links.alias || name in links.names {
        if name in links.names { ghost var _ := BackingHasAlias(links.alias, links.names, name); }
        out := UnlinkWithLinks(name, host);
        HalfPromotedBreaks(alias, before, links.alias, name);
      } else {
        assert forall a :: a in links.alias ==> links.alias[a] != name;
        if name in disk && !disk[name].Dir? { PlainRefines(links.alias, disk, name); }
        var ok := HostUnlink(name, host.refuseMain);
        out := if ok then Done else Failed(HostErrno);
      }
    }

    /** A name the table knows. When the host refuses the move onto the heir, the table
        has already changed and is not put back: the last clause says how it is left. */
    method UnlinkWithLinks(name: Path, host: Host) returns (out: Outcome)
      requires Valid() && name in disk && (name in links.alias || name in links.names)
      modifies this, links, links.file`text, links.file`log
      ensures out.Done? <==> if name in old(links.alias) then !host.refuseMain else !host.refusePromote
      ensures Unlinkable(old(View()), name)
      ensures out.Done? ==> Valid() && View() == Unlinked(old(View()), name)
      ensures out.Failed? ==> disk == old(disk)
      ensures out.Failed? && name in old(links.alias) ==> links.alias == old(links.alias) && Valid()
      ensures out.Failed? && name !in old(links.alias) ==> HalfPromoted(old(links.alias), links.alias, name)
    {
      if name in links.alias {
        DropRefines(links.alias, disk, name);
        var ok := HostUnlink(name, host.refuseMain);
        if !ok { return Failed(HostErrno); }
        Forget(name);
        return Done;
      }
      ghost var alias := links.alias;
      ghost var _ := BackingHasAlias(alias, links.names, name);
      var heir := Inherit(name);
      PromoteRefines(alias, disk, name, heir);
      var ok := HostRename(name, heir, Flags(false, false), host.refusePromote);
      if !ok { return Failed(HostErrno); }
      return Done;
    }

    /** rename(2) and renameat2(2), whether or not the table knows the names. */
    method Rename(from: Path, to: Path, flags: Flags, host: Host) returns (out: Outcome)
      requires Valid()
      modifies this, links, links.file`text, links.file`log
      ensures out.Done? ==> Permitted(old(View()), from, to, flags)
      ensures out.Done? ==> (Valid() && View() == RenamedAs(old(View()), from, to, flags) <==>
        !(flags.exchange && Known(old(links.alias), from, to) && !MarkFree(old(links.alias), from, to, Mark(from))))
      ensures Permitted(old(View()), from, to, flags) && !host.refuseMain && !host.refusePromote ==> out.Done?
      ensures flags.exchange ==> (out.Done? <==> !host.refuseMain && Permitted(old(View()), from, to, flags))
      ensures out.Failed? ==> links.alias == old(links.alias)
      ensures out.Failed? ==>
        (Valid() <==> flags.exchange || flags.noReplace || !Stranded(old(links.alias), old(disk), from, to, host))
      ensures out.Failed? && Valid() ==> disk == old(disk) && View() == old(View())
      ensures !flags.exchange && !flags.noReplace && Stranded(old(links.alias), old(disk), from, to, host) ==>
        out.Failed? && LeftBehind(old(links.alias), old(disk), to, host, disk)
      ensures flags.noReplace && to in old(View()) ==> out.Failed?
      ensures !flags.exchange && !flags.noReplace && Unopposed(old(View()), from, to)
        && !host.refuseMain && !host.refusePromote
        ==> out.Done? && Valid() && Arrived(old(View()), View(), from, to)
      ensures flags.exchange && !flags.noReplace && from in old(View()) && to in old(View()) && Apart(from, to)
        && !host.refuseMain
        ==> out.Done?
    {
      MovesUnopposed(links.alias, disk, from, to);
      if Known(links.alias, from, to) {
        out := RenameWithLinks(from, to, flags, host);
      } else {
        out := RenameUntouched(from, to, flags, host);
      }
    }

    /** The table need not be told: the call goes to the host as it is. */
    method RenameUntouched(from: Path, to: Path, flags: Flags, host: Host) returns (out: Outcome)
      requires Valid() && !Touches(links.alias, from) && !Touches(links.alias, to)
      modifies this`disk
      ensures out.Done? <==> !host.refuseMain && Permitted(old(View()), from, to, flags)
      ensures Valid() && View() == if out.Done? then RenamedAs(old(View()), from, to, flags) else old(View())
      ensures out.Failed? ==> disk == old(disk)
    {
      UntouchedRefines(links.alias, disk, from, to, flags);
      var ok := HostRename(from, to, flags, host.refuseMain);
      out := if ok then Done else Failed(HostErrno);
    }

    method RenameWithLinks(from: Path, to: Path, flags: Flags, host: Host) returns (out: Outcome)
      requires Valid()
      modifies this, links, links.file`text, links.file`log
      ensures out.Done? ==> Permitted(old(View()), from, to, flags)
      ensures out.Done? ==> (Valid() && View() == RenamedAs(old(View()), from, to, flags) <==>
        !(flags.exchange && !MarkFree(old(links.alias), from, to, Mark(from))))
      ensures Permitted(old(View()), from, to, flags) && !host.refuseMain && !host.refusePromote ==> out.Done?
      ensures flags.exchange ==> (out.Done? <==> !host.refuseMain && Permitted(old(View()), from, to, flags))
      ensures out.Failed? ==> links.alias == old(links.alias)
      ensures out.Failed? ==>
        (Valid() <==> flags.exchange || flags.noReplace || !Stranded(old(links.alias), old(disk), from, to, host))
      ensures out.Failed? && Valid() ==> disk == old(disk) && View() == old(View())
      ensures !flags.exchange && !flags.noReplace && Stranded(old(links.alias), old(disk), from, to, host) ==>
        out.Failed? && LeftBehind(old(links.alias), old(disk), to, host, disk)
      ensures from !in old(disk) ==> out == Failed(ENOENT)
      ensures from in old(disk) && to in old(disk) && flags.noReplace ==> out == Failed(EEXIST)
      ensures from in old(disk) && to in old(disk) && !flags.noReplace && !flags.exchange
        && old(disk)[from].Dir? && !old(disk)[to].Dir?
        ==> out == Failed(ENOTDIR)
    {
      assert Permitted(View(), from, to, flags) <==> Permitted(disk, from, to, flags) by {
        CoherentFacts(links.alias, disk);
      }
      if from !in disk { return Failed(ENOENT); }
      var there := to in disk;
      if flags.noReplace && there { return Failed(EEXIST); }
      if flags.exchange {
        out := ExchangeWithLinks(from, to, flags, host);
      } else {
        out := ReplaceWithLinks(from, to, host);
      }
    }

    /** A rename that may replace what is at `to`. */
    method ReplaceWithLinks(from: Path, to: Path, host: Host) returns (out: Outcome)
      requires Valid() && from in disk
      modifies this, links, links.file`text, links.file`log
      ensures out.Done? ==> Valid() && CanRename(old(View()), from, to) && View() == Renamed(old(View()), from, to)
      ensures CanRename(old(View()), from, to) && !host.refuseMain && !host.refusePromote ==> out.Done?
      ensures out.Failed? ==> links.Valid() && links.alias == old(links.alias)
      ensures out.Failed? && !Stranded(old(links.alias), old(disk), from, to, host) ==> disk == old(disk)
      ensures Stranded(old(links.alias), old(disk), from, to, host) ==>
        out.Failed? && !Coherent(links.alias, disk) && LeftBehind(old(links.alias), old(disk), to, host, disk)
      ensures to in old(disk) && old(disk)[from].Dir? && !old(disk)[to].Dir? ==> out == Failed(ENOTDIR)
    {
      var there := to in disk;
      // Two names of one file: nothing is renamed, and that is a success.
      if there && Resolve(links.alias, from) == Resolve(links.alias, to) {
        TwinsMayRename(links.alias, disk, from, to);
        return Done;
      }
      if there && disk[from].Dir? && !disk[to].Dir? {
        assert !CanRename(disk, from, to);
        assert !CanRename(View(), from, to) by { CoherentFacts(links.alias, disk); }
        return Failed(ENOTDIR);
      }
      if to in links.names { ghost var _ := BackingHasAlias(links.alias, links.names, to); }
      if there && to !in links.alias && to in links.names {
        ghost var alias, before := links.alias, disk;
        out := RenameOntoBacking(from, to, host);
        LeftBehindBreaks(alias, before, to, host, disk);
      } else {
        out := RenameOntoRest(from, to, host);
      }
    }

    /** The destination is free, an alias, or a file no other name shares. */
    method RenameOntoRest(from: Path, to: Path, host: Host) returns (out: Outcome)
      requires Valid() && from in disk && to !in links.names
      requires to in disk ==> Resolve(links.alias, from) != Resolve(links.alias, to)
      modifies this, links, links.file`text, links.file`log
      ensures out.Done? <==> !host.refuseMain && CanRename(old(View()), from, to)
      ensures out.Done? ==> Valid() && View() == Renamed(old(View()), from, to)
      ensures out.Failed? ==> links.Valid() && links.alias == old(links.alias) && disk == old(disk)
    {
      assert CanRename(View(), from, to) <==> CanRename(disk, from, to) by { CoherentFacts(links.alias, disk); }
      if CanRename(disk, from, to) {
        if to !in disk { MoveRefines(links.alias, disk, from, to); }
        else if to in links.alias { OntoAliasRefines(links.alias, disk, from, to); }
        else { OntoPlainRefines(links.alias, disk, from, to); }
      }
      var ok := HostRename(from, to, Flags(false, false), host.refuseMain);
      if !ok { return Failed(HostErrno); }
      if to in links.alias { Forget(to); }
      Carry(from, to);
      return Done;
    }

    /** The destination holds data other names share: it moves onto one of them first,
        and back again if the rename then fails. */
    method RenameOntoBacking(from: Path, to: Path, host: Host) returns (out: Outcome)
      requires Valid() && from in disk && !disk[from].Dir? && to in links.names && Resolve(links.alias, from) != to
      modifies this, links, links.file`text, links.file`log
      ensures out.Done? <==> !host.refuseMain && !host.refusePromote
      ensures CanRename(old(View()), from, to) && (out.Done? ==> Valid() && View() == Renamed(old(View()), from, to))
      ensures out.Failed? ==> links.Valid() && links.alias == old(links.alias)
      ensures out.Failed? && host.refusePromote ==> disk == old(disk)
      ensures out.Failed? && !host.refusePromote ==> LeftBehind(old(links.alias), old(disk), to, host, disk)
    {
      ghost var alias, before := links.alias, disk;
      ghost var _ := BackingHasAlias(alias, links.names, to);
      SharedMayBeReplaced(alias, before, from, to);
      var heir, ok := Vacate(to, host);
      if !ok { return Failed(HostErrno); }
      out := RenameOntoVacated(from, to, heir, host, alias, before);
    }

    /** Data that other names share moves onto one of them; where the host refuses, the table is
        as it was. */
    method Vacate(to: Path, host: Host) returns (heir: Path, ok: bool)
      requires Valid() && IsBacking(links.alias, to)
      modifies this, links, links.file`text, links.file`log
      ensures links.Valid() && (ok <==> !host.refusePromote)
      ensures heir in old(links.alias) && old(links.alias)[heir] == to && to in old(disk)
      ensures !ok ==> links.alias == old(links.alias) && disk == old(disk)
      ensures ok ==> links.alias == Promoted(old(links.alias), to, heir)
      ensures ok ==> disk == (old(disk) - {to})[heir := old(disk)[to]]
    {
      ghost var alias, before := links.alias, disk;
      heir := Inherit(to);
      FileMove(before, to, heir);
      ok := HostRename(to, heir, Flags(false, false), host.refusePromote);
      if !ok {
        PutBackPlan(alias, before, to, heir);
        PutBack(to, heir, alias);
      }
    }

    /** The second half, with the data on the heir and the destination's name free. */
    method RenameOntoVacated(from: Path, to: Path, heir: Path, host: Host, ghost alias: Aliases, ghost before: Fs)
        returns (out: Outcome)
      requires links.Valid() && Coherent(alias, before) && heir in alias && alias[heir] == to
      requires from in before && !before[from].Dir? && Resolve(alias, from) != to
      requires links.alias == Promoted(alias, to, heir) && disk == (before - {to})[heir := before[to]]
      modifies this, links, links.file`text, links.file`log
      ensures out.Done? <==> !host.refuseMain && CanRename(AliasMap.View(alias, before), from, to)
      ensures out.Done? ==> Valid() && View() == Renamed(AliasMap.View(alias, before), from, to)
      ensures out.Failed? ==> links.Valid() && links.alias == alias
      ensures out.Failed? ==> disk == Left(before, to, heir, host)
    {
      OntoBackingRefines(alias, before, from, to, heir);
      var ok := HostRename(from, to, Flags(false, false), host.refuseMain);
      if ok {
        Carry(from, to);
        return Done;
      }
      Undo(to, heir, host, alias, before);
      return Failed(HostErrno);
    }

    /** The data goes back, the heir's placeholder is made anew, and the table follows; what the
        host then refuses is not looked at. */
    method Undo(to: Path, heir: Path, host: Host, ghost alias: Aliases, ghost before: Fs)
      requires links.Valid() && Coherent(alias, before) && heir in alias && alias[heir] == to
      requires links.alias == Promoted(alias, to, heir) && disk == (before - {to})[heir := before[to]]
      modifies this, links, links.file`text, links.file`log
      ensures links.Valid() && links.alias == alias && disk == Left(before, to, heir, host)
    {
      UndoneDisk(alias, before, to, heir);
      var _ := HostRename(heir, to, Flags(false, false), host.refuseUndo);
      if !host.refuseReopen && heir !in disk { disk := disk[heir := Placeholder]; }
      PutBackPlan(alias, before, to, heir);
      PutBack(to, heir, alias);
    }

    /** The table's half of undoing a promotion. */
    method PutBack(to: Path, heir: Path, ghost alias: Aliases)
      requires links.Valid() && heir in alias && alias[heir] == to && links.alias == Promoted(alias, to, heir)
      requires CanPutBack(alias, to, heir)
      modifies links, links.file`text, links.file`log
      ensures links.Valid() && links.alias == alias
    {
      Carry(heir, to);
      links.Add(heir, to);
    }

    method ExchangeWithLinks(from: Path, to: Path, flags: Flags, host: Host) returns (out: Outcome)
      requires Valid() && flags.exchange
      modifies this, links, links.file`text, links.file`log
      ensures out.Done? <==> !host.refuseMain && Permitted(old(disk), from, to, flags)
      ensures out.Done? ==> CanExchange(old(View()), from, to)
      ensures out.Done? ==>
        (Valid() && View() == Exchanged(old(View()), from, to) <==> MarkFree(old(links.alias), from, to, Mark(from)))
      ensures out.Failed? ==> links.Valid() && links.alias == old(links.alias) && disk == old(disk)
    {
      ghost var alias, before := links.alias, disk;
      var ok := HostRename(from, to, flags, host.refuseMain);
      if !ok { return Failed(HostErrno); }
      links.RenamePrefix(from, Mark(from));
      ghost var parked := links.alias;
      links.RenamePrefix(to, from);
      ghost var traded := links.alias;
      links.RenamePrefix(Mark(from), to);
      ExchangeExact(alias, before, from, to, parked, traded, links.alias);
      return Done;
    }

    /** One call: the guest's view moves as POSIX says, or not at all, if and only if it is none
        that breaks the table. */
    method Handle(c: Call, host: Host) returns (out: Outcome)
      requires Valid()
      modifies this, links, links.file`text, links.file`log
      ensures Breaks(old(links.alias), old(disk), c, host) <==> !(Valid() && Lawful(old(View()), c, host, out, View()))
    {
      match c {
        case LinkCall(src, dst) => out := HandleLink(src, dst, host);
        case UnlinkCall(name) => out := HandleUnlink(name, host);
        case RenameCall(from, to, flags) => out := HandleRename(from, to, flags, host);
      }
    }

    method HandleLink(src: Path, dst: Path, host: Host) returns (out: Outcome)
      requires Valid()
      modifies this, links, links.file`text, links.file`log
      ensures Valid() && Lawful(old(View()), LinkCall(src, dst), host, out, View())
    {
      ghost var v := View();
      out := Link(src, dst, host);
      LinkLawful(v, src, dst, host, out, View());
    }

    method HandleUnlink(name: Path, host: Host) returns (out: Outcome)
      requires Valid()
      modifies this, links, links.file`text, links.file`log
      ensures host.refusePromote && IsBacking(old(links.alias), name) <==>
        !(Valid() && Lawful(old(View()), UnlinkCall(name), host, out, View()))
    {
      BackingsAreListed(links.alias, links.names);
      ghost var v, alias := View(), links.alias;
      out := Unlink(name, host);
      UnlinkLawful(v, name, host, out, if Valid() then View() else v);
    }

    method HandleRename(from: Path, to: Path, flags: Flags, host: Host) returns (out: Outcome)
      requires Valid()
      modifies this, links, links.file`text, links.file`log
      ensures Breaks(old(links.alias), old(disk), RenameCall(from, to, flags), host) <==>
        !(Valid() && Lawful(old(View()), RenameCall(from, to, flags), host, out, View()))
    {
      ghost var v, alias, before := View(), links.alias, disk;
      out := Rename(from, to, flags, host);
      BreaksIff(alias, before, from, to, flags, host, out, Valid(), if Valid() then View() else v);
    }

    /** Any run of guest calls, with whatever the host refuses along the way: at every
        moment the guest sees the file system a host with link(2) would show it, up to
        the first call that breaks the table, if there is one. A run of calls over plain
        names, on a host that never refuses to move data onto an heir or back, has none. */
    method Serve(calls: seq<Call>, hosts: seq<Host>) returns (outs: seq<Outcome>, ghost views: seq<Fs>)
      requires Valid() && |hosts| == |calls|
      modifies this, links, links.file`text, links.file`log
      ensures Valid() && Trail(calls, hosts, outs, views)
      ensures views[0] == old(View()) && views[|outs|] == View()
      ensures |outs| < |calls| ==> Breaks(links.alias, disk, calls[|outs|], hosts[|outs|])
      ensures old(Unmarked(disk)) && Tame(calls, hosts) ==> |outs| == |calls|
    {
      outs, views := [], [View()];
      var i := 0;
      while i < |calls| && !Breaks(links.alias, disk, calls[i], hosts[i])
        invariant 0 <= i == |outs| <= |calls| && Valid() && Trail(calls, hosts, outs, views)
        invariant views[0] == old(View()) && views[i] == View()
      {
        var out := Handle(calls[i], hosts[i]);
        TrailGrows(calls, hosts, outs, views, out, View());
        outs, views := outs + [out], views + [View()];
        i := i + 1;
      }
      if Unmarked(views[0]) && Tame(calls, hosts) {
        TrailUnmarked(calls, hosts, outs, views, i);
        if i < |calls| { TameNeverBreaks(links.alias, disk, calls[i], hosts[i]); }
      }
    }
  }

  // ----- whole runs ---------------------------------------------------------------

  datatype Call = LinkCall(src: Path, dst: Path) | UnlinkCall(name: Path)
    | RenameCall(from: Path, to: Path, flags: Flags) {
    predicate Unmarked() {
      match this
      case LinkCall(src, dst) => Plain(dst)
      case UnlinkCall(name) => true
      case RenameCall(from, to, flags) => Plain(from) && Plain(to)
    }
  }

  /** No name contains the character the exchange's parking name is made with. */
  predicate Plain(p: Path) { '\U{0001}' !in p }

  predicate Unmarked(fs: Fs) { forall p :: p in fs ==> Plain(p) }

  predicate Allowed(v: Fs, c: Call) {
    match c
    case LinkCall(src, dst) => Linkable(v, src, dst)
    case UnlinkCall(name) => Unlinkable(v, name)
    case RenameCall(from, to, flags) => Permitted(v, from, to, flags)
  }

  /** What the call does on a host that has link(2). */
  function Posix(v: Fs, c: Call): Fs
    requires Allowed(v, c)
  {
    match c
    case LinkCall(src, dst) => Linked(v, src, dst)
    case UnlinkCall(name) => Unlinked(v, name)
    case RenameCall(from, to, flags) => RenamedAs(v, from, to, flags)
  }

  function After(v: Fs, c: Call, out: Outcome): Fs {
    if out.Done? && Allowed(v, c) then Posix(v, c) else v
  }

  /** The answer is POSIX's own, up to the host refusing what POSIX allows. */
  predicate Faithful(v: Fs, c: Call, host: Host, out: Outcome) {
    (out.Done? ==> Allowed(v, c)) && (Allowed(v, c) && !host.refuseMain && !host.refusePromote ==> out.Done?)
  }

  lemma LinkLawful(v: Fs, src: Path, dst: Path, host: Host, out: Outcome, w: Fs)
    requires out.Done? <==> !host.refuseMain && Linkable(v, src, dst)
    requires w == if out.Done? then Linked(v, src, dst) else v
    ensures Lawful(v, LinkCall(src, dst), host, out, w)
  {
  }

  lemma UnlinkLawful(v: Fs, name: Path, host: Host, out: Outcome, w: Fs)
    requires out.Done? ==> Unlinkable(v, name)
    requires Unlinkable(v, name) && !host.refuseMain && !host.refusePromote ==> out.Done?
    ensures w == (if out.Done? then Unlinked(v, name) else v) ==> Lawful(v, UnlinkCall(name), host, out, w)
  {
  }

  lemma HalfPromotedBreaks(alias: Aliases, disk: Fs, after: Aliases, name: Path)
    requires Coherent(alias, disk)
    ensures HalfPromoted(alias, after, name) ==> !Coherent(after, disk)
  {
    if HalfPromoted(alias, after, name) {
      var heir :| heir in alias && alias[heir] == name && after == Promoted(alias, name, heir);
      PromoteWithoutMoveBreaks(alias, disk, name, heir);
    }
  }

  /** Every answer faithful, every step the POSIX one. */
  ghost predicate Trail(calls: seq<Call>, hosts: seq<Host>, outs: seq<Outcome>, views: seq<Fs>) {
    && |outs| <= |calls| == |hosts| && |views| == |outs| + 1
    && forall i :: 0 <= i < |outs| ==> Lawful(views[i], calls[i], hosts[i], outs[i], views[i + 1])
  }

  predicate Lawful(v: Fs, c: Call, host: Host, out: Outcome, w: Fs) {
    Faithful(v, c, host, out) && w == After(v, c, out)
  }

  lemma BreaksIff(alias: Aliases, disk: Fs, from: Path, to: Path, flags: Flags, host: Host, out: Outcome, valid: bool,
                  w: Fs)
    requires Coherent(alias, disk)
    requires var v := AliasMap.View(alias, disk);
      var lost := flags.exchange && Known(alias, from, to) && !MarkFree(alias, from, to, Mark(from));
      && (out.Done? ==> Permitted(v, from, to, flags))
      && (flags.exchange ==> (out.Done? <==> !host.refuseMain && Permitted(v, from, to, flags)))
      && (out.Done? ==> (valid && w == RenamedAs(v, from, to, flags) <==> !lost))
      && (Permitted(v, from, to, flags) && !host.refuseMain && !host.refusePromote ==> out.Done?)
      && (out.Failed? ==> (valid <==> flags.exchange || flags.noReplace || !Stranded(alias, disk, from, to, host)))
      && (out.Failed? && valid ==> w == v)
      && (!flags.exchange && !flags.noReplace && Stranded(alias, disk, from, to, host) ==> out.Failed?)
    ensures Breaks(alias, disk, RenameCall(from, to, flags), host) <==>
      !(valid && Lawful(AliasMap.View(alias, disk), RenameCall(from, to, flags), host, out, w))
  {
    var v := AliasMap.View(alias, disk);
    assert Permitted(v, from, to, flags) <==> Permitted(disk, from, to, flags) by { CoherentFacts(alias, disk); }
    BreaksOf(alias, disk, v, from, to, flags, host, out, valid, w);
  }

  lemma BreaksOf(alias: Aliases, disk: Fs, v: Fs, from: Path, to: Path, flags: Flags, host: Host, out: Outcome,
                 valid: bool, w: Fs)
    requires Permitted(v, from, to, flags) <==> Permitted(disk, from, to, flags)
    requires var lost := flags.exchange && Known(alias, from, to) && !MarkFree(alias, from, to, Mark(from));
      && (out.Done? ==> Permitted(v, from, to, flags))
      && (flags.exchange ==> (out.Done? <==> !host.refuseMain && Permitted(v, from, to, flags)))
      && (out.Done? ==> (valid && w == RenamedAs(v, from, to, flags) <==> !lost))
      && (Permitted(v, from, to, flags) && !host.refuseMain && !host.refusePromote ==> out.Done?)
      && (out.Failed? ==> (valid <==> flags.exchange || flags.noReplace || !Stranded(alias, disk, from, to, host)))
      && (out.Failed? && valid ==> w == v)
      && (!flags.exchange && !flags.noReplace && Stranded(alias, disk, from, to, host) ==> out.Failed?)
    ensures Breaks(alias, disk, RenameCall(from, to, flags), host) <==>
      !(valid && Lawful(v, RenameCall(from, to, flags), host, out, w))
  {
  }

  lemma TrailGrows(calls: seq<Call>, hosts: seq<Host>, outs: seq<Outcome>, views: seq<Fs>, out: Outcome, w: Fs)
    requires Trail(calls, hosts, outs, views) && |outs| < |calls|
    requires Lawful(views[|outs|], calls[|outs|], hosts[|outs|], out, w)
    ensures Trail(calls, hosts, outs + [out], views + [w])
  {
    var os, vs := outs + [out], views + [w];
    forall i | 0 <= i < |os| ensures Lawful(vs[i], calls[i], hosts[i], os[i], vs[i + 1]) {
      if i < |outs| { assert Lawful(views[i], calls[i], hosts[i], outs[i], views[i + 1]); }
    }
  }

  /** The calls after which the table is wrong: removing a file's own name while the host
      refuses to move its data onto an heir; replacing such a file while the host refuses
      both the rename and its undoing; an exchange of known names that the mark loses one of. */
  predicate Breaks(alias: Aliases, disk: Fs, c: Call, host: Host) {
    match c
    case LinkCall(_, _) => false
    case UnlinkCall(name) => host.refusePromote && IsBacking(alias, name)
    case RenameCall(from, to, flags) =>
      if flags.exchange then
        && !host.refuseMain && Permitted(disk, from, to, flags)
        && Known(alias, from, to) && !MarkFree(alias, from, to, Mark(from))
      else !flags.noReplace && Stranded(alias, disk, from, to, host)
  }

  /** Each of the three in one directory: "/b" is another name of "/a", and a guest has given
      "/c" the name an exchange of "/a" parks it under. */
  lemma SomeCallsBreak()
    ensures exists alias, disk ::
      && Coherent(alias, disk)
      && Breaks(alias, disk, UnlinkCall("/a"), Host(false, true, false, false))
      && Breaks(alias, disk, RenameCall("/c", "/a", Flags(false, false)), Host(true, false, true, false))
      && Breaks(alias, disk, RenameCall("/a", "/c", Flags(false, true)), Host(false, false, false, false))
  {
    var m := Mark("/a");
    assert m[0] == '/' && forall i :: 1 <= i < |m| ==> m[i] != '/';
    var alias: Aliases := map["/b" := "/a", m := "/c"];
    var disk: Fs := map["/a" := Data(1), "/b" := Placeholder, "/c" := Data(2), m := Placeholder];
    FlatIsTree(disk);
    assert "/b" in alias && alias["/b"] == "/a";
    assert m in alias && !Parks(m, "/a", "/c", m);
    assert Coherent(alias, disk);
  }

  lemma FlatIsTree(fs: Fs)
    requires forall q :: q in fs ==> |q| > 1 && q[0] == '/' && forall i :: 1 <= i < |q| ==> q[i] != '/'
    ensures TreeShaped(fs)
  {
  }

  predicate Tame(calls: seq<Call>, hosts: seq<Host>) {
    |hosts| == |calls| && forall i :: 0 <= i < |calls| ==> calls[i].Unmarked() && Kind(calls[i], hosts[i])
  }

  predicate Kind(c: Call, host: Host) {
    !host.refuseUndo && !host.refuseReopen && (c.UnlinkCall? ==> !host.refusePromote)
  }

  lemma TameNeverBreaks(alias: Aliases, disk: Fs, c: Call, host: Host)
    requires Coherent(alias, disk) && Unmarked(disk) && c.Unmarked() && Kind(c, host)
    ensures !Breaks(alias, disk, c, host)
  {
    if c.RenameCall? && CanExchange(disk, c.from, c.to) {
      UnmarkedLeavesMarkFree(disk, c.from);
      assert forall a :: a in alias ==> a in disk && alias[a] in disk;
      PlainIsApart(c.from, c.to);
      UntouchedIsFree(alias, c.from, c.to, Mark(c.from));
    }
  }

  lemma PlainIsApart(x: Path, y: Path)
    requires (x == y || Apart(x, y)) && Plain(y)
    ensures Apart(y, Mark(x))
  {
    var m := Mark(x);
    MarkIsApart(x);
    assert m[|x|] == '\U{0001}';
    assert forall i :: |x| <= i < |m| ==> m[i] != '/';
    assert forall k :: 0 <= k <= |x| ==> x[..k] == m[..k];
  }

  lemma {:induction false} TrailUnmarked(calls: seq<Call>, hosts: seq<Host>, outs: seq<Outcome>, views: seq<Fs>, k: nat)
    requires Trail(calls, hosts, outs, views) && Tame(calls, hosts) && k <= |outs| && Unmarked(views[0])
    ensures Unmarked(views[k])
  {
    if k > 0 {
      TrailUnmarked(calls, hosts, outs, views, k - 1);
      assert Lawful(views[k - 1], calls[k - 1], hosts[k - 1], outs[k - 1], views[k - 1 + 1]);
      LawfulUnmarked(views[k - 1], calls[k - 1], hosts[k - 1], outs[k - 1], views[k]);
    }
  }

  lemma LawfulUnmarked(v: Fs, c: Call, host: Host, out: Outcome, w: Fs)
    requires Lawful(v, c, host, out, w) && Unmarked(v) && c.Unmarked()
    ensures Unmarked(w)
  {
    StaysUnmarked(v, c, out);
  }

  lemma UnmarkedLeavesMarkFree(fs: Fs, from: Path)
    requires Unmarked(fs)
    ensures NothingUnder(fs, Mark(from))
  {
    forall q | q in fs ensures !Under(q, Mark(from)) {
      assert Mark(from)[|from|] == '\U{0001}';
    }
  }

  lemma StaysUnmarked(v: Fs, c: Call, out: Outcome)
    requires Unmarked(v) && c.Unmarked()
    ensures Unmarked(After(v, c, out))
  {
    if out.Done? && Allowed(v, c) && c.RenameCall? && After(v, c, out) != v {
      var r := After(v, c, out);
      forall q | q in r ensures Plain(q) {
        var p := Swap(q, c.from, c.to);
        SwapInvolution(q, c.from, c.to);
        assert p in v by {
          if !c.flags.exchange { RenamedIsSwap(v, c.from, c.to); }
        }
        assert Plain(Swap(p, c.from, c.to));
      }
    }
  }

  /** With the table `t`, the guest sees the two names exchanged. */
  ghost predicate ShowsExchange(alias: Aliases, disk: Fs, x: Path, y: Path, t: Aliases)
    requires Coherent(alias, disk) && CanExchange(disk, x, y)
  {
    var d, v := Exchanged(disk, x, y), AliasMap.View(alias, disk);
    Coherent(t, d) && AliasMap.View(t, d) == Exchanged(v, x, y)
  }

  /** THE EXCHANGE. Of all the tables the three renames can leave, the guest is shown the exchange
      by one alone, and it is left if and only if the mark loses no name. */
  lemma ExchangeExact(alias: Aliases, disk: Fs, x: Path, y: Path, t1: Aliases, t2: Aliases, t3: Aliases)
    requires Coherent(alias, disk) && CanExchange(disk, x, y)
    requires Lands(alias, x, Mark(x), t1) && Lands(t1, y, x, t2) && Lands(t2, Mark(x), y, t3)
    ensures CanExchange(AliasMap.View(alias, disk), x, y)
    ensures MarkFree(alias, x, y, Mark(x)) ==>
      NoClash(alias, x, Mark(x)) && NoClash(t1, y, x) && NoClash(t2, Mark(x), y)
    ensures ShowsExchange(alias, disk, x, y, t3) <==> MarkFree(alias, x, y, Mark(x))
  {
    MarkIsApart(x);
    ExchangeView(alias, disk, x, y);
    MarkMustBeFree(alias, x, y, Mark(x), t1, t2, t3);
    if MarkFree(alias, x, y, Mark(x)) {
      ExchangeBySteps(alias, x, y, Mark(x), t1, t2, t3);
    } else if ShowsExchange(alias, disk, x, y, t3) {
      ViewDetermines(t3, Swapped(alias, x, y), Exchanged(disk, x, y));
    }
  }

  lemma ExchangeView(alias: Aliases, disk: Fs, from: Path, to: Path)
    requires Coherent(alias, disk) && CanExchange(disk, from, to)
    ensures Coherent(Swapped(alias, from, to), Exchanged(disk, from, to))
    ensures CanExchange(AliasMap.View(alias, disk), from, to)
    ensures AliasMap.View(Swapped(alias, from, to), Exchanged(disk, from, to)) ==
      Exchanged(AliasMap.View(alias, disk), from, to)
  {
    if from != to { ExchangeRefines(alias, disk, from, to); }
  }

  ghost predicate CanPutBack(alias: Aliases, name: Path, heir: Path) {
    && !Touches(Promoted(alias, name, heir), name)
    && PrefixRenamed(Promoted(alias, name, heir), heir, name)[heir := name] == alias
    && heir !in PrefixRenamed(Promoted(alias, name, heir), heir, name)
    && name !in PrefixRenamed(Promoted(alias, name, heir), heir, name)
    && heir != name && forall x :: x in alias ==> alias[x] != heir
  }

  lemma PutBackPlan(alias: Aliases, disk: Fs, name: Path, heir: Path)
    requires Coherent(alias, disk) && heir in alias && alias[heir] == name
    ensures CanPutBack(alias, name, heir)
  {
    assert disk[name].Data? && disk[heir].Placeholder?;
    FileIsLeaf(disk, name);
    FileIsLeaf(disk, heir);
    assert NoChain(alias) by { CoherentFacts(alias, disk); }
    UndoRestoresTable(alias, name, heir);
    PutBackFrom(alias, name, heir);
  }

  lemma PutBackFrom(alias: Aliases, name: Path, heir: Path)
    requires NoChain(alias) && heir in alias && alias[heir] == name && !Touches(Promoted(alias, name, heir), name)
    requires PrefixRenamed(Promoted(alias, name, heir), heir, name) == alias - {heir}
    ensures CanPutBack(alias, name, heir)
  {
    assert (alias - {heir})[heir := name] == alias;
  }

  lemma FileIsLeaf(fs: Fs, p: Path)
    requires TreeShaped(fs) && p in fs && !fs[p].Dir?
    ensures forall q :: q in fs && Under(q, p) ==> q == p
  {
  }

  predicate NothingUnder(fs: Fs, p: Path) {
    forall q :: q in fs ==> !Under(q, p)
  }

  lemma TwinsMayRename(alias: Aliases, disk: Fs, from: Path, to: Path)
    requires Coherent(alias, disk) && from in disk && to in disk && Resolve(alias, from) == Resolve(alias, to)
    ensures CanRename(AliasMap.View(alias, disk), from, to)
    ensures Renamed(AliasMap.View(alias, disk), from, to) == AliasMap.View(alias, disk)
  {
    CoherentFacts(alias, disk);
  }

  /** Renaming names the table does not know leaves it right without being told. */
  lemma UntouchedRefines(alias: Aliases, disk: Fs, from: Path, to: Path, flags: Flags)
    requires Coherent(alias, disk) && !Touches(alias, from) && !Touches(alias, to)
    ensures Permitted(disk, from, to, flags) <==> Permitted(AliasMap.View(alias, disk), from, to, flags)
    ensures Permitted(disk, from, to, flags) ==>
      && Coherent(alias, RenamedAs(disk, from, to, flags))
      && AliasMap.View(alias, RenamedAs(disk, from, to, flags)) ==
         RenamedAs(AliasMap.View(alias, disk), from, to, flags)
  {
    var v := AliasMap.View(alias, disk);
    assert CanRename(v, from, to) <==> CanRename(disk, from, to) by { CoherentFacts(alias, disk); }
    if Permitted(disk, from, to, flags) && from != to {
      UntouchedRename(alias, from, to);
      if flags.exchange { UntouchedExchange(alias, disk, from, to); } else { UntouchedMove(alias, disk, from, to); }
    }
  }

  lemma UntouchedExchange(alias: Aliases, disk: Fs, x: Path, y: Path)
    requires Coherent(alias, disk) && !Touches(alias, x) && !Touches(alias, y) && CanExchange(disk, x, y) && x != y
    ensures Coherent(alias, Exchanged(disk, x, y)) && CanExchange(AliasMap.View(alias, disk), x, y)
    ensures AliasMap.View(alias, Exchanged(disk, x, y)) == Exchanged(AliasMap.View(alias, disk), x, y)
  {
    UntouchedRename(alias, x, y);
    RenameIsSwap(alias, x, y);
    ExchangeRefines(alias, disk, x, y);
  }

  lemma UntouchedMove(alias: Aliases, disk: Fs, from: Path, to: Path)
    requires Coherent(alias, disk) && !Touches(alias, from) && !Touches(alias, to) && RenameOk(disk, from, to)
    ensures Coherent(alias, Renamed(disk, from, to)) && CanRename(AliasMap.View(alias, disk), from, to)
    ensures AliasMap.View(alias, Renamed(disk, from, to)) == Renamed(AliasMap.View(alias, disk), from, to)
  {
    UntouchedRename(alias, from, to);
    assert Under(to, to);
    if to in disk { OntoPlainRefines(alias, disk, from, to); } else { MoveRefines(alias, disk, from, to); }
  }
}
