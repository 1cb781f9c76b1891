/** One shadow record, what a guest stat makes of it, and its line in the journal. */
module MetaRecords {
  import opened Basics
  import opened Text

  /** Which fields of a record count; each has its bit in the journal. */
  datatype Have = Have(mode: bool, uid: bool, gid: bool, nlink: bool, fifo: bool)

  datatype MetaRecord = MetaRecord(mode: u32, uid: u32, gid: u32, nlink: u32, have: Have)

  const WORD: nat := 0x1_0000_0000
  type u32 = n: nat | n < WORD

  /** 0xffffffff: "leave unchanged" for an owner, "not known" for a host mode. */
  const NONE: u32 := 0xffff_ffff

  const BLANK := MetaRecord(0, 0, 0, 0, Have(false, false, false, false, false))

  type Table = map<string, MetaRecord>

  function At(t: Table, p: string): MetaRecord { if p in t then t[p] else BLANK }

  // ----- st_mode ----------------------------------------------------------------

  /** `m & 07777`. */
  function Perm(m: nat): (r: u32) ensures r < 4096 { m % 4096 }

  /** `m & 0170000`. */
  function FileType(m: nat): nat { m / 4096 % 16 * 4096 }

  const REGULAR: nat := 0x8000
  const SYMLINK: nat := 0xa000
  const FIFO: nat := 0x1000

  /** The mode a guest stat shows for a host inode under a record. */
  function EffectiveMode(host: nat, r: MetaRecord): nat {
    var h := if r.have.fifo && FileType(host) == REGULAR then host - REGULAR + FIFO else host;
    if !r.have.mode then h else FileType(h) + Perm(r.mode)
  }

  datatype Stat = Stat(mode: nat, uid: nat, gid: nat)

  /** Everything files report belongs to root until a record says otherwise. */
  function GuestStat(host: nat, r: MetaRecord): Stat {
    Stat(EffectiveMode(host, r), if r.have.uid then r.uid else 0, if r.have.gid then r.gid else 0)
  }

  /** The record says nothing the default view does not. */
  predicate Redundant(r: MetaRecord) {
    && (!r.have.uid || r.uid == 0) && (!r.have.gid || r.gid == 0)
    && !r.have.mode && !r.have.nlink && !r.have.fifo
  }

  // ----- the journal --------------------------------------------------------------

  datatype Change = Put(path: string, rec: MetaRecord) | Gone(path: string)

  function Apply(t: Table, c: Change): Table {
    match c
    case Put(p, r) => if Redundant(r) then t - {p} else t[p := r]
    case Gone(p) => t - {p}
  }

  function Bits(h: Have): (n: nat)
    ensures n < 32
  {
    (if h.mode then 1 else 0) + (if h.uid then 2 else 0) + (if h.gid then 4 else 0)
    + (if h.nlink then 8 else 0) + (if h.fifo then 16 else 0)
  }

  function FromBits(n: nat): Have {
    Have(n % 2 == 1, n / 2 % 2 == 1, n / 4 % 2 == 1, n / 8 % 2 == 1, n / 16 % 2 == 1)
  }

  /** The conversions `%o %u %u %u` of a record's line. */
  const RECORD: seq<Base> := [Octal, Decimal, Decimal, Decimal]

  /** Numbers, a space after each, and what follows them. */
  function Printed(ns: seq<u32>, format: seq<Base>, tail: string): string
    requires |ns| == |format|
  {
    if ns == [] then tail else Digits(ns[0], format[0]) + (" " + Printed(ns[1..], format[1..], tail))
  }

  function Numbers(r: MetaRecord): seq<u32> { [r.mode, r.uid, r.gid, Bits(r.have)] }

  /** What follows the four numbers: the link count, if there is one, and the path. */
  function Tail(p: string, r: MetaRecord): string {
    if r.have.nlink then Printed([r.nlink], [Decimal], p + "\n") else p + "\n"
  }

  function Render(c: Change): string {
    match c
    case Put(p, r) => Printed(Numbers(r), RECORD, Tail(p, r))
    case Gone(p) => Printed([0, 0, 0, 255], RECORD, p + "\n")
  }

  // sscanf's view of a line

  predicate IsSpace(c: char) { c == ' ' || '\t' <= c <= '\r' }

  function SkipSpace(s: string): string {
    if s != "" && IsSpace(s[0]) then SkipSpace(s[1..]) else s
  }

  datatype Scan = NoNumber | Number(value: u32, rest: string)

  /** `%u` or `%o`: leading space, then digits. */
  function ScanNumber(s: string, base: Base): Scan {
    var t := SkipSpace(s);
    var k := DigitRun(t, base);
    if k == 0 then NoNumber else Number(Value(t[..k], base) % WORD, t[k..])
  }

  datatype Scanned = Short | Took(numbers: seq<u32>, rest: string)

  /** sscanf with these conversions and a space after each: all of them, or too few. */
  function Scanf(s: string, format: seq<Base>): (r: Scanned)
    ensures r.Took? ==> |r.numbers| == |format|
    decreases |format|
  {
    if format == [] then Took([], SkipSpace(s)) else
      match ScanNumber(s, format[0])
      case NoNumber => Short
      case Number(n, rest) =>
      match Scanf(rest, format[1..])
      case Short => Short
      case Took(ns, left) => Took([n] + ns, left)
  }

  function Chomp(s: string): string {
    if s != "" && (s[|s| - 1] == '\n' || s[|s| - 1] == '\r') then Chomp(s[..|s| - 1]) else s
  }

  /** The change a line says; a line that does not parse says none. */
  function Parsed(line: string): Option<Change> {
    match Scanf(line, RECORD)
    case Short => None
    case Took(ns, s) => ParsedRest(ns[0], ns[1], ns[2], ns[3], s)
  }

  function ParsedRest(mode: u32, uid: u32, gid: u32, have: u32, s: string): Option<Change> {
    var h := FromBits(have);
    var link := if have != 255 && h.nlink then Scanf(s, [Decimal]) else Short;
    var path := Chomp(if link.Took? then link.rest else s);
    if path == "" then None
    else if have == 255 then Some(Gone(path))
    else Some(Put(path, MetaRecord(mode, uid, gid, if link.Took? then link.numbers[0] else 0, h)))
  }

  /** One line read back. */
  function ReadLine(t: Table, line: string): Table {
    match Parsed(line)
    case None => t
    case Some(c) => Apply(t, c)
  }

  lemma BitsRoundTrip(h: Have)
    ensures FromBits(Bits(h)) == h
  {
  }

  /** The journal's lines, letter by letter: the mode in octal, the owner, which fields count,
      then the link count if it does, and the path. */
  lemma SampleRecord(p: string)
    ensures Render(Put(p, MetaRecord(0x1a4, 7, 0, 0, Have(true, true, false, false, false)))) == "644 7 0 3 " + p + "\n"
  {
    SamplePrinted(0x1a4, 7, 0, 3, p + "\n");
    SampleDigits();
    assert "644" + (" " + ("7" + (" " + ("0" + (" " + ("3" + (" " + (p + "\n")))))))) == "644 7 0 3 " + p + "\n";
  }

  lemma SampleLinkCount(p: string)
    ensures Render(Put(p, MetaRecord(0, 0, 9, 2, Have(false, false, true, true, true)))) == "0 0 9 28 2 " + p + "\n"
  {
    var tail := Printed([2], [Decimal], p + "\n");
    SampleDigits();
    OnePrinted(2, p + "\n");
    SamplePrinted(0, 0, 9, 28, tail);
    assert "0" + (" " + ("0" + (" " + ("9" + (" " + ("28" + (" " + tail))))))) == "0 0 9 28 " + tail;
    assert "0 0 9 28 " + tail == "0 0 9 28 2 " + p + "\n";
  }

  lemma SampleTombstone(p: string)
    ensures Render(Gone(p)) == "0 0 0 255 " + p + "\n"
  {
    SamplePrinted(0, 0, 0, 255, p + "\n");
    SampleDigits();
    assert "0" + (" " + ("0" + (" " + ("0" + (" " + ("255" + (" " + (p + "\n")))))))) == "0 0 0 255 " + p + "\n";
  }

  /** kMode, kUid, kGid, kNlink, kFifo. */
  lemma BitOfEach()
    ensures Bits(Have(true, false, false, false, false)) == 1 && Bits(Have(false, true, false, false, false)) == 2
    ensures Bits(Have(false, false, true, false, false)) == 4 && Bits(Have(false, false, false, true, false)) == 8
    ensures Bits(Have(false, false, false, false, true)) == 16
  {
  }

  lemma SampleDigits()
    ensures Digits(0x1a4, Octal) == "644" && Digits(28, Decimal) == "28" && Digits(255, Decimal) == "255"
    ensures Digits(0, Octal) == Digits(0, Decimal) == "0" && Digits(2, Decimal) == "2" && Digits(9, Decimal) == "9"
    ensures Digits(3, Decimal) == "3" && Digits(7, Decimal) == "7"
  {
  }

  lemma OnePrinted(n: u32, tail: string)
    ensures Printed([n], [Decimal], tail) == Digits(n, Decimal) + (" " + tail)
  {
    NextPrinted(n, [], Decimal, [], tail);
  }

  lemma NextPrinted(n: u32, ns: seq<u32>, base: Base, format: seq<Base>, tail: string)
    requires |ns| == |format|
    ensures Printed([n] + ns, [base] + format, tail) == Digits(n, base) + (" " + Printed(ns, format, tail))
  {
    assert ([n] + ns)[1..] == ns && ([base] + format)[1..] == format;
  }

  lemma SamplePrinted(a: u32, b: u32, c: u32, d: u32, tail: string)
    ensures Printed([a, b, c, d], RECORD, tail) ==
      Digits(a, Octal) + (" " + (Digits(b, Decimal) + (" " + (Digits(c, Decimal) + (" " + (Digits(d, Decimal)
      + (" " + tail)))))))
  {
    var s := Digits(d, Decimal) + (" " + tail);
    var t := Digits(c, Decimal) + (" " + s);
    var u := Digits(b, Decimal) + (" " + t);
    assert Printed([d], [Decimal], tail) == s by { OnePrinted(d, tail); }
    assert Printed([c, d], [Decimal, Decimal], tail) == t by {
      NextPrinted(c, [d], Decimal, [Decimal], tail);
      assert [c] + [d] == [c, d] && [Decimal] + [Decimal] == [Decimal, Decimal];
    }
    assert Printed([b, c, d], [Decimal, Decimal, Decimal], tail) == u by {
      NextPrinted(b, [c, d], Decimal, [Decimal, Decimal], tail);
      assert [b] + [c, d] == [b, c, d] && [Decimal] + [Decimal, Decimal] == [Decimal, Decimal, Decimal];
    }
    NextPrinted(a, [b, c, d], Octal, [Decimal, Decimal, Decimal], tail);
    assert [a] + [b, c, d] == [a, b, c, d] && [Octal] + [Decimal, Decimal, Decimal] == RECORD;
  }

  lemma NumberScan(n: u32, base: Base, tail: string)
    requires tail == "" || !IsDigit(tail[0], base)
    ensures ScanNumber(Digits(n, base) + tail, base) == Number(n, tail)
  {
    ValueOfDigits(n, base);
    DigitsGive(Digits(n, base), n, base, tail);
  }

  lemma DigitsGive(d: string, n: u32, base: Base, tail: string)
    requires d != "" && AllDigits(d, base) && (tail == "" || !IsDigit(tail[0], base)) && Value(d, base) == n
    ensures ScanNumber(d + tail, base) == Number(n, tail)
  {
    DigitsScan(d, base, tail);
  }

  lemma DigitsScan(d: string, base: Base, tail: string)
    requires d != "" && AllDigits(d, base) && (tail == "" || !IsDigit(tail[0], base))
    ensures ScanNumber(d + tail, base) == Number(Value(d, base) % WORD, tail)
  {
    var s := d + tail;
    assert IsDigit(s[0], base);
    DigitRunIs(s, base, |d|);
    assert s[..|d|] == d && s[|d|..] == tail;
  }

  lemma SpaceSkipped(s: string, format: seq<Base>)
    ensures Scanf(" " + s, format) == Scanf(s, format)
  {
    assert (" " + s)[1..] == s;
  }

  lemma ScanfHead(s: string, format: seq<Base>, n: u32, rest: string)
    requires format != [] && ScanNumber(s, format[0]) == Number(n, " " + rest)
    ensures Scanf(s, format) ==
      match Scanf(rest, format[1..])
      case Short => Short
      case Took(ns, left) => Took([n] + ns, left)
  {
    SpaceSkipped(rest, format[1..]);
  }

  /** The conversions take exactly the numbers printed. */
  lemma {:induction false} ScanfPrinted(ns: seq<u32>, format: seq<Base>, tail: string)
    requires |ns| == |format|
    ensures Scanf(Printed(ns, format, tail), format) == Took(ns, SkipSpace(tail))
  {
    if ns != [] {
      var rest := Printed(ns[1..], format[1..], tail);
      ScanfPrinted(ns[1..], format[1..], tail);
      NumberScan(ns[0], format[0], " " + rest);
      ScanfHead(Printed(ns, format, tail), format, ns[0], rest);
      assert ns == [ns[0]] + ns[1..];
    }
  }

  lemma NoSpace(s: string)
    requires s == "" || !IsSpace(s[0])
    ensures SkipSpace(s) == s
  {
  }

  /** The paths a line can carry: absolute, without a newline, not ending in a
      carriage return (which the reader strips), and short enough for its buffer. */
  predicate Loggable(c: Change) {
    |Render(c)| <= LINE_MAX && Journable(c.path) && c.path[|c.path| - 1] != '\r'
    && (c.Put? && !c.rec.have.nlink ==> c.rec.nlink == 0)
  }

  /** The longest path whose line fits, whatever its record: 49 characters go to the rest. */
  const ROOM: nat := LINE_MAX - 49

  /** The paths the journal can be trusted with. */
  predicate Fit(p: string) { Journable(p) && p[|p| - 1] != '\r' && |p| <= ROOM }

  lemma FitIsLoggable(c: Change)
    requires Fit(c.path) && (c.Put? && !c.rec.have.nlink ==> c.rec.nlink == 0)
    ensures Loggable(c)
  {
    PrintedLength(c);
  }

  /** At most 49 characters besides the path. */
  lemma PrintedLength(c: Change)
    ensures |c.path| + 1 <= |Render(c)| <= |c.path| + 49
  {
    match c {
      case Put(p, r) =>
        NumberShort(r.nlink);
        LengthOfTail(p, r);
        NumberShort(r.mode);
        NumberShort(r.uid);
        NumberShort(r.gid);
        DigitsShort(Bits(r.have), Decimal, 2);
        LengthOfFour(r.mode, r.uid, r.gid, Bits(r.have), Tail(p, r));
      case Gone(p) =>
        LengthOfFour(0, 0, 0, 255, p + "\n");
        DigitsShort(255, Decimal, 3);
    }
  }

  lemma LengthOfTail(p: string, r: MetaRecord)
    ensures |Tail(p, r)| == |p| + 1 + if r.have.nlink then |Digits(r.nlink, Decimal)| + 1 else 0
  {
    OneMore(r.nlink, Decimal, [], [], p + "\n");
    assert [r.nlink] + [] == [r.nlink] && [Decimal] + [] == [Decimal];
  }

  lemma OneMore(n: u32, base: Base, ns: seq<u32>, format: seq<Base>, tail: string)
    requires |ns| == |format|
    ensures |Printed([n] + ns, [base] + format, tail)| == |Digits(n, base)| + 1 + |Printed(ns, format, tail)|
  {
    assert ([n] + ns)[1..] == ns && ([base] + format)[1..] == format;
  }

  lemma LengthOfFour(a: u32, b: u32, c: u32, d: u32, tail: string)
    ensures |Printed([a, b, c, d], RECORD, tail)| ==
      |Digits(a, Octal)| + |Digits(b, Decimal)| + |Digits(c, Decimal)| + |Digits(d, Decimal)| + 4 + |tail|
  {
    OneMore(d, Decimal, [], [], tail);
    OneMore(c, Decimal, [d], [Decimal], tail);
    OneMore(b, Decimal, [c, d], [Decimal, Decimal], tail);
    OneMore(a, Octal, [b, c, d], [Decimal, Decimal, Decimal], tail);
    assert [a, b, c, d] == [a] + [b, c, d] && RECORD == [Octal] + [Decimal, Decimal, Decimal];
    assert [b, c, d] == [b] + [c, d] && [Decimal, Decimal, Decimal] == [Decimal] + [Decimal, Decimal];
    assert [c, d] == [c] + [d] && [Decimal, Decimal] == [Decimal] + [Decimal];
  }

  lemma NumberShort(n: u32)
    ensures |Digits(n, Octal)| <= 11 && |Digits(n, Decimal)| <= 10
  {
    assert Limit(Octal, 11) == 0x2_0000_0000 && Limit(Decimal, 10) == 10_000_000_000;
    DigitsShort(n, Octal, 11);
    DigitsShort(n, Decimal, 10);
  }

  predicate Journable(p: string) { p != "" && p[0] == '/' && '\n' !in p }

  lemma ChompLine(p: string)
    requires p != "" && p[|p| - 1] != '\r' && p[|p| - 1] != '\n'
    ensures Chomp(p + "\n") == p
  {
    assert (p + "\n")[..|p|] == p;
  }

  /** What is read from a record's line whose end was `line`. */
  lemma PutParses(r: MetaRecord, line: string)
    requires line != "" && !IsSpace(line[0]) && (!r.have.nlink ==> r.nlink == 0)
    ensures var tail := if r.have.nlink then Printed([r.nlink], [Decimal], line) else line;
      Parsed(Printed(Numbers(r), RECORD, tail)) == if Chomp(line) == "" then None else Some(Put(Chomp(line), r))
  {
    var tail := if r.have.nlink then Printed([r.nlink], [Decimal], line) else line;
    assert SkipSpace(line) == line by { NoSpace(line); }
    FourParse(r, tail);
    if r.have.nlink { ScanfPrinted([r.nlink], [Decimal], line); }
    BitsRoundTrip(r.have);
  }

  lemma FourParse(r: MetaRecord, tail: string)
    requires tail != "" && !IsSpace(tail[0])
    ensures Parsed(Printed(Numbers(r), RECORD, tail)) == ParsedRest(r.mode, r.uid, r.gid, Bits(r.have), tail)
  {
    NoSpace(tail);
    ScanfPrinted(Numbers(r), RECORD, tail);
  }

  lemma GoneParses(line: string)
    requires line != "" && !IsSpace(line[0])
    ensures Parsed(Printed([0, 0, 0, 255], RECORD, line)) == if Chomp(line) == "" then None else Some(Gone(Chomp(line)))
  {
    assert SkipSpace(line) == line by { NoSpace(line); }
    ScanfPrinted([0, 0, 0, 255], RECORD, line);
  }

  /** A change at another path. */
  function Elsewhere(c: Change, p: string): Change { c.(path := p) }

  /** A line read back says its change, of the path without what the reader strips. */
  lemma LineParses(c: Change)
    requires Journable(c.path) && (c.Put? && !c.rec.have.nlink ==> c.rec.nlink == 0)
    ensures Parsed(Render(c)) == if Chomp(c.path + "\n") == "" then None else Some(Elsewhere(c, Chomp(c.path + "\n")))
  {
    match c {
      case Put(p, r) => PutParses(r, p + "\n");
      case Gone(p) => GoneParses(p + "\n");
    }
  }

  lemma ChangeReadsBack(c: Change)
    requires Loggable(c)
    ensures ReadsBack(Apply, Render, ReadLine, c)
  {
    ChompLine(c.path);
    assert IsLine(Render(c), LINE_MAX) by { RenderIsLine(c); }
    assert Parsed(Render(c)) == Some(c) by { LineParses(c); }
  }

  /** Nothing but the last character of a written line is a newline. */
  lemma RenderIsLine(c: Change)
    requires Loggable(c)
    ensures IsLine(Render(c), LINE_MAX)
  {
    match c {
      case Put(p, r) =>
        if r.have.nlink { PrintedIsTail([r.nlink], [Decimal], p + "\n"); }
        PrintedIsTail(Numbers(r), RECORD, Tail(p, r));
      case Gone(p) => PrintedIsTail([0, 0, 0, 255], RECORD, p + "\n");
    }
  }

  predicate IsTail(s: string) { IsLine(s, |s|) }

  lemma {:induction false} PrintedIsTail(ns: seq<u32>, format: seq<Base>, tail: string)
    requires |ns| == |format| && IsTail(tail)
    ensures IsTail(Printed(ns, format, tail))
  {
    if ns != [] {
      PrintedIsTail(ns[1..], format[1..], tail);
      TailGrows(" ", Printed(ns[1..], format[1..], tail));
      TailGrows(Digits(ns[0], format[0]), " " + Printed(ns[1..], format[1..], tail));
    }
  }

  lemma TailGrows(d: string, s: string)
    requires IsTail(s) && '\n' !in d
    ensures IsTail(d + s)
  {
  }

  // ----- a crash in the middle of a line ---------------------------------------------------

  /** How much of a change's line is before its path. */
  function Head(c: Change): int { |Render(c)| - |c.path| - 1 }

  /** What is left of the path in the first `k` characters. */
  function CutAt(c: Change, k: nat): string
    requires Head(c) < k < |Render(c)|
  {
    c.path[..k - Head(c)]
  }

  /** The path that is read from them. */
  function CutPath(c: Change, k: nat): string
    requires k < |Render(c)|
  {
    if k <= Head(c) then "" else Chomp(CutAt(c, k))
  }

  /** What those characters make of the table. */
  function Torn(t: Table, c: Change, k: nat): Table
    requires k < |Render(c)|
  {
    if k <= Head(c) then t else Apply(t, Elsewhere(c, CutPath(c, k)))
  }

  lemma CutAfter(d: string, rest: string, k: nat)
    requires k <= |d| + 1 + |rest|
    ensures (d + (" " + rest))[..k] == if k <= |d| then d[..k] else d + (" " + rest[..k - |d| - 1])
  {
  }

  lemma DigitsAlone(s: string, base: Base)
    requires AllDigits(s, base)
    ensures if s == "" then ScanNumber(s, base).NoNumber?
      else ScanNumber(s, base).Number? && ScanNumber(s, base).rest == ""
  {
    DigitRunIs(s, base, |s|);
  }

  /** Nothing follows the numbers, or there are too few of them. */
  predicate NothingLeft(s: string, format: seq<Base>) { Scanf(s, format).Took? ==> Scanf(s, format).rest == "" }

  lemma {:induction false} PrintedSum(ns: seq<u32>, format: seq<Base>, tail: string)
    requires |ns| == |format|
    ensures |Printed(ns, format, tail)| == |Printed(ns, format, "")| + |tail|
  {
    if ns != [] { PrintedSum(ns[1..], format[1..], tail); }
  }

  /** Cut among the numbers, nothing follows them. */
  lemma {:induction false} CutInNumbers(ns: seq<u32>, format: seq<Base>, tail: string, k: nat)
    requires |ns| == |format| && k <= |Printed(ns, format, "")|
    ensures k <= |Printed(ns, format, tail)| && NothingLeft(Printed(ns, format, tail)[..k], format)
  {
    PrintedSum(ns, format, tail);
    if ns != [] {
      var d, rest := Digits(ns[0], format[0]), Printed(ns[1..], format[1..], tail);
      CutAfter(d, rest, k);
      if k <= |d| {
        DigitsAlone(d[..k], format[0]);
        NothingAtAll(format[1..]);
      } else {
        var j := k - |d| - 1;
        CutInNumbers(ns[1..], format[1..], tail, j);
        NumberScan(ns[0], format[0], " " + rest[..j]);
        ScanfHead(d + (" " + rest[..j]), format, ns[0], rest[..j]);
      }
    }
  }

  lemma NothingAtAll(format: seq<Base>)
    ensures NothingLeft("", format)
  {
    if format != [] { DigitsAlone("", format[0]); }
  }

  /** Cut later, the numbers are whole. */
  lemma {:induction false} CutInTail(ns: seq<u32>, format: seq<Base>, tail: string, k: nat)
    requires |ns| == |format| && |Printed(ns, format, "")| <= k <= |Printed(ns, format, tail)|
    ensures var head := |Printed(ns, format, "")|;
      && |Printed(ns, format, tail)| == head + |tail|
      && Printed(ns, format, tail)[..k] == Printed(ns, format, tail[..k - head])
  {
    PrintedSum(ns, format, tail);
    if ns != [] {
      var d, rest := Digits(ns[0], format[0]), Printed(ns[1..], format[1..], tail);
      CutAfter(d, rest, k);
      CutInTail(ns[1..], format[1..], tail, k - |d| - 1);
    }
  }

  lemma NothingParsed(s: string)
    requires NothingLeft(s, RECORD)
    ensures Parsed(s).None?
  {
    DigitsAlone("", Decimal);
  }

  predicate Rooted(s: string) { s != "" && s[0] == '/' }

  lemma ChompKeepsRoot(s: string)
    requires Rooted(s)
    ensures Chomp(s) != "" && Chomp(s)[0] == '/' && |Chomp(s)| <= |s|
  {
  }

  /** The cut line of a change says nothing, or its change at the path that is left. */
  lemma CutParses(c: Change, k: nat)
    requires Journable(c.path) && (c.Put? && !c.rec.have.nlink ==> c.rec.nlink == 0) && k < |Render(c)|
    ensures Parsed(Render(c)[..k]) == if k <= Head(c) then None else Some(Elsewhere(c, CutPath(c, k)))
  {
    match c {
      case Put(p, r) => CutPutParses(p, r, k);
      case Gone(p) =>
        if k <= Head(c) { CutGoneEarly(p, k); } else { CutGoneLate(p, k); }
    }
  }

  lemma CutGoneEarly(p: string, k: nat)
    requires k <= Head(Gone(p))
    ensures Parsed(Render(Gone(p))[..k]) == None
  {
    PrintedSum([0, 0, 0, 255], RECORD, p + "\n");
    CutInNumbers([0, 0, 0, 255], RECORD, p + "\n", k);
    NothingParsed(Render(Gone(p))[..k]);
  }

  lemma CutGoneLate(p: string, k: nat)
    requires Journable(p) && Head(Gone(p)) < k < |Render(Gone(p))|
    ensures Parsed(Render(Gone(p))[..k]) == Some(Gone(CutPath(Gone(p), k)))
  {
    CutGoneLine(p, k);
    GoneParses(CutAt(Gone(p), k));
    ChompKeepsRoot(CutAt(Gone(p), k));
  }

  lemma CutGoneLine(p: string, k: nat)
    requires Journable(p) && Head(Gone(p)) < k < |Render(Gone(p))|
    ensures Rooted(CutAt(Gone(p), k))
    ensures Render(Gone(p))[..k] == Printed([0, 0, 0, 255], RECORD, CutAt(Gone(p), k))
  {
    PrintedSum([0, 0, 0, 255], RECORD, p + "\n");
    CutInTail([0, 0, 0, 255], RECORD, p + "\n", k);
    assert (p + "\n")[..k - Head(Gone(p))] == CutAt(Gone(p), k);
  }

  lemma CutPutParses(p: string, r: MetaRecord, k: nat)
    requires Journable(p) && (!r.have.nlink ==> r.nlink == 0) && k < |Render(Put(p, r))|
    ensures var c := Put(p, r);
      Parsed(Render(c)[..k]) == if k <= Head(c) then None else Some(Elsewhere(c, CutPath(c, k)))
  {
    var head := |Printed(Numbers(r), RECORD, "")|;
    if k <= head {
      CutEarly(p, r, k);
    } else if r.have.nlink {
      CutLinked(p, r, k, head);
    } else {
      CutPlain(p, r, k, head);
    }
  }

  lemma CutEarly(p: string, r: MetaRecord, k: nat)
    requires k <= |Printed(Numbers(r), RECORD, "")|
    ensures k < |Render(Put(p, r))| && k <= Head(Put(p, r)) && Parsed(Render(Put(p, r))[..k]) == None
  {
    PrintedSum(Numbers(r), RECORD, Tail(p, r));
    LengthOfTail(p, r);
    CutInNumbers(Numbers(r), RECORD, Tail(p, r), k);
    NothingParsed(Render(Put(p, r))[..k]);
  }

  lemma CutPlain(p: string, r: MetaRecord, k: nat, head: nat)
    requires Journable(p)
    requires !r.have.nlink && r.nlink == 0 && head == |Printed(Numbers(r), RECORD, "")| < k < |Render(Put(p, r))|
    ensures Head(Put(p, r)) == head && Parsed(Render(Put(p, r))[..k]) == Some(Put(CutPath(Put(p, r), k), r))
  {
    CutPlainLine(p, r, k, head);
    PutParses(r, CutAt(Put(p, r), k));
    ChompKeepsRoot(CutAt(Put(p, r), k));
  }

  lemma CutPlainLine(p: string, r: MetaRecord, k: nat, head: nat)
    requires Journable(p) && !r.have.nlink && head == |Printed(Numbers(r), RECORD, "")| < k < |Render(Put(p, r))|
    ensures Head(Put(p, r)) == head && Rooted(CutAt(Put(p, r), k))
    ensures Render(Put(p, r))[..k] == Printed(Numbers(r), RECORD, CutAt(Put(p, r), k))
  {
    CutInTail(Numbers(r), RECORD, Tail(p, r), k);
    assert Tail(p, r)[..k - head] == p[..k - head];
  }

  lemma CutLinked(p: string, r: MetaRecord, k: nat, head: nat)
    requires Journable(p) && r.have.nlink && head == |Printed(Numbers(r), RECORD, "")| < k < |Render(Put(p, r))|
    ensures Parsed(Render(Put(p, r))[..k]) == if k <= Head(Put(p, r)) then None else Some(Put(CutPath(Put(p, r), k), r))
  {
    CutInTail(Numbers(r), RECORD, Tail(p, r), k);
    var d, j := |Printed([r.nlink], [Decimal], "")|, k - head;
    PrintedSum([r.nlink], [Decimal], p + "\n");
    assert Head(Put(p, r)) == head + d;
    if j <= d {
      CutLink(p, r, j);
    } else {
      CutLinkedLine(p, r, k, head);
      PutParses(r, CutAt(Put(p, r), k));
      ChompKeepsRoot(CutAt(Put(p, r), k));
    }
  }

  lemma CutLinkedLine(p: string, r: MetaRecord, k: nat, head: nat)
    requires Journable(p) && r.have.nlink && head == |Printed(Numbers(r), RECORD, "")| && Head(Put(p, r)) < k
    requires k < |Render(Put(p, r))|
    ensures Rooted(CutAt(Put(p, r), k))
    ensures Render(Put(p, r))[..k] ==
      Printed(Numbers(r), RECORD, Printed([r.nlink], [Decimal], CutAt(Put(p, r), k)))
  {
    var d, j := |Printed([r.nlink], [Decimal], "")|, k - head;
    PrintedSum([r.nlink], [Decimal], p + "\n");
    PrintedSum(Numbers(r), RECORD, Tail(p, r));
    CutInTail(Numbers(r), RECORD, Tail(p, r), k);
    CutInTail([r.nlink], [Decimal], p + "\n", j);
    assert (p + "\n")[..j - d] == p[..j - d];
  }

  lemma CutLink(p: string, r: MetaRecord, j: nat)
    requires r.have.nlink && 0 < j <= |Printed([r.nlink], [Decimal], "")| && j <= |Tail(p, r)|
    ensures Parsed(Printed(Numbers(r), RECORD, Tail(p, r)[..j])) == None
  {
    var cut := Tail(p, r)[..j];
    CutInNumbers([r.nlink], [Decimal], p + "\n", j);
    FourParse(r, cut);
    BitsRoundTrip(r.have);
    LinkAlone(p, r, j);
  }

  /** A link count cut short is still a number. */
  lemma LinkAlone(p: string, r: MetaRecord, j: nat)
    requires r.have.nlink && 0 < j <= |Printed([r.nlink], [Decimal], "")| && j <= |Tail(p, r)|
    ensures Scanf(Tail(p, r)[..j], [Decimal]).Took?
  {
    var d := Digits(r.nlink, Decimal);
    CutAfter(d, p + "\n", j);
    assert [r.nlink][1..] == [] && [Decimal][1..] == [];
    if j <= |d| { DigitsAlone(d[..j], Decimal); } else { NumberScan(r.nlink, Decimal, " "); }
  }

  /** The change at another path would change nothing. */
  predicate Idle(t: Table, c: Change, p: string) {
    if c.Gone? || Redundant(c.rec) then p !in t else p in t && t[p] == c.rec
  }

  /** A TORN JOURNAL. The change whose line was cut is lost or made as if nothing had happened, if
      and only if the cut is before its path, or at the very end, or the path it is cut to
      already has what the change says. Nothing before it is lost. */
  lemma TornJournal(text: string, c: Change, k: nat)
    requires Complete(text) && Loggable(c) && k < |Render(c)|
    ensures var t := FoldLines(ReadLine, map[], text);
      FoldLines(ReadLine, map[], text + Render(c)[..k]) == Torn(t, c, k)
    ensures var t := FoldLines(ReadLine, map[], text);
      Torn(t, c, k) == t || Torn(t, c, k) == Apply(t, c) <==>
        k <= Head(c) || k == |Render(c)| - 1 || Idle(t, c, CutPath(c, k))
  {
    var t := FoldLines(ReadLine, map[], text);
    RenderIsLine(c);
    CutParses(c, k);
    PrintedLength(c);
    if k == 0 { assert text + Render(c)[..k] == text; } else { TornTail(ReadLine, map[], text, Render(c), k); }
    TornIs(t, c, k);
  }

  lemma TornIs(t: Table, c: Change, k: nat)
    requires Loggable(c) && k < |Render(c)|
    ensures Torn(t, c, k) == t || Torn(t, c, k) == Apply(t, c) <==>
      k <= Head(c) || k == |Render(c)| - 1 || Idle(t, c, CutPath(c, k))
  {
    if k == |Render(c)| - 1 {
      assert CutAt(c, k) == c.path;
      Unstripped(c.path);
    } else if k > Head(c) {
      ChompKeepsRoot(CutAt(c, k));
      assert |CutPath(c, k)| < |c.path|;
      IdleElsewhere(t, c, CutPath(c, k));
    }
  }

  lemma IdleElsewhere(t: Table, c: Change, p: string)
    requires p != c.path
    ensures var u := Apply(t, Elsewhere(c, p)); u == t || u == Apply(t, c) <==> Idle(t, c, p)
  {
  }

  lemma Unstripped(q: string)
    requires q != "" && q[|q| - 1] != '\n' && q[|q| - 1] != '\r'
    ensures Chomp(q) == q
  {
  }

  /** Cut in the middle of its path, a line says the same of whatever has the name that is left,
      a directory above it for one. */
  lemma TornLineGoesAstray(c: Change, k: nat, q: string)
    requires Journable(c.path) && (c.Put? && !c.rec.have.nlink ==> c.rec.nlink == 0)
    requires Head(c) < k < |Render(c)| - 1 && q == c.path[..k - Head(c)] && q[|q| - 1] != '\r'
    ensures Parsed(Render(c)[..k]) == Some(Elsewhere(c, q)) && q != c.path
  {
    CutParses(c, k);
    Unstripped(q);
  }

  /** Of the absolute paths that fit a line, exactly those that do not end in a
      carriage return come back from the journal under their own name. */
  lemma PathSurvivesIff(p: string, r: MetaRecord)
    requires Journable(p) && !Redundant(r) && (!r.have.nlink ==> r.nlink == 0) && |Render(Put(p, r))| <= LINE_MAX
    ensures (forall t :: ReadLine(t, Render(Put(p, r))) == t[p := r]) <==> p[|p| - 1] != '\r'
  {
    if p[|p| - 1] != '\r' {
      ChompLine(p);
      forall t ensures ReadLine(t, Render(Put(p, r))) == t[p := r] { LineParses(Put(p, r)); }
    } else {
      LineParses(Put(p, r));
      assert (p + "\n")[..|p|] == p;
      ChompShortens(p[..|p| - 1]);
      assert p !in ReadLine(map[], Render(Put(p, r)));
      assert ReadLine(map[], Render(Put(p, r))) != map[][p := r];
    }
  }

  lemma ChompShortens(s: string)
    ensures |Chomp(s)| <= |s|
  {
  }
}
