/** Lines and whole traces: what is printed, and what is read back. */
module TraceFormat {
  import opened Basics
  import opened Text
  import opened Observations
  import opened TraceText

  // ----- the name table ---------------------------------------------------------------

  /** The generated table: distinct identifiers, one per syscall. */
  predicate GoodNames(names: seq<string>) {
    && (forall i :: 0 <= i < |names| ==> Word(names[i]))
    && (forall i, j :: 0 <= i < j < |names| ==> names[i] != names[j])
  }

  /** The first syscall at or after `i` with this name. */
  function SysnoFrom(names: seq<string>, n: string, i: nat): (r: Option<Sysno>)
    ensures r.Some? ==> r.value < |names|
    decreases |names| - i
  {
    if i >= |names| then None else if names[i] == n then Some(i) else SysnoFrom(names, n, i + 1)
  }

  lemma {:induction false} SysnoFound(names: seq<string>, c: nat, i: nat)
    requires GoodNames(names) && i <= c < |names|
    ensures SysnoFrom(names, names[c], i) == Some(c)
    decreases c - i
  {
    if i < c { SysnoFound(names, c, i + 1); }
  }

  // ----- rendering -----------------------------------------------------------------------

  function BufferText(w: Buffer): string { "@" + (IntText(w.arg) + (":" + HexText(w.bytes))) }

  function BuffersText(ws: seq<Buffer>): string {
    if ws == [] then "" else " " + (BufferText(ws[0]) + BuffersText(ws[1..]))
  }

  function BodyText(names: seq<string>, o: Observation): string
    requires o.call < |names|
  {
    Separated(names[o.call], '=', Describe(o.returned) + BuffersText(o.wrote))
  }

  function LineText(names: seq<string>, o: Observation): string
    requires o.call < |names|
  {
    if o.note == "" then BodyText(names, o) else Separated(BodyText(names, o), '|', o.note)
  }

  predicate InTable(names: seq<string>, steps: seq<Observation>) {
    forall i :: 0 <= i < |steps| ==> steps[i].call < |names|
  }

  function StepsText(names: seq<string>, steps: seq<Observation>): string
    requires InTable(names, steps)
  {
    if steps == [] then "" else LineText(names, steps[0]) + "\n" + StepsText(names, steps[1..])
  }

  datatype Headers = Headers(arch: string, provenance: string, kernel: string)

  function HeaderLine(key: string, value: string): string {
    if value == "" then "" else "# " + key + ": " + value + "\n"
  }

  function OptionalHeaders(h: Headers): string {
    HeaderLine("arch", h.arch) + (HeaderLine("recorded-by", h.provenance) + (HeaderLine("kernel", h.kernel) + ""))
  }

  function HeaderText(scenario: string, h: Headers): string {
    "# linuxity conformance trace" + "\n" + ("# scenario: " + scenario + "\n" + OptionalHeaders(h))
  }

  function TraceTextOf(names: seq<string>, t: Trace, h: Headers): string
    requires InTable(names, t.steps)
  {
    HeaderText(t.scenario, h) + StepsText(names, t.steps)
  }

  // ----- parsing ----------------------------------------------------------------------------

  datatype Reason = ExpectedNameValue | UnknownSyscall(name: string) | BufferNeedsArg | BadBufferArg
                  | OddHex | NonHexDigit | BadValue(value: string)
  datatype ParseError = ParseError(line: nat, reason: Reason)

  /** find_first_of(" \t@"). */
  function FirstStop(s: string): (i: nat)
    ensures i <= |s|
    ensures (i < |s| ==> IsPad(s[i]) || s[i] == '@') && forall j :: 0 <= j < i ==> !IsPad(s[j]) && s[j] != '@'
  {
    if s == "" || IsPad(s[0]) || s[0] == '@' then 0 else 1 + FirstStop(s[1..])
  }

  /** A written buffer's argument and hex digits, and what comes after them. */
  datatype Split = NoColon | Split(arg: string, hex: string, rest: string)

  function SplitBuffer(s: string): (r: Split)
    ensures r.Split? ==> |r.rest| <= |s|
  {
    var colon := IndexOf(s, ':');
    if colon == |s| then NoColon else
      var h := s[colon + 1..];
      var end := FirstStop(h);
      Split(s[..colon], h[..end], Trim(h[end..]))
  }

  function ReadBuffer(arg: string, hex: string): Result<Buffer, Reason> {
    match ParseInt(arg)
    case None => Failure(BadBufferArg)
    case Some(n) =>
      if |hex| % 2 != 0 then Failure(OddHex) else
        match ParseHex(hex)
        case None => Failure(NonHexDigit)
        case Some(bytes) => Success(Buffer(Wrap32(n), bytes))
  }

  function ParseBuffers(bufs: string): Result<seq<Buffer>, Reason>
    decreases |bufs|
  {
    if bufs == "" || bufs[0] != '@' then Success([]) else
      match SplitBuffer(bufs[1..])
      case NoColon => Failure(BufferNeedsArg)
      case Split(arg, hex, rest) =>
        match ReadBuffer(arg, hex)
        case Failure(e) => Failure(e)
        case Success(w) =>
          match ParseBuffers(rest)
          case Failure(e) => Failure(e)
          case Success(ws) => Success([w] + ws)
  }

  function BodyOf(line: string): string {
    var bar := IndexOf(line, '|');
    if bar < |line| then Trim(line[..bar]) else line
  }

  function NoteOf(line: string): string {
    var bar := IndexOf(line, '|');
    if bar < |line| then Trim(line[bar + 1..]) else ""
  }

  /** One trimmed line that is neither empty nor a comment. */
  function ParseObservation(names: seq<string>, line: string): (r: Result<Observation, Reason>)
    ensures r.Success? ==> r.value.call < |names| && r.value.note == NoteOf(line)
  {
    ParseBody(names, BodyOf(line), NoteOf(line))
  }

  function ParseBody(names: seq<string>, body: string, note: string): (r: Result<Observation, Reason>)
    ensures r.Success? ==> r.value.call < |names| && r.value.note == note
  {
    var cut := CutOf(body);
    if cut.None? then Failure(ExpectedNameValue) else ParseNamed(names, cut.value.0, cut.value.1, note)
  }

  /** The name before the first equals sign and the tail behind it. */
  function CutOf(body: string): Option<(string, string)> {
    var eq := IndexOf(body, '=');
    if eq == |body| then None else Some((Trim(body[..eq]), Trim(body[eq + 1..])))
  }

  function ParseNamed(names: seq<string>, name: string, tail: string, note: string): (r: Result<Observation, Reason>)
    ensures r.Success? ==> r.value.call < |names| && r.value.note == note
  {
    var call := SysnoFrom(names, name, 0);
    if call.None? then Failure(UnknownSyscall(name)) else ParseTail(call.value, tail, note)
  }

  /** The value runs to the first buffer, if there is one. */
  function ParseTail(call: Sysno, tail: string, note: string): (r: Result<Observation, Reason>)
    ensures r.Success? ==> r.value.call == call && r.value.note == note
  {
    var at := IndexOf(tail, '@');
    match ParseBuffers(tail[at..])
    case Failure(e) => Failure(e)
    case Success(wrote) =>
      var value := if at < |tail| then Trim(tail[..at]) else tail;
      match ParseReturned(value)
      case None => Failure(BadValue(value))
      case Some(ret) => Success(Observation(call, ret, wrote, note))
  }

  predicate Ignored(line: string) { line == "" || line[0] == '#' }

  /** What one raw line contributes. */
  datatype Line = Skip | Bad(reason: Reason) | Good(step: Observation)

  function ReadRaw(names: seq<string>, raw: string): Line {
    Graded(Trim(raw), ParseObservation(names, Trim(raw)))
  }

  function Graded(line: string, r: Result<Observation, Reason>): Line {
    if Ignored(line) then Skip else
      match r
      case Failure(e) => Bad(e)
      case Success(o) => Good(o)
  }

  function Reader(names: seq<string>): string -> Line { raw => ReadRaw(names, raw) }

  /** The steps in `text`, whose first line has number `n`. */
  function ParseLines(read: string -> Line, text: string, n: nat): Result<seq<Observation>, ParseError>
    decreases |text|
  {
    if text == "" then Success([]) else
      var nl := IndexOf(text, '\n');
      Contribute(read(text[..nl]), n, ParseLines(read, if nl < |text| then text[nl + 1..] else "", n + 1))
  }

  function Contribute(line: Line, n: nat, rest: Result<seq<Observation>,
                      ParseError>): Result<seq<Observation>, ParseError> {
    match line
    case Skip => rest
    case Bad(e) => Failure(ParseError(n, e))
    case Good(o) => match rest { case Failure(e) => Failure(e) case Success(os) => Success([o] + os) }
  }

  function ParseTraceOf(names: seq<string>, text: string, scenario: string): Result<Trace, ParseError> {
    match ParseLines(Reader(names), text, 1)
    case Failure(e) => Failure(e)
    case Success(steps) => Success(Trace(scenario, steps))
  }

  // ----- one line ------------------------------------------------------------------------------

  lemma FirstStopIs(s: string, i: nat)
    requires i <= |s|
    requires (i < |s| ==> IsPad(s[i]) || s[i] == '@') && forall j :: 0 <= j < i ==> !IsPad(s[j]) && s[j] != '@'
    ensures FirstStop(s) == i
  {
  }

  /** Text that can stand before a note: no bar, no newline, and nothing to trim. */
  predicate Solid(s: string) {
    s != "" && !IsPad(s[0]) && !IsEndPad(s[|s| - 1]) && forall i :: 0 <= i < |s| ==> s[i] != '|' && s[i] != '\n'
  }

  lemma WordIsSolid(s: string)
    requires Word(s)
    ensures Solid(s) && Tight(s) && '@' !in s && '=' !in s && ':' !in s
  {
  }

  lemma HexStops(h: string, more: string)
    requires (forall i :: 0 <= i < |h| ==> IsWordChar(h[i])) && (more == "" || more[0] == ' ')
    ensures FirstStop(h + more) == |h| && (h + more)[..|h|] == h && (h + more)[|h|..] == more
  {
    FirstStopIs(h + more, |h|);
  }

  lemma ArgStops(a: string, tail: string)
    requires Word(a)
    ensures IndexOf(a + (":" + tail), ':') == |a|
    ensures (a + (":" + tail))[..|a|] == a && (a + (":" + tail))[|a| + 1..] == tail
  {
    WordIsSolid(a);
    CutAt(a, ':', tail);
    IndexOfIs(a + (":" + tail), ':', |a|);
  }

  lemma CutAt(a: string, c: char, tail: string)
    ensures var s := a + ([c] + tail);
      s[..|a|] == a && s[|a|] == c && s[|a| + 1..] == tail && forall j :: 0 <= j < |a| ==> s[j] == a[j]
  {
  }

  lemma BufferSplits(a: string, h: string, more: string)
    requires Word(a) && (forall i :: 0 <= i < |h| ==> IsWordChar(h[i])) && (more == "" || more[0] == ' ')
    ensures SplitBuffer(a + (":" + (h + more))) == Split(a, h, Trim(more))
  {
    ArgStops(a, h + more);
    HexStops(h, more);
    SplitIs(a + (":" + (h + more)), a, h + more, h, more);
  }

  lemma SplitIs(s: string, a: string, t: string, h: string, more: string)
    requires IndexOf(s, ':') == |a| < |s| && s[..|a|] == a && s[|a| + 1..] == t
    requires FirstStop(t) == |h| <= |t| && t[..|h|] == h && t[|h|..] == more
    ensures SplitBuffer(s) == Split(a, h, Trim(more))
  {
  }

  lemma BufferReads(w: Buffer)
    ensures Word(IntText(w.arg)) && (forall i :: 0 <= i < |HexText(w.bytes)| ==> IsWordChar(HexText(w.bytes)[i]))
    ensures ReadBuffer(IntText(w.arg), HexText(w.bytes)) == Success(w)
  {
    IntRoundTrip(w.arg);
    HexRoundTrip(w.bytes);
    ReadBufferIs(IntText(w.arg), HexText(w.bytes), w);
  }

  lemma ReadBufferIs(a: string, h: string, w: Buffer)
    requires ParseInt(a) == Some(w.arg) && |h| % 2 == 0 && ParseHex(h) == Some(w.bytes)
    ensures ReadBuffer(a, h) == Success(w)
  {
    Wrap32Fits(w.arg);
  }

  lemma Wrap32Fits(v: i32)
    ensures Wrap32(v) == v
  {
  }

  lemma BufferIsSolid(a: string, h: string)
    requires Word(a) && forall i :: 0 <= i < |h| ==> IsWordChar(h[i])
    ensures Solid("@" + (a + (":" + h)))
  {
  }

  lemma SolidJoin(a: string, b: string)
    requires Solid(a) && (b == "" || (b[0] == ' ' && Solid(b[1..])))
    ensures Solid(a + b)
  {
    assert b != "" ==> (a + b)[|a + b| - 1] == b[1..][|b| - 2];
    forall i | 0 <= i < |a + b| ensures (a + b)[i] != '|' && (a + b)[i] != '\n' {
      if i > |a| { assert (a + b)[i] == b[1..][i - |a| - 1]; }
    }
  }

  /** Buffers stand in a line after a space. */
  predicate Stands(text: string) { text == "" || (|text| > 1 && text[0] == ' ' && text[1] == '@' && Solid(text[1..])) }

  function Behind(text: string): string { if text == "" then "" else text[1..] }

  lemma TrimStanding(text: string)
    requires Stands(text)
    ensures Trim(text) == Behind(text)
  {
    if text == "" { TrimTight(""); } else { TrimSpaced(text); }
  }

  lemma OneMoreStands(a: string, h: string, more: string)
    requires Word(a) && (forall i :: 0 <= i < |h| ==> IsWordChar(h[i])) && Stands(more)
    ensures Stands(" " + ("@" + (a + (":" + h)) + more))
  {
    var body := "@" + (a + (":" + h)) + more;
    BufferIsSolid(a, h);
    SolidJoin("@" + (a + (":" + h)), more);
    AfterFirst(' ', body);
  }

  lemma OneMoreBuffer(a: string, h: string, w: Buffer, more: string, ws: seq<Buffer>)
    requires Word(a) && (forall i :: 0 <= i < |h| ==> IsWordChar(h[i])) && ReadBuffer(a, h) == Success(w)
    requires Stands(more) && ParseBuffers(Behind(more)) == Success(ws)
    ensures ParseBuffers("@" + (a + (":" + h)) + more) == Success([w] + ws)
  {
    var bufs := "@" + (a + (":" + h)) + more;
    assert SplitBuffer(bufs[1..]) == Split(a, h, Trim(more)) by { AfterAt(a, h, more); BufferSplits(a, h, more); }
    TrimStanding(more);
    ParseOne(bufs, a, h, Behind(more), w, ws);
  }

  lemma ParseOne(bufs: string, arg: string, hex: string, rest: string, w: Buffer, ws: seq<Buffer>)
    requires bufs != "" && bufs[0] == '@' && SplitBuffer(bufs[1..]) == Split(arg, hex, rest)
    requires ReadBuffer(arg, hex) == Success(w) && ParseBuffers(rest) == Success(ws)
    ensures ParseBuffers(bufs) == Success([w] + ws)
  {
  }

  lemma AfterAt(a: string, h: string, more: string)
    ensures ("@" + (a + (":" + h)) + more)[1..] == a + (":" + (h + more))
  {
  }

  lemma AfterFirst(c: char, s: string)
    ensures ([c] + s)[1..] == s && ([c] + s)[0] == c
  {
  }

  lemma FirstAndRest<T>(s: seq<T>)
    requires s != []
    ensures [s[0]] + s[1..] == s
  {
  }

  lemma {:induction false} BuffersRoundTrip(ws: seq<Buffer>)
    ensures Stands(BuffersText(ws)) && (BuffersText(ws) == "" <==> ws == [])
    ensures ParseBuffers(Behind(BuffersText(ws))) == Success(ws)
  {
    if ws != [] {
      var a, h, more := IntText(ws[0].arg), HexText(ws[0].bytes), BuffersText(ws[1..]);
      BuffersRoundTrip(ws[1..]);
      BufferReads(ws[0]);
      OneMoreStands(a, h, more);
      OneMoreBuffer(a, h, ws[0], more, ws[1..]);
      AfterFirst(' ', "@" + (a + (":" + h)) + more);
      FirstAndRest(ws);
    }
  }

  /** A separator with a space on either side, as `name = value` and `body | note`. */
  function Separated(left: string, c: char, right: string): string { left + " " + ([c, ' '] + right) }

  lemma Halves(left: string, c: char, right: string)
    ensures var s := Separated(left, c, right);
      && s[..|left| + 1] == left + " " && s[|left| + 1] == c && s[|left| + 2..] == " " + right
      && |s| == |left| + 3 + |right|
  {
  }

  lemma SeparatorFound(left: string, c: char, right: string)
    requires c !in left && c != ' '
    ensures IndexOf(Separated(left, c, right), c) == |left| + 1
  {
    var s := Separated(left, c, right);
    forall j | 0 <= j < |left| + 1 ensures s[j] != c { assert j < |left| ==> s[j] == left[j] && left[j] in left; }
    IndexOfIs(s, c, |left| + 1);
  }

  lemma SeparatedSplits(left: string, c: char, right: string)
    requires Tight(left) && Tight(right) && c !in left && c != ' '
    ensures var s := Separated(left, c, right);
      IndexOf(s, c) == |left| + 1 < |s| && Trim(s[..|left| + 1]) == left && Trim(s[|left| + 2..]) == right
  {
    SeparatorFound(left, c, right);
    Halves(left, c, right);
    TrimTight(left);
    TrimTight(right);
  }

  lemma SeparatedEnds(left: string, c: char, right: string)
    requires left != "" && !IsPad(left[0]) && right != "" && !IsEndPad(right[|right| - 1])
    ensures Tight(Separated(left, c, right)) && Separated(left, c, right)[0] == left[0]
  {
  }

  lemma SeparatedAvoids(left: string, c: char, right: string, x: char)
    requires x !in left && x != ' ' && x != c && x !in right
    ensures x !in Separated(left, c, right)
  {
  }

  lemma TailSplits(d: string, w: string)
    requires Word(d) && Stands(w)
    ensures var tail := d + w; var at := IndexOf(tail, '@');
      && Solid(tail) && tail[at..] == Behind(w)
      && (if at < |tail| then Trim(tail[..at]) else tail) == d
  {
    var tail := d + w;
    WordIsSolid(d);
    SolidJoin(d, w);
    if w == "" {
      assert tail == d;
      IndexOfIs(tail, '@', |d|);
    } else {
      IndexOfIs(tail, '@', |d| + 1);
      assert tail[..|d| + 1] == d + " ";
      TrimTight(d);
      assert tail[|d| + 1..] == w[1..];
    }
  }

  lemma TailReads(c: Sysno, d: string, r: Returned, w: string, ws: seq<Buffer>, note: string)
    requires Word(d) && ParseReturned(d) == Some(r) && Stands(w) && ParseBuffers(Behind(w)) == Success(ws)
    ensures Solid(d + w) && ParseTail(c, d + w, note) == Success(Observation(c, r, ws, note))
  {
    TailSplits(d, w);
  }

  lemma BodyReads(names: seq<string>, n: string, c: Sysno, tail: string, note: string)
    requires Word(n) && SysnoFrom(names, n, 0) == Some(c) && Solid(tail)
    ensures ParseBody(names, Separated(n, '=', tail), note) == ParseTail(c, tail, note)
  {
    WordIsSolid(n);
    SeparatedSplits(n, '=', tail);
  }

  lemma BodyIsSolid(n: string, tail: string)
    requires Word(n) && Solid(tail)
    ensures Solid(Separated(n, '=', tail)) && Separated(n, '=', tail)[0] == n[0]
  {
    SeparatedEnds(n, '=', tail);
    SeparatedAvoids(n, '=', tail, '|');
    SeparatedAvoids(n, '=', tail, '\n');
  }

  /** What a line can carry: a call of the table, and a note of one line, trimmed. */
  predicate Clean(names: seq<string>, o: Observation) {
    o.call < |names| && '\n' !in o.note && Tight(o.note)
  }

  predicate AllClean(names: seq<string>, steps: seq<Observation>) {
    forall i :: 0 <= i < |steps| ==> Clean(names, steps[i])
  }

  /** A line reads back as the observation it was printed from. */
  lemma LineRoundTrip(names: seq<string>, o: Observation)
    requires GoodNames(names) && Clean(names, o)
    ensures var line := LineText(names, o);
      && '\n' !in line && Tight(line) && !Ignored(line)
      && ParseObservation(names, line) == Success(o)
  {
    var body := BodyText(names, o);
    BodyRoundTrip(names, o);
    if o.note == "" {
      BodyAlone(names, body, o);
    } else {
      BodyWithNote(names, body, o);
    }
  }

  lemma BodyWithNote(names: seq<string>, body: string, o: Observation)
    requires Solid(body)
    requires ParseBody(names, body, o.note) == Success(o) && o.note != "" && Tight(o.note) && '\n' !in o.note
    ensures var line := Separated(body, '|', o.note);
      '\n' !in line && Tight(line) && line[0] == body[0] && ParseObservation(names, line) == Success(o)
  {
    assert '|' !in body && '\n' !in body && Tight(body);
    SeparatedSplits(body, '|', o.note);
    SeparatedEnds(body, '|', o.note);
    SeparatedAvoids(body, '|', o.note, '\n');
  }

  lemma BodyRoundTrip(names: seq<string>, o: Observation)
    requires GoodNames(names) && o.call < |names|
    ensures Solid(BodyText(names, o)) && !Ignored(BodyText(names, o))
    ensures ParseBody(names, BodyText(names, o), o.note) == Success(o)
  {
    var n, d, w := names[o.call], Describe(o.returned), BuffersText(o.wrote);
    SysnoFound(names, o.call, 0);
    ReturnedRoundTrip(o.returned);
    BuffersRoundTrip(o.wrote);
    TailReads(o.call, d, o.returned, w, o.wrote, o.note);
    BodyReads(names, n, o.call, d + w, o.note);
    BodyIsSolid(n, d + w);
  }

  lemma BodyAlone(names: seq<string>, body: string, o: Observation)
    requires Solid(body) && ParseBody(names, body, "") == Success(o)
    ensures '\n' !in body && Tight(body) && ParseObservation(names, body) == Success(o)
  {
    IndexOfIs(body, '|', |body|);
  }

  lemma RawRoundTrip(names: seq<string>, o: Observation)
    requires GoodNames(names) && Clean(names, o)
    ensures '\n' !in LineText(names, o) && ReadRaw(names, LineText(names, o)) == Good(o)
  {
    LineRoundTrip(names, o);
    TrimTight(LineText(names, o));
  }

  /** Whatever a line is read as is fit to be printed. */
  lemma RawIsClean(names: seq<string>, raw: string)
    requires '\n' !in raw
    ensures ReadRaw(names, raw).Good? ==> Clean(names, ReadRaw(names, raw).step)
  {
    TrimAddsNothing(raw, '\n');
    ObservationIsClean(names, Trim(raw));
    GradedIsClean(names, Trim(raw), ParseObservation(names, Trim(raw)));
  }

  lemma GradedIsClean(names: seq<string>, line: string, r: Result<Observation, Reason>)
    requires r.Success? ==> Clean(names, r.value)
    ensures Graded(line, r).Good? ==> Clean(names, Graded(line, r).step)
  {
  }

  lemma ObservationIsClean(names: seq<string>, line: string)
    requires '\n' !in line
    ensures ParseObservation(names, line).Success? ==> Clean(names, ParseObservation(names, line).value)
  {
    NoteIsClean(line);
  }

  lemma NoteIsClean(line: string)
    requires '\n' !in line
    ensures '\n' !in NoteOf(line) && Tight(NoteOf(line))
  {
    var bar := IndexOf(line, '|');
    if bar < |line| {
      TrimAddsNothing(line[bar + 1..], '\n');
      TrimIsTight(line[bar + 1..]);
    }
  }

  // ----- whole traces ------------------------------------------------------------------------

  lemma ParseFirst(read: string -> Line, line: string, rest: string, n: nat)
    requires '\n' !in line
    ensures ParseLines(read, line + "\n" + rest, n) == Contribute(read(line), n, ParseLines(read, rest, n + 1))
  {
    var text := line + "\n" + rest;
    IndexOfIs(text, '\n', |line|);
    assert text[..|line|] == line && text[|line| + 1..] == rest;
  }

  lemma {:induction false} StepsReadBack(names: seq<string>, read: string -> Line, steps: seq<Observation>, n: nat)
    requires InTable(names, steps)
    requires forall i :: 0 <= i < |steps| ==>
      '\n' !in LineText(names, steps[i]) && read(LineText(names, steps[i])) == Good(steps[i])
    ensures ParseLines(read, StepsText(names, steps), n) == Success(steps)
  {
    if steps != [] {
      StepsReadBack(names, read, steps[1..], n + 1);
      ParseFirst(read, LineText(names, steps[0]), StepsText(names, steps[1..]), n);
      FirstAndRest(steps);
    }
  }

  lemma StepsRoundTrip(names: seq<string>, steps: seq<Observation>, n: nat)
    requires GoodNames(names) && AllClean(names, steps)
    ensures ParseLines(Reader(names), StepsText(names, steps), n) == Success(steps)
  {
    var read := Reader(names);
    forall i | 0 <= i < |steps|
      ensures '\n' !in LineText(names, steps[i]) && read(LineText(names, steps[i])) == Good(steps[i])
    {
      RawRoundTrip(names, steps[i]);
    }
    StepsReadBack(names, read, steps, n);
  }

  function Join(a: Result<seq<Observation>, ParseError>, b: Result<seq<Observation>,
                ParseError>): Result<seq<Observation>, ParseError> {
    match a
    case Failure(e) => Failure(e)
    case Success(xs) => match b { case Failure(e) => Failure(e) case Success(ys) => Success(xs + ys) }
  }

  lemma ContributeJoins(line: Line, n: nat, a: Result<seq<Observation>, ParseError>, b: Result<seq<Observation>,
                        ParseError>)
    ensures Contribute(line, n, Join(a, b)) == Join(Contribute(line, n, a), b)
  {
    if line.Good? && a.Success? && b.Success? {
      assert [line.step] + (a.value + b.value) == [line.step] + a.value + b.value;
    }
  }

  /** The number of the line after `text`, if its first line has number `n`. */
  function LineAfter(text: string, n: nat): nat
    decreases |text|
  {
    var nl := IndexOf(text, '\n');
    if nl == |text| then n else LineAfter(text[nl + 1..], n + 1)
  }

  /** A complete text starts with a line and goes on with a complete text. */
  lemma FirstOfComplete(text: string) returns (line: string, rest: string)
    requires Complete(text) && text != ""
    ensures '\n' !in line && text == line + "\n" + rest && Complete(rest) && |rest| < |text|
    ensures forall n: nat :: LineAfter(text, n) == LineAfter(rest, n + 1)
  {
    var nl := IndexOf(text, '\n');
    assert text[|text| - 1] == '\n';
    line, rest := text[..nl], text[nl + 1..];
  }

  /** Complete lines in front are parsed on their own. */
  lemma {:induction false} ParseAppend(read: string -> Line, head: string, body: string, n: nat)
    requires Complete(head)
    ensures ParseLines(read, head + body, n) ==
      Join(ParseLines(read, head, n), ParseLines(read, body, LineAfter(head, n)))
    decreases |head|
  {
    if head == "" {
      assert head + body == body;
      JoinEmpty(ParseLines(read, body, n));
    } else {
      var line, rest := FirstOfComplete(head);
      ParseAppend(read, rest, body, n + 1);
      Reassociate(line, rest, body);
      AppendLine(read, line, rest, body, n, LineAfter(head, n));
    }
  }

  lemma AppendLine(read: string -> Line, line: string, rest: string, body: string, n: nat, after: nat)
    requires '\n' !in line
    requires ParseLines(read, rest + body, n + 1) == Join(ParseLines(read, rest, n + 1), ParseLines(read, body, after))
    ensures ParseLines(read, line + "\n" + (rest + body), n) ==
      Join(ParseLines(read, line + "\n" + rest, n), ParseLines(read, body, after))
  {
    ParseFirst(read, line, rest, n);
    ParseFirst(read, line, rest + body, n);
    ContributeJoins(read(line), n, ParseLines(read, rest, n + 1), ParseLines(read, body, after));
  }

  lemma JoinEmpty(b: Result<seq<Observation>, ParseError>)
    ensures Join(Success([]), b) == b
  {
    if b.Success? { assert [] + b.value == b.value; }
  }

  lemma Reassociate(line: string, rest: string, body: string)
    ensures line + "\n" + (rest + body) == line + "\n" + rest + body
  {
  }

  /** Every line is empty or a comment. */
  predicate Inert(text: string)
    decreases |text|
  {
    text == "" ||
    var nl := IndexOf(text, '\n');
    Ignored(Trim(text[..nl])) && Inert(if nl < |text| then text[nl + 1..] else "")
  }

  lemma {:induction false} InertIffNoSteps(read: string -> Line, text: string, n: nat)
    requires forall raw :: read(raw).Skip? <==> Ignored(Trim(raw))
    ensures Inert(text) <==> ParseLines(read, text, n) == Success([])
    decreases |text|
  {
    if text != "" {
      var nl := IndexOf(text, '\n');
      var more := if nl < |text| then text[nl + 1..] else "";
      assert read(text[..nl]).Skip? <==> Ignored(Trim(text[..nl]));
      InertIffNoSteps(read, more, n + 1);
      NothingContributes(read(text[..nl]), n, ParseLines(read, more, n + 1));
    }
  }

  lemma NothingContributes(line: Line, n: nat, rest: Result<seq<Observation>, ParseError>)
    ensures Contribute(line, n, rest) == Success([]) <==> line.Skip? && rest == Success([])
  {
  }

  lemma {:induction false} ParsedIsClean(names: seq<string>, read: string -> Line, text: string, n: nat)
    requires forall raw :: '\n' !in raw && read(raw).Good? ==> Clean(names, read(raw).step)
    ensures ParseLines(read, text, n).Success? ==> AllClean(names, ParseLines(read, text, n).value)
    decreases |text|
  {
    if text != "" {
      var nl := IndexOf(text, '\n');
      var raw := text[..nl];
      assert '\n' !in raw;
      var more := if nl < |text| then text[nl + 1..] else "";
      assert read(raw).Good? ==> Clean(names, read(raw).step);
      ParsedIsClean(names, read, more, n + 1);
      ContributesClean(names, read(raw), n, ParseLines(read, more, n + 1));
    }
  }

  lemma ContributesClean(names: seq<string>, line: Line, n: nat, rest: Result<seq<Observation>, ParseError>)
    requires (line.Good? ==> Clean(names, line.step)) && (rest.Success? ==> AllClean(names, rest.value))
    ensures Contribute(line, n, rest).Success? ==> AllClean(names, Contribute(line, n, rest).value)
  {
  }

  /** Whatever the parser accepts is fit to be printed. */
  lemma AcceptedIsClean(names: seq<string>, text: string, n: nat)
    requires ParseLines(Reader(names), text, n).Success?
    ensures AllClean(names, ParseLines(Reader(names), text, n).value)
  {
    forall raw | '\n' !in raw && Reader(names)(raw).Good?
      ensures Clean(names, Reader(names)(raw).step)
    {
      RawIsClean(names, raw);
    }
    ParsedIsClean(names, Reader(names), text, n);
  }

  lemma HeaderIsComplete(scenario: string, h: Headers)
    ensures Complete(HeaderText(scenario, h))
  {
  }

  /** THE ROUND TRIP. Printing a trace and parsing the text gives that very trace exactly
      when its notes are single trimmed lines and the header lines stay comments. */
  lemma RoundTrip(names: seq<string>, t: Trace, h: Headers)
    requires GoodNames(names) && InTable(names, t.steps)
    ensures ParseTraceOf(names, TraceTextOf(names, t, h), t.scenario) == Success(t)
      <==> AllClean(names, t.steps) && Inert(HeaderText(t.scenario, h))
  {
    var head, body := HeaderText(t.scenario, h), StepsText(names, t.steps);
    HeaderIsComplete(t.scenario, h);
    if AllClean(names, t.steps) {
      StepsRoundTrip(names, t.steps, LineAfter(head, 1));
      InertDecides(Reader(names), head, body, t.steps);
    } else if ParseLines(Reader(names), head + body, 1).Success? {
      AcceptedIsClean(names, head + body, 1);
    }
  }

  lemma InertDecides(read: string -> Line, head: string, body: string, steps: seq<Observation>)
    requires Complete(head) && (forall raw :: read(raw).Skip? <==> Ignored(Trim(raw)))
    requires ParseLines(read, body, LineAfter(head, 1)) == Success(steps)
    ensures ParseLines(read, head + body, 1) == Success(steps) <==> Inert(head)
  {
    ParseAppend(read, head, body, 1);
    InertIffNoSteps(read, head, 1);
    NothingInFront(ParseLines(read, head, 1), steps);
  }

  lemma NothingInFront(a: Result<seq<Observation>, ParseError>, steps: seq<Observation>)
    ensures Join(a, Success(steps)) == Success(steps) <==> a == Success([])
  {
    if a.Success? { assert |a.value + steps| == |a.value| + |steps|; }
    assert [] + steps == steps;
  }

  /** Any text the parser accepts, printed again, parses to the same trace. */
  lemma ReprintStable(names: seq<string>, text: string, scenario: string, h: Headers)
    requires GoodNames(names) && Inert(HeaderText(scenario, h))
    ensures var r := ParseTraceOf(names, text, scenario);
      r.Success? ==> InTable(names, r.value.steps) && ParseTraceOf(names, TraceTextOf(names, r.value, h), scenario) == r
  {
    var r := ParseTraceOf(names, text, scenario);
    if r.Success? {
      AcceptedIsClean(names, text, 1);
      RoundTrip(names, r.value, h);
    }
  }

  /** A header that is no comment: a scenario name of two lines, the second a step's. Such a
      trace does not come back, whatever its steps. */
  lemma HeaderTurnsIntoStep(names: seq<string>, o: Observation, name: string, steps: seq<Observation>, h: Headers)
    requires GoodNames(names) && Clean(names, o) && InTable(names, steps) && '\n' !in name
    ensures var t := Trace(name + ("\n" + LineText(names, o)), steps);
      ParseTraceOf(names, TraceTextOf(names, t, h), t.scenario) != Success(t)
  {
    RawRoundTrip(names, o);
    LineIsNoComment(names, o);
    HeaderNotInert(name, LineText(names, o), h);
    RoundTrip(names, Trace(name + ("\n" + LineText(names, o)), steps), h);
  }

  lemma HeaderNotInert(name: string, line: string, h: Headers)
    requires '\n' !in name && '\n' !in line && !Ignored(Trim(line))
    ensures !Inert(HeaderText(name + ("\n" + line), h))
  {
    TwoLineName(name, line, OptionalHeaders(h));
    ThirdLineCounts("# linuxity conformance trace", "# scenario: " + name, line, OptionalHeaders(h));
  }

  lemma ThirdLineCounts(a: string, b: string, line: string, rest: string)
    requires '\n' !in a && '\n' !in b && '\n' !in line && !Ignored(Trim(line))
    ensures !Inert(a + "\n" + (b + "\n" + (line + "\n" + rest)))
  {
    InertFirst(line, rest);
    InertFirst(b, line + "\n" + rest);
    InertFirst(a, b + "\n" + (line + "\n" + rest));
  }

  lemma LineIsNoComment(names: seq<string>, o: Observation)
    requires GoodNames(names) && Clean(names, o)
    ensures !Ignored(Trim(LineText(names, o)))
  {
    LineRoundTrip(names, o);
    TrimTight(LineText(names, o));
  }

  lemma TwoLineName(name: string, line: string, rest: string)
    ensures "# scenario: " + (name + ("\n" + line)) + "\n" + rest == "# scenario: " + name + "\n" + (line + "\n" + rest)
  {
  }

  lemma InertFirst(line: string, rest: string)
    requires '\n' !in line
    ensures Inert(line + "\n" + rest) <==> Ignored(Trim(line)) && Inert(rest)
  {
    var text := line + "\n" + rest;
    IndexOfIs(text, '\n', |line|);
    assert text[..|line|] == line && text[|line| + 1..] == rest;
  }

  // ----- headers ---------------------------------------------------------------------------------

  lemma CommentStays(line: string)
    requires line != "" && line[0] == '#'
    ensures Ignored(Trim(line))
  {
    assert Lead(line, 0) == 0;
  }

  lemma CommentThenInert(line: string, rest: string)
    requires line != "" && line[0] == '#' && '\n' !in line && Inert(rest)
    ensures Inert(line + "\n" + rest)
  {
    var text := line + "\n" + rest;
    IndexOfIs(text, '\n', |line|);
    assert text[..|line|] == line && text[|line| + 1..] == rest;
    CommentStays(line);
  }

  lemma HeaderLineInert(key: string, value: string, rest: string)
    requires '\n' !in key && '\n' !in value && Inert(rest)
    ensures Inert(HeaderLine(key, value) + rest)
  {
    if value == "" {
      assert "" + rest == rest;
    } else {
      CommentThenInert("# " + key + ": " + value, rest);
    }
  }

  lemma OptionalHeadersAreInert(h: Headers)
    requires '\n' !in h.arch && '\n' !in h.provenance && '\n' !in h.kernel
    ensures Inert(OptionalHeaders(h))
  {
    HeaderLineInert("kernel", h.kernel, "");
    HeaderLineInert("recorded-by", h.provenance, HeaderLine("kernel", h.kernel) + "");
    HeaderLineInert("arch", h.arch, HeaderLine("recorded-by", h.provenance) + (HeaderLine("kernel", h.kernel) + ""));
  }

  /** Headers without newlines are comments. */
  lemma OneLineHeadersAreInert(scenario: string, h: Headers)
    requires '\n' !in scenario && '\n' !in h.arch && '\n' !in h.provenance && '\n' !in h.kernel
    ensures Inert(HeaderText(scenario, h))
  {
    OptionalHeadersAreInert(h);
    ScenarioLineInert(scenario, OptionalHeaders(h));
    TitleLineInert("# scenario: " + scenario + "\n" + OptionalHeaders(h));
  }

  lemma ScenarioLineInert(scenario: string, rest: string)
    requires '\n' !in scenario && Inert(rest)
    ensures Inert("# scenario: " + scenario + "\n" + rest)
  {
    var line := "# scenario: " + scenario;
    assert line[0] == '#' && '\n' !in line;
    CommentThenInert(line, rest);
  }

  lemma TitleLineInert(rest: string)
    requires Inert(rest)
    ensures Inert("# linuxity conformance trace" + "\n" + rest)
  {
    var line := "# linuxity conformance trace";
    assert line[0] == '#' && '\n' !in line;
    CommentThenInert(line, rest);
  }
  // ----- what else is read, and what is not ------------------------------------------------------

  predicate Pads(s: string) { forall i :: 0 <= i < |s| ==> IsPad(s[i]) }

  predicate EndPads(s: string) { forall i :: 0 <= i < |s| ==> IsEndPad(s[i]) }

  /** Padding around a line, a carriage return at its end included, does not matter. */
  lemma PaddedLineReads(names: seq<string>, o: Observation, a: string, b: string)
    requires GoodNames(names) && Clean(names, o) && Pads(a) && EndPads(b)
    ensures ReadRaw(names, a + LineText(names, o) + b) == Good(o)
  {
    var line := LineText(names, o);
    LineRoundTrip(names, o);
    TrimIs(a + line + b, |a|, |a| + |line|);
    assert (a + line + b)[|a|..|a| + |line|] == line;
  }

  /** Nor does how much of it, or whether there is any, beside the equals sign. */
  lemma LooseLineReads(names: seq<string>, c: Sysno, r: Returned, a: string, b: string, note: string)
    requires GoodNames(names) && c < |names| && Pads(a) && Pads(b)
    ensures ParseBody(names, names[c] + a + ("=" + (b + Describe(r))), note) == Success(Observation(c, r, [], note))
  {
    var n, d := names[c], Describe(r);
    ReturnedRoundTrip(r);
    WordIsSolid(n);
    WordIsSolid(d);
    SysnoFound(names, c, 0);
    LooseCut(n, d, a, b);
    IndexOfIs(d, '@', |d|);
    assert d[|d|..] == "";
  }

  lemma LooseCut(n: string, d: string, a: string, b: string)
    requires Word(n) && Word(d) && Pads(a) && Pads(b)
    ensures CutOf(n + a + ("=" + (b + d))) == Some((n, d))
  {
    CutAtEquals(n + a, b + d);
    PadsBehind(n, a);
    PadsBefore(b, d);
  }

  lemma PadsBehind(n: string, a: string)
    requires Word(n) && Pads(a)
    ensures Trim(n + a) == n
  {
    TrimIs(n + a, 0, |n|);
  }

  lemma PadsBefore(b: string, d: string)
    requires Word(d) && Pads(b)
    ensures Trim(b + d) == d
  {
    TrimIs(b + d, |b|, |b| + |d|);
  }

  lemma CutAtEquals(left: string, right: string)
    requires '=' !in left
    ensures CutOf(left + ("=" + right)) == Some((Trim(left), Trim(right)))
  {
    CutAt(left, '=', right);
    IndexOfIs(left + ("=" + right), '=', |left|);
  }

  /** A line is missing its value just when it has no equals sign before its note. */
  lemma NoEqualsIff(names: seq<string>, line: string)
    requires '|' !in line
    ensures ParseObservation(names, line) == Failure(ExpectedNameValue) <==> '=' !in line
  {
    IndexOfIs(line, '|', |line|);
    if '=' !in line { IndexOfIs(line, '=', |line|); } else { EqualsFound(names, line); }
  }

  lemma EqualsFound(names: seq<string>, line: string)
    requires '=' in line
    ensures ParseBody(names, line, "") != Failure(ExpectedNameValue)
  {
    var cut := CutOf(line);
    var at := IndexOf(cut.value.1, '@');
    BuffersHaveOwnReasons(cut.value.1[at..]);
  }

  lemma {:induction false} BuffersHaveOwnReasons(bufs: string)
    ensures ParseBuffers(bufs) != Failure(ExpectedNameValue)
    decreases |bufs|
  {
    if bufs != "" && bufs[0] == '@' {
      var p := SplitBuffer(bufs[1..]);
      if p.Split? { BuffersHaveOwnReasons(p.rest); }
    }
  }

  /** A name the table does not have is named in the reason. */
  lemma UnknownNameReads(names: seq<string>, n: string, tail: string, note: string)
    requires Word(n) && n !in names
    ensures ParseBody(names, n + ("=" + tail), note) == Failure(UnknownSyscall(n))
  {
    WordIsSolid(n);
    CutAt(n, '=', tail);
    IndexOfIs(n + ("=" + tail), '=', |n|);
    TrimTight(n);
    NotFound(names, n, 0);
  }

  lemma {:induction false} NotFound(names: seq<string>, n: string, i: nat)
    requires i <= |names| && n !in names
    ensures SysnoFrom(names, n, i).None?
    decreases |names| - i
  {
    if i < |names| { NotFound(names, n, i + 1); }
  }

  /** A buffer is refused for what it lacks: a colon, a number before it, or behind it hex digits
      in pairs. */
  lemma BufferWithoutColon(s: string)
    requires ':' !in s
    ensures ParseBuffers("@" + s) == Failure(BufferNeedsArg)
  {
    assert ("@" + s)[1..] == s;
    IndexOfIs(s, ':', |s|);
  }

  lemma BufferRefused(arg: string, hex: string)
    requires ':' !in arg && forall i :: 0 <= i < |hex| ==> !IsPad(hex[i]) && hex[i] != '@'
    ensures var r := ParseBuffers("@" + (arg + (":" + hex)));
      if ParseInt(arg).None? then r == Failure(BadBufferArg)
      else if |hex| % 2 == 1 then r == Failure(OddHex)
      else r == Failure(NonHexDigit) <==> exists i :: 0 <= i < |hex| && HexVal(hex[i]) < 0
  {
    BufferAlone(arg, hex);
    assert ParseBuffers("") == Success([]);
    if |hex| % 2 == 0 { HexRefused(hex); }
  }

  lemma BufferAlone(arg: string, hex: string)
    requires ':' !in arg && forall i :: 0 <= i < |hex| ==> !IsPad(hex[i]) && hex[i] != '@'
    ensures var s := arg + (":" + hex); ("@" + s)[1..] == s && SplitBuffer(s) == Split(arg, hex, "")
  {
    var s := arg + (":" + hex);
    IndexOfIs(s, ':', |arg|);
    assert s[|arg| + 1..] == hex && s[..|arg|] == arg;
    assert FirstStop(hex) == |hex| && hex[..|hex|] == hex && hex[|hex|..] == "";
    assert Trim("") == "";
  }

  lemma {:induction false} HexRefused(s: string)
    requires |s| % 2 == 0
    ensures ParseHex(s).None? <==> exists i :: 0 <= i < |s| && HexVal(s[i]) < 0
  {
    if s != "" {
      HexRefused(s[2..]);
      assert forall i :: 2 <= i < |s| ==> s[i] == s[2..][i - 2];
    }
  }

  /** What is past the newline at `nl`. */
  function Beyond(text: string, nl: nat): (r: string)
    requires nl <= |text|
    ensures text != "" ==> |r| < |text|
  {
    if nl < |text| then text[nl + 1..] else ""
  }

  /** The raw lines of a text. */
  function Lines(text: string): seq<string>
    decreases |text|
  {
    if text == "" then [] else
      var nl := IndexOf(text, '\n');
      [text[..nl]] + Lines(Beyond(text, nl))
  }

  function Unlines(lines: seq<string>): string { if lines == [] then "" else lines[0] + "\n" + Unlines(lines[1..]) }

  /** The text with its last newline, which the last line may do without. */
  function Ended(text: string): string {
    if text == "" || text[|text| - 1] == '\n' then text else text + "\n"
  }

  /** No line holds a newline, and with one behind each they are the text again. */
  lemma {:induction false} LinesAreTheText(text: string)
    ensures (forall k :: 0 <= k < |Lines(text)| ==> '\n' !in Lines(text)[k]) && Unlines(Lines(text)) == Ended(text)
    decreases |text|
  {
    if text != "" {
      var nl := IndexOf(text, '\n');
      var rest := Beyond(text, nl);
      LinesAreTheText(rest);
      UnlinesMore(text[..nl], Lines(rest));
      EndedMore(text, nl);
    }
  }

  lemma UnlinesMore(line: string, lines: seq<string>)
    ensures Unlines([line] + lines) == line + "\n" + Unlines(lines)
  {
    assert ([line] + lines)[1..] == lines;
  }

  lemma EndedMore(text: string, nl: nat)
    requires text != "" && nl <= |text| && (if nl < |text| then text[nl] == '\n' else '\n' !in text)
    ensures text[..nl] + "\n" + Ended(Beyond(text, nl)) == Ended(text)
  {
  }

  /** The lines were refused for the first bad one, by number and reason, or there is none. */
  ghost predicate Judged(read: string -> Line, lines: seq<string>, n: nat, r: Result<seq<Observation>, ParseError>) {
    match r
    case Success(_) => forall k :: 0 <= k < |lines| ==> !read(lines[k]).Bad?
    case Failure(e) => var k := e.line - n;
      0 <= k < |lines| && read(lines[k]) == Bad(e.reason) && forall j :: 0 <= j < k ==> !read(lines[j]).Bad?
  }

  lemma {:induction false} FirstBadLine(read: string -> Line, text: string, n: nat)
    ensures Judged(read, Lines(text), n, ParseLines(read, text, n))
    decreases |text|
  {
    if text != "" {
      var nl := IndexOf(text, '\n');
      var rest := Beyond(text, nl);
      FirstBadLine(read, rest, n + 1);
      OneLineMore(read, text[..nl], Lines(rest), n, ParseLines(read, rest, n + 1));
    }
  }

  lemma OneLineMore(read: string -> Line, line: string, lines: seq<string>, n: nat,
                    r: Result<seq<Observation>, ParseError>)
    requires Judged(read, lines, n + 1, r)
    ensures Judged(read, [line] + lines, n, Contribute(read(line), n, r))
  {
  }

  /** What lines look like: a value, a named errno with a note, a value with a buffer. */
  lemma SampleValue(names: seq<string>, c: Sysno)
    requires c < |names| && names[c] == "openat"
    ensures LineText(names, Observation(c, Ok(3), [], "")) == "openat = 3"
  {
    assert BuffersText([]) == "" && Describe(Ok(3)) == "3";
    assert "3" + "" == "3";
  }

  lemma SampleHeader(s: string)
    ensures HeaderText(s, Headers("", "", "")) == "# linuxity conformance trace\n# scenario: " + s + "\n"
  {
    assert OptionalHeaders(Headers("", "", "")) == "";
  }

  lemma SampleHeaderLines(v: string)
    requires v != ""
    ensures OptionalHeaders(Headers(v, "", "")) == "# arch: " + v + "\n"
    ensures OptionalHeaders(Headers("", v, "")) == "# recorded-by: " + v + "\n"
    ensures OptionalHeaders(Headers("", "", v)) == "# kernel: " + v + "\n"
  {
    SampleHeaderLine("arch", v);
    SampleHeaderLine("recorded-by", v);
    SampleHeaderLine("kernel", v);
  }

  lemma SampleHeaderLine(key: string, v: string)
    requires v != ""
    ensures HeaderLine(key, v) + "" == "# " + key + ": " + v + "\n"
  {
  }

  lemma SampleErrno(names: seq<string>, c: Sysno)
    requires c < |names| && names[c] == "openat"
    ensures LineText(names, Observation(c, Err(2), [], "gone")) == "openat = -ENOENT | gone"
  {
    assert BuffersText([]) == "" && Describe(Err(2)) == "-ENOENT";
    assert "-ENOENT" + "" == "-ENOENT";
    assert BodyText(names, Observation(c, Err(2), [], "gone")) == "openat = -ENOENT";
  }

  lemma SampleBuffer(names: seq<string>, c: Sysno)
    requires c < |names| && names[c] == "read"
    ensures LineText(names, Observation(c, Ok(1), [Buffer(1, [0x61])], "")) == "read = 1 @1:61"
  {
    SampleReturns();
    OneBuffer();
    LineOf(names, Observation(c, Ok(1), [Buffer(1, [0x61])], ""));
  }

  lemma LineOf(names: seq<string>, o: Observation)
    requires o.call < |names| && names[o.call] == "read" && o.note == ""
    requires Describe(o.returned) == "1" && BuffersText(o.wrote) == " @1:61"
    ensures LineText(names, o) == "read = 1 @1:61"
  {
    assert "1" + " @1:61" == "1 @1:61";
  }

  lemma SampleReturns()
    ensures Describe(Ok(1)) == "1" && Describe(Ok(-5)) == "-5" && Describe(Err(7)) == "-errno(7)"
  {
  }

  lemma OneBuffer()
    ensures BuffersText([Buffer(1, [0x61])]) == " @1:61"
  {
    var w := Buffer(1, [0x61]);
    assert HexText([0x61]) == "61" by { assert [0x61][1..] == []; }
    assert BufferText(w) == "@1:61" by { assert IntText(1) == "1"; }
    assert [w][1..] == [] && BuffersText([]) == "";
  }
}
