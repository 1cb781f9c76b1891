/** The printer and the parser as the loops they are, against the functions above. */
module TraceLoops {
  import opened Basics
  import opened Text
  import opened Observations
  import opened TraceText
  import opened TraceFormat

  method TrimLoop(s: string) returns (r: string)
    ensures r == Trim(s)
  {
    var a, b := 0, |s|;
    while a < b && IsPad(s[a])
      invariant a <= b == |s| && forall j :: 0 <= j < a ==> IsPad(s[j])
    {
      a := a + 1;
    }
    while a < b && IsEndPad(s[b - 1])
      invariant a <= b <= |s| && forall j :: b <= j < |s| ==> IsEndPad(s[j])
    {
      b := b - 1;
    }
    TrimIs(s, a, b);
    return s[a..b];
  }

  /** The errno that goes by a name: the only number with that name, or none when no
      number below 200 has it. */
  method FindErrno(n: string) returns (e: Option<i32>)
    ensures e.Some? ==> 1 <= e.value < 200 && n != "" && forall k :: ErrnoName(k) == n <==> k == e.value
    ensures e.None? ==> n == "" || forall k :: 1 <= k < 200 ==> ErrnoName(k) != n
    ensures e == ErrnoFrom(n, 1)
  {
    var k: nat := 1;
    while k < 200
      invariant 1 <= k <= 200 && ErrnoFrom(n, k) == ErrnoFrom(n, 1)
      invariant forall j :: 1 <= j < k ==> ErrnoName(j) == "" || ErrnoName(j) != n
    {
      if ErrnoName(k) != "" && ErrnoName(k) == n {
        forall j | ErrnoName(j) == n ensures j == k { ErrnoNamesDistinct(j, k); }
        return Some(k);
      }
      k := k + 1;
    }
    return None;
  }

  /** The first call of a name, or none when no call has it. */
  method FindSysno(names: seq<string>, n: string) returns (c: Option<Sysno>)
    ensures c.Some? ==> c.value < |names| && names[c.value] == n && n !in names[..c.value]
    ensures c.None? ==> n !in names
    ensures c == SysnoFrom(names, n, 0)
  {
    var i := 0;
    while i < |names|
      invariant i <= |names| && SysnoFrom(names, n, i) == SysnoFrom(names, n, 0) && n !in names[..i]
    {
      if names[i] == n { return Some(i); }
      assert names[..i + 1] == names[..i] + [names[i]];
      i := i + 1;
    }
    assert names[..i] == names;
    return None;
  }

  method RenderBuffer(w: Buffer) returns (s: string)
    ensures s == BufferText(w)
  {
    s := "@" + (IntText(w.arg) + ":");
    Reassoc("@" + IntText(w.arg), ":", HexText(w.bytes));
    var i := 0;
    while i < |w.bytes|
      invariant 0 <= i <= |w.bytes| && s + HexText(w.bytes[i..]) == BufferText(w)
    {
      var b := w.bytes[i];
      HexStep(w.bytes, i);
      Reassoc(s, [HexChar(b / 16), HexChar(b % 16)], HexText(w.bytes[i + 1..]));
      s := s + [HexChar(b / 16), HexChar(b % 16)];
      i := i + 1;
    }
    assert HexText(w.bytes[i..]) == "";
  }

  lemma Reassoc(a: string, b: string, c: string)
    ensures a + (b + c) == a + b + c
  {
  }

  lemma HexStep(bytes: seq<byte>, i: nat)
    requires i < |bytes|
    ensures HexText(bytes[i..]) == [HexChar(bytes[i] / 16), HexChar(bytes[i] % 16)] + HexText(bytes[i + 1..])
  {
    assert bytes[i..][1..] == bytes[i + 1..];
  }

  method RenderLine(names: seq<string>, o: Observation) returns (s: string)
    requires o.call < |names|
    ensures s == LineText(names, o)
  {
    var tail := Describe(o.returned);
    var i := 0;
    while i < |o.wrote|
      invariant 0 <= i <= |o.wrote| && tail + BuffersText(o.wrote[i..]) == Describe(o.returned) + BuffersText(o.wrote)
    {
      var w := RenderBuffer(o.wrote[i]);
      BuffersStep(o.wrote, i);
      Reassoc(tail, " " + w, BuffersText(o.wrote[i + 1..]));
      tail := tail + (" " + w);
      i := i + 1;
    }
    assert BuffersText(o.wrote[i..]) == "" && tail + "" == tail;
    s := Separated(names[o.call], '=', tail);
    if o.note != "" { s := Separated(s, '|', o.note); }
  }

  lemma BuffersStep(ws: seq<Buffer>, i: nat)
    requires i < |ws|
    ensures BuffersText(ws[i..]) == " " + BufferText(ws[i]) + BuffersText(ws[i + 1..])
  {
    assert ws[i..][1..] == ws[i + 1..];
    Reassoc(" ", BufferText(ws[i]), BuffersText(ws[i + 1..]));
  }

  /** render_trace: the header, then one line per step. */
  method RenderTrace(names: seq<string>, t: Trace, h: Headers) returns (s: string)
    requires InTable(names, t.steps)
    ensures s == TraceTextOf(names, t, h)
  {
    s := HeaderText(t.scenario, h);
    var i := 0;
    while i < |t.steps|
      invariant 0 <= i <= |t.steps| && s + StepsText(names, t.steps[i..]) == TraceTextOf(names, t, h)
    {
      var line := RenderLine(names, t.steps[i]);
      assert t.steps[i..][1..] == t.steps[i + 1..];
      Reassoc(s, line + "\n", StepsText(names, t.steps[i + 1..]));
      s := s + (line + "\n");
      i := i + 1;
    }
    assert StepsText(names, t.steps[i..]) == "" && s + "" == s;
  }

  method ParseBuffersLoop(text: string) returns (r: Result<seq<Buffer>, Reason>)
    ensures r == ParseBuffers(text)
  {
    var bufs, wrote := text, [];
    AfterNone(ParseBuffers(text));
    while bufs != "" && bufs[0] == '@'
      invariant AfterThose(wrote, ParseBuffers(bufs)) == ParseBuffers(text)
      decreases |bufs|
    {
      var split := SplitBuffer(bufs[1..]);
      if split.NoColon? { return Failure(BufferNeedsArg); }
      var w := ReadBuffer(split.arg, split.hex);
      if w.Failure? { return Failure(w.error); }
      AfterOne(wrote, w.value, ParseBuffers(split.rest));
      wrote, bufs := wrote + [w.value], split.rest;
    }
    assert wrote + [] == wrote;
    return Success(wrote);
  }

  function AfterThose(xs: seq<Buffer>, r: Result<seq<Buffer>, Reason>): Result<seq<Buffer>, Reason> {
    match r case Failure(e) => Failure(e) case Success(ys) => Success(xs + ys)
  }

  lemma AfterNone(r: Result<seq<Buffer>, Reason>)
    ensures AfterThose([], r) == r
  {
    if r.Success? { assert [] + r.value == r.value; }
  }

  lemma AfterOne(xs: seq<Buffer>, w: Buffer, r: Result<seq<Buffer>, Reason>)
    ensures AfterThose(xs + [w], r) == AfterThose(xs, AfterThose([w], r))
  {
    if r.Success? { assert xs + [w] + r.value == xs + ([w] + r.value); }
  }

  method ReadReturned(v: string) returns (r: Option<Returned>)
    ensures r == ParseReturned(v)
  {
    if v == "" { return None; }
    if v[0] == '-' {
      if IsNumericErrno(v[1..]) {
        var n := ParseInt(v[1..][6..|v| - 2]);
        return if n.None? then None else Some(Err(Wrap32(n.value)));
      }
      var e := FindErrno(v[1..]);
      if e.Some? { return Some(Err(e.value)); }
    }
    var n := ParseInt(v);
    return if n.None? then None else Some(Ok(n.value));
  }

  method ReadTail(call: Sysno, tail: string, note: string) returns (r: Result<Observation, Reason>)
    ensures r == ParseTail(call, tail, note)
  {
    var at := IndexOf(tail, '@');
    var wrote := ParseBuffersLoop(tail[at..]);
    if wrote.Failure? { return Failure(wrote.error); }
    var value := tail;
    if at < |tail| { value := TrimLoop(tail[..at]); }
    var ret := ReadReturned(value);
    if ret.None? { return Failure(BadValue(value)); }
    return Success(Observation(call, ret.value, wrote.value, note));
  }

  method ReadBody(names: seq<string>, body: string, note: string) returns (r: Result<Observation, Reason>)
    ensures r == ParseBody(names, body, note)
  {
    var cut := CutBody(body);
    if cut.None? { return Failure(ExpectedNameValue); }
    r := ReadNamed(names, cut.value.0, cut.value.1, note);
  }

  method CutBody(body: string) returns (cut: Option<(string, string)>)
    ensures cut == CutOf(body)
  {
    var eq := IndexOf(body, '=');
    if eq == |body| { return None; }
    var name := TrimLoop(body[..eq]);
    var tail := TrimLoop(body[eq + 1..]);
    return Some((name, tail));
  }

  method ReadNamed(names: seq<string>, name: string, tail: string, note: string)
      returns (r: Result<Observation, Reason>)
    ensures r == ParseNamed(names, name, tail, note)
  {
    var call := FindSysno(names, name);
    if call.None? { return Failure(UnknownSyscall(name)); }
    r := ReadTail(call.value, tail, note);
  }

  /** One raw line: nothing when it is empty or a comment, else a step or why not. */
  method ReadLine(names: seq<string>, raw: string) returns (line: Line)
    ensures line == ReadRaw(names, raw)
  {
    var s := TrimLoop(raw);
    line := GradeLine(names, s);
  }

  method GradeLine(names: seq<string>, s: string) returns (line: Line)
    ensures line == Graded(s, ParseObservation(names, s))
  {
    if Ignored(s) { return Skip; }
    var body, note := SplitNote(s);
    var o := ReadBody(names, body, note);
    return GradeOf(o);
  }

  function GradeOf(o: Result<Observation, Reason>): Line {
    match o case Failure(e) => Bad(e) case Success(o) => Good(o)
  }

  method SplitNote(s: string) returns (body: string, note: string)
    ensures body == BodyOf(s) && note == NoteOf(s)
  {
    var bar := IndexOf(s, '|');
    if bar == |s| { return s, ""; }
    note := TrimLoop(s[bar + 1..]);
    body := TrimLoop(s[..bar]);
  }

  method ReadFor(names: seq<string>, ghost read: string -> Line, raw: string) returns (line: Line)
    requires Reads(names, read)
    ensures line == read(raw)
  {
    line := ReadLine(names, raw);
  }

  ghost predicate Reads(names: seq<string>, read: string -> Line) {
    forall raw {:trigger ReadRaw(names, raw)} :: read(raw) == ReadRaw(names, raw)
  }

  /** parse_trace: line by line, stopping at the first that does not parse. */
  method ParseTrace(names: seq<string>, text: string, scenario: string) returns (r: Result<Trace, ParseError>)
    ensures r == ParseTraceOf(names, text, scenario)
    ensures Judged(Reader(names), Lines(text), 1, if r.Failure? then Failure(r.error) else Success(r.value.steps))
  {
    FirstBadLine(Reader(names), text, 1);
    var steps := ParseLoop(names, Reader(names), text);
    r := match steps { case Failure(e) => Failure(e) case Success(os) => Success(Trace(scenario, os)) };
  }

  method ParseLoop(names: seq<string>, ghost read: string -> Line, text: string)
      returns (r: Result<seq<Observation>, ParseError>)
    requires Reads(names, read)
    ensures r == ParseLines(read, text, 1)
  {
    var rest, steps, n: nat := text, [], 1;
    JoinEmpty(ParseLines(read, text, 1));
    while rest != ""
      invariant Join(Success(steps), ParseLines(read, rest, n)) == ParseLines(read, text, 1)
      decreases |rest|
    {
      var nl := IndexOf(rest, '\n');
      var line := ReadFor(names, read, rest[..nl]);
      LoopStep(read, steps, rest, n);
      match line {
        case Skip =>
        case Bad(e) => return Failure(ParseError(n, e));
        case Good(o) => steps := steps + [o];
      }
      rest, n := After(rest, nl), n + 1;
    }
    assert steps + [] == steps;
    return Success(steps);
  }

  function After(text: string, nl: nat): (more: string)
    requires nl <= |text|
    ensures text != "" ==> |more| < |text|
  {
    if nl < |text| then text[nl + 1..] else ""
  }

  /** What one line adds to the steps read so far. */
  lemma LoopStep(read: string -> Line, steps: seq<Observation>, rest: string, n: nat)
    requires rest != ""
    ensures var nl := IndexOf(rest, '\n'); var line, more := read(rest[..nl]), ParseLines(read, After(rest, nl), n + 1);
      var whole := Join(Success(steps), ParseLines(read, rest, n));
      && (line.Skip? ==> whole == Join(Success(steps), more))
      && (line.Bad? ==> whole == Failure(ParseError(n, line.reason)))
      && (line.Good? ==> whole == Join(Success(steps + [line.step]), more))
  {
    var nl := IndexOf(rest, '\n');
    StepJoins(steps, read(rest[..nl]), n, ParseLines(read, After(rest, nl), n + 1));
  }

  lemma StepJoins(steps: seq<Observation>, line: Line, n: nat, rest: Result<seq<Observation>, ParseError>)
    ensures line.Good? ==> Join(Success(steps), Contribute(line, n, rest)) == Join(Success(steps + [line.step]), rest)
    ensures line.Bad? ==> Join(Success(steps), Contribute(line, n, rest)) == Failure(ParseError(n, line.reason))
  {
    if line.Good? && rest.Success? {
      assert steps + ([line.step] + rest.value) == steps + [line.step] + rest.value;
    }
  }
}
