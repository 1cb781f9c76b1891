/** Text shared by the two journals and the trace format: searching, decimal and
    octal numbers, and append-only files that are read back line by line. */
module Text {

  /** The first position of `c`, or the length when there is none. */
  function IndexOf(s: string, c: char): (i: nat)
    ensures i <= |s|
    ensures i < |s| ==> s[i] == c
    ensures forall j :: 0 <= j < i ==> s[j] != c
  {
    if s == "" || s[0] == c then 0 else 1 + IndexOf(s[1..], c)
  }

  lemma IndexOfIs(s: string, c: char, i: nat)
    requires i <= |s| && (i < |s| ==> s[i] == c) && forall j :: 0 <= j < i ==> s[j] != c
    ensures IndexOf(s, c) == i
  {
  }

  // ----- numbers ----------------------------------------------------------------

  datatype Base = Octal | Decimal {
    function Size(): nat { if Octal? then 8 else 10 }
    function Times(v: nat): nat { if Octal? then 8 * v else 10 * v }
    function Over(v: nat): nat { if Octal? then v / 8 else v / 10 }
    function Last(v: nat): nat { if Octal? then v % 8 else v % 10 }
  }

  predicate IsDigit(c: char, base: Base) {
    0 <= c as int - '0' as int < base.Size()
  }

  predicate AllDigits(s: string, base: Base) {
    forall i :: 0 <= i < |s| ==> IsDigit(s[i], base)
  }

  function DigitChar(d: nat): (c: char)
    requires d < 10
    ensures c as int == '0' as int + d
  {
    '0' + (d as char)
  }

  /** A number without leading zeros. */
  function Digits(n: nat, base: Base): (s: string)
    ensures s != "" && AllDigits(s, base)
  {
    if n < base.Size() then [DigitChar(n)] else Digits(base.Over(n), base) + [DigitChar(base.Last(n))]
  }

  /** The value of the digits of `s`, most significant first. */
  function Value(s: string, base: Base): nat
    requires AllDigits(s, base)
  {
    if s == "" then 0
    else base.Times(Value(s[..|s| - 1], base)) + (s[|s| - 1] as int - '0' as int)
  }

  lemma {:induction false} ValueOfDigits(n: nat, base: Base)
    ensures Value(Digits(n, base), base) == n
  {
    var s := Digits(n, base);
    if n < base.Size() {
      assert s[..|s| - 1] == "";
    } else {
      ValueOfDigits(base.Over(n), base);
      assert s[..|s| - 1] == Digits(base.Over(n), base);
    }
  }

  /** The first number that takes more than `k` digits. */
  function Limit(base: Base, k: nat): nat { if k == 0 then 1 else base.Times(Limit(base, k - 1)) }

  lemma {:induction false} DigitsShort(n: nat, base: Base, k: nat)
    requires k > 0 && n < Limit(base, k)
    ensures |Digits(n, base)| <= k
  {
    if n >= base.Size() && k > 1 { DigitsShort(base.Over(n), base, k - 1); }
  }

  /** How many leading characters of `s` are digits. */
  function DigitRun(s: string, base: Base): (k: nat)
    ensures k <= |s|
    ensures forall i :: 0 <= i < k ==> IsDigit(s[i], base)
    ensures k < |s| ==> !IsDigit(s[k], base)
  {
    if s == "" || !IsDigit(s[0], base) then 0 else 1 + DigitRun(s[1..], base)
  }

  lemma DigitRunIs(s: string, base: Base, k: nat)
    requires k <= |s| && (k < |s| ==> !IsDigit(s[k], base)) && forall i :: 0 <= i < k ==> IsDigit(s[i], base)
    ensures DigitRun(s, base) == k
  {
  }

  // ----- journals -----------------------------------------------------------------

  /** fgets with the 8192-byte buffers both journals are read through. */
  const LINE_MAX: nat := 8191

  function LineEnd(text: string, room: nat): (k: nat)
    requires text != "" && room > 0
    ensures 0 < k <= |text|
  {
    if text[0] == '\n' || |text| == 1 || room == 1 then 1 else 1 + LineEnd(text[1..], room - 1)
  }

  /** One call of fgets: through the next newline, or as much as fits. */
  function FirstLine(text: string): (line: string)
    requires text != ""
    ensures line != "" && |line| <= |text| && line == text[..|line|]
  {
    text[..LineEnd(text, LINE_MAX)]
  }

  predicate IsLine(l: string, room: nat) {
    0 < |l| <= room && l[|l| - 1] == '\n' && forall i :: 0 <= i < |l| - 1 ==> l[i] != '\n'
  }

  lemma {:induction false} LineEndAppend(l: string, rest: string, room: nat)
    requires IsLine(l, room)
    ensures LineEnd(l + rest, room) == |l|
  {
    if |l| > 1 {
      assert (l + rest)[1..] == l[1..] + rest;
      LineEndAppend(l[1..], rest, room - 1);
    }
  }

  lemma FirstLineAppend(l: string, rest: string)
    requires IsLine(l, LINE_MAX)
    ensures FirstLine(l + rest) == l && (l + rest)[|l|..] == rest
  {
    LineEndAppend(l, rest, LINE_MAX);
  }

  /** Applying a log of changes in order. */
  function Fold<S, Op>(apply: (S, Op) -> S, s: S, ops: seq<Op>): S {
    if ops == [] then s else Fold(apply, apply(s, ops[0]), ops[1..])
  }

  lemma {:induction false} FoldAppend<S, Op>(apply: (S, Op) -> S, s: S, ops: seq<Op>, op: Op)
    ensures Fold(apply, s, ops + [op]) == apply(Fold(apply, s, ops), op)
  {
    if ops != [] {
      assert (ops + [op])[1..] == ops[1..] + [op];
      FoldAppend(apply, apply(s, ops[0]), ops[1..], op);
    }
  }

  /** The file a log of changes leaves behind. */
  function Written<Op>(render: Op -> string, ops: seq<Op>): string {
    if ops == [] then "" else render(ops[0]) + Written(render, ops[1..])
  }

  lemma {:induction false} WrittenAppend<Op>(render: Op -> string, ops: seq<Op>, op: Op)
    ensures Written(render, ops + [op]) == Written(render, ops) + render(op)
  {
    if ops != [] {
      assert (ops + [op])[1..] == ops[1..] + [op];
      WrittenAppend(render, ops[1..], op);
    }
  }

  lemma {:induction false} WrittenComplete<Op>(render: Op -> string, ops: seq<Op>)
    requires forall i :: 0 <= i < |ops| ==> IsLine(render(ops[i]), LINE_MAX)
    ensures Complete(Written(render, ops))
  {
    if ops != [] {
      WrittenComplete(render, ops[1..]);
      CompleteJoin(render(ops[0]), Written(render, ops[1..]));
    }
  }

  lemma CompleteJoin(a: string, b: string)
    requires Complete(a) && Complete(b)
    ensures Complete(a + b)
  {
    if b == "" { assert a + b == a; }
  }

  /** Reading a journal back: one step per line. */
  function FoldLines<S>(readLine: (S, string) -> S, s: S, text: string): S
    decreases |text|
  {
    if text == "" then s
    else FoldLines(readLine, readLine(s, FirstLine(text)), text[|FirstLine(text)|..])
  }

  function LineCount(text: string): nat
    decreases |text|
  {
    if text == "" then 0 else 1 + LineCount(text[|FirstLine(text)|..])
  }

  /** A file whose last line is complete can be appended to without touching it. */
  predicate Complete(text: string) { text == "" || text[|text| - 1] == '\n' }

  lemma {:induction false} LineEndStays(text: string, rest: string, room: nat)
    requires text != "" && Complete(text) && room > 0
    ensures LineEnd(text + rest, room) == LineEnd(text, room)
  {
    if text[0] != '\n' && room > 1 {
      assert (text + rest)[1..] == text[1..] + rest;
      LineEndStays(text[1..], rest, room - 1);
    }
  }

  lemma {:induction false} FoldLinesAppend<S>(readLine: (S, string) -> S, s: S, text: string, rest: string)
    requires Complete(text)
    ensures FoldLines(readLine, s, text + rest) == FoldLines(readLine, FoldLines(readLine, s, text), rest)
    decreases |text|
  {
    if text == "" {
      assert text + rest == rest;
    } else {
      LineEndStays(text, rest, LINE_MAX);
      var line := FirstLine(text);
      assert FirstLine(text + rest) == line && (text + rest)[|line|..] == text[|line|..] + rest;
      FoldLinesAppend(readLine, readLine(s, line), text[|line|..], rest);
    }
  }

  lemma {:induction false} LineEndIsAll(l: string, room: nat)
    requires 0 < |l| <= room && '\n' !in l
    ensures LineEnd(l, room) == |l|
  {
    if |l| > 1 { LineEndIsAll(l[1..], room - 1); }
  }

  /** A file cut inside its last line: what is left of that line is read as a line. */
  lemma TornTail<S>(readLine: (S, string) -> S, s: S, text: string, line: string, k: nat)
    requires Complete(text) && IsLine(line, LINE_MAX) && 0 < k < |line|
    ensures FoldLines(readLine, s, text + line[..k]) == readLine(FoldLines(readLine, s, text), line[..k])
  {
    var cut := line[..k];
    FoldLinesAppend(readLine, s, text, cut);
    LineEndIsAll(cut, LINE_MAX);
    assert FirstLine(cut) == cut && cut[|cut|..] == "";
  }

  /** The change is written as one line, and that line reads back as the change. */
  ghost predicate ReadsBack<S(!new), Op>(apply: (S, Op) -> S, render: Op -> string, readLine: (S, string) -> S,
                              op: Op) {
    IsLine(render(op), LINE_MAX) && forall s :: readLine(s, render(op)) == apply(s, op)
  }

  /** Where that holds of every change, the whole file reads back as the whole log. */
  lemma {:induction false} LogReadsBack<S(!new), Op>(
    apply: (S, Op) -> S, render: Op -> string, readLine: (S, string) -> S, s: S, ops: seq<Op>)
    requires forall i :: 0 <= i < |ops| ==> ReadsBack(apply, render, readLine, ops[i])
    ensures FoldLines(readLine, s, Written(render, ops)) == Fold(apply, s, ops)
  {
    if ops != [] {
      assert ReadsBack(apply, render, readLine, ops[0]);
      FirstLineAppend(render(ops[0]), Written(render, ops[1..]));
      LogReadsBack(apply, render, readLine, apply(s, ops[0]), ops[1..]);
    }
  }

  /** An append-only journal beside a table: one line per change, when there is a file
      to write to. `log` is what was written since the file held `base`. */
  class LogFile<S(!new), Op(!new)> {
    const apply: (S, Op) -> S
    const render: Op -> string
    var on: bool
    var text: string
    ghost var base: string
    ghost var start: S
    ghost var log: seq<Op>

    constructor (apply: (S, Op) -> S, render: Op -> string, start: S)
      ensures this.apply == apply && this.render == render
      ensures Valid() && !on && base == "" && this.start == start && log == []
    {
      this.apply, this.render := apply, render;
      on, text, base, this.start, log := false, "", "", start, [];
    }

    ghost predicate Valid()
      reads this
    {
      on ==> text == base + Written(render, log)
    }

    /** What the changes amount to. */
    ghost function Folded(): S
      reads this
    {
      Fold(apply, start, log)
    }

    method Append(op: Op)
      requires Valid()
      modifies this`text, this`log
      ensures Valid() && log == if on then old(log) + [op] else old(log)
      ensures on ==> Folded() == apply(old(Folded()), op)
    {
      if !on { return; }
      WrittenAppend(render, log, op);
      FoldAppend(apply, start, log, op);
      text := text + render(op);
      log := log + [op];
    }

    /** Go on from a file that holds `found` and stands for `start`. */
    method Reopen(found: string, ghost start: S)
      modifies this
      ensures Valid() && on && text == base == found && this.start == start && log == [] && Folded() == start
    {
      on, text, base, this.start, log := true, found, found, start, [];
    }
  }
}
