/** Where a reference trace comes from: a probe run live, recorded as a golden file, and
    replayed from that file on a host with no Linux kernel. */
module Oracles {
  import opened Basics
  import opened Text
  import opened Observations
  import opened TraceText
  import opened TraceFormat
  import TraceLoops
  import opened Judge

  // ----- scenarios and the files they own ------------------------------------------------

  datatype Scenario = Scenario(name: string, probe: string, args: seq<string>, expects: seq<Sysno>)

  function SafeChar(c: char): char { if c == '/' || c == '.' then '-' else c }

  function Safe(arg: string): (r: string)
    ensures |r| == |arg| && forall i :: 0 <= i < |arg| ==> r[i] == SafeChar(arg[i])
  {
    if arg == "" then "" else [SafeChar(arg[0])] + Safe(arg[1..])
  }

  function ArgsKey(args: seq<string>): string {
    if args == [] then "" else "_" + Safe(args[0]) + ArgsKey(args[1..])
  }

  function Key(s: Scenario): string { s.name + ArgsKey(s.args) }

  method KeyLoop(s: Scenario) returns (k: string)
    ensures k == Key(s)
  {
    k := s.name;
    var i := 0;
    while i < |s.args|
      invariant 0 <= i <= |s.args| && k + ArgsKey(s.args[i..]) == Key(s)
    {
      ghost var before := k;
      k := k + "_";
      var a, j := s.args[i], 0;
      while j < |a|
        invariant 0 <= j <= |a| && k == before + "_" + Safe(a)[..j]
      {
        k := k + [SafeChar(a[j])];
        j := j + 1;
      }
      KeyStep(before, s.args, i);
      i := i + 1;
    }
  }

  lemma KeyStep(before: string, args: seq<string>, i: nat)
    requires i < |args|
    ensures before + "_" + Safe(args[i])[..|args[i]|] + ArgsKey(args[i + 1..]) == before + ArgsKey(args[i..])
  {
    assert args[i..][0] == args[i] && args[i..][1..] == args[i + 1..];
  }

  /** The parts of a string between separators. */
  function Pieces(s: string): (ps: seq<string>)
    ensures ps != []
  {
    if s == "" then [""]
    else if s[0] == '_' then [""] + Pieces(s[1..])
    else Prefixed(s[0], Pieces(s[1..]))
  }

  function Prefixed(c: char, ps: seq<string>): (r: seq<string>)
    requires ps != []
    ensures r != []
  {
    [[c] + ps[0]] + ps[1..]
  }

  function Glued(ps: seq<string>): string
    requires ps != []
  {
    if |ps| == 1 then ps[0] else ps[0] + "_" + Glued(ps[1..])
  }

  lemma GluedPrefixed(c: char, ps: seq<string>)
    requires ps != []
    ensures Glued(Prefixed(c, ps)) == [c] + Glued(ps)
  {
    var r := Prefixed(c, ps);
    assert r[1..] == ps[1..];
    if |ps| > 1 { assert [c] + ps[0] + "_" + Glued(ps[1..]) == [c] + (ps[0] + "_" + Glued(ps[1..])); }
  }

  lemma {:induction false} GluedPieces(s: string)
    ensures Glued(Pieces(s)) == s
  {
    if s != "" {
      GluedPieces(s[1..]);
      if s[0] == '_' {
        assert ([""] + Pieces(s[1..]))[1..] == Pieces(s[1..]);
        assert "" + "_" + s[1..] == s;
      } else {
        GluedPrefixed(s[0], Pieces(s[1..]));
        assert [s[0]] + s[1..] == s;
      }
    }
  }

  lemma {:induction false} PiecesJoin(a: string, b: string)
    ensures Pieces(a + ("_" + b)) == Pieces(a) + Pieces(b)
  {
    var s := a + ("_" + b);
    if a == "" {
      assert s == "_" + b && s[1..] == b;
    } else {
      PiecesJoin(a[1..], b);
      assert s[1..] == a[1..] + ("_" + b);
      if a[0] == '_' {
        JoinAssoc([""], Pieces(a[1..]), Pieces(b));
      } else {
        PrefixedJoin(a[0], Pieces(a[1..]), Pieces(b));
      }
    }
  }

  lemma PrefixedJoin(c: char, ps: seq<string>, qs: seq<string>)
    requires ps != []
    ensures Prefixed(c, ps + qs) == Prefixed(c, ps) + qs
  {
    assert (ps + qs)[1..] == ps[1..] + qs;
    JoinAssoc([[c] + ps[0]], ps[1..], qs);
  }

  lemma JoinAssoc<T>(a: seq<T>, b: seq<T>, c: seq<T>)
    ensures a + (b + c) == a + b + c
  {
  }

  function ArgPieces(args: seq<string>): seq<string> {
    if args == [] then [] else Pieces(Safe(args[0])) + ArgPieces(args[1..])
  }

  lemma {:induction false} KeyPieces(n: string, args: seq<string>)
    ensures Pieces(n + ArgsKey(args)) == Pieces(n) + ArgPieces(args)
    decreases |args|
  {
    if args == [] {
      assert n + "" == n;
    } else {
      var a, more := Safe(args[0]), ArgsKey(args[1..]);
      KeyPieces(a, args[1..]);
      PiecesJoin(n, a + more);
      JoinAssoc("_", a, more);
      assert n + ArgsKey(args) == n + ("_" + (a + more));
    }
  }

  /** Two scenarios share a key, and so a golden, if and only if their names and arguments fall
      into the same pieces, slashes and dots read as dashes. */
  lemma KeyIsExact(a: Scenario, b: Scenario)
    ensures Key(a) == Key(b) <==> Pieces(a.name) + ArgPieces(a.args) == Pieces(b.name) + ArgPieces(b.args)
  {
    KeyPieces(a.name, a.args);
    KeyPieces(b.name, b.args);
    GluedPieces(Key(a));
    GluedPieces(Key(b));
  }

  predicate Plain(s: string) { '_' !in s }

  /** Where no name or argument holds the separator, two scenarios share a key just when
      they share a name and their arguments differ at most in slashes, dots and dashes. */
  lemma PlainKeysDiffer(a: Scenario, b: Scenario)
    requires Plain(a.name) && Plain(b.name)
    requires forall x :: x in a.args + b.args ==> Plain(x)
    ensures Key(a) == Key(b) <==>
      a.name == b.name && |a.args| == |b.args| && forall i :: 0 <= i < |a.args| ==> Safe(a.args[i]) == Safe(b.args[i])
  {
    if Key(a) == Key(b) {
      KeySplits(a.name, a.args, b.name, b.args);
    } else if a.name == b.name && |a.args| == |b.args| {
      SameArgsKey(a.args, b.args);
    }
  }

  lemma {:induction false} SameArgsKey(xs: seq<string>, ys: seq<string>)
    requires |xs| == |ys|
    ensures (forall i :: 0 <= i < |xs| ==> Safe(xs[i]) == Safe(ys[i])) ==> ArgsKey(xs) == ArgsKey(ys)
  {
    if xs != [] {
      SameArgsKey(xs[1..], ys[1..]);
    }
  }

  lemma {:induction false} KeySplits(n: string, xs: seq<string>, m: string, ys: seq<string>)
    requires Plain(n) && Plain(m)
    requires forall x :: x in xs + ys ==> Plain(x)
    requires n + ArgsKey(xs) == m + ArgsKey(ys)
    ensures n == m && |xs| == |ys| && forall i :: 0 <= i < |xs| ==> Safe(xs[i]) == Safe(ys[i])
    decreases |xs|
  {
    HeadSplits(n, ArgsKey(xs), m, ArgsKey(ys));
    if xs != [] && ys != [] {
      SameBehind(Safe(xs[0]), ArgsKey(xs[1..]), Safe(ys[0]), ArgsKey(ys[1..]));
      assert xs[0] in xs + ys && ys[0] in xs + ys;
      SafeIsPlain(xs[0]);
      SafeIsPlain(ys[0]);
      KeySplits(Safe(xs[0]), xs[1..], Safe(ys[0]), ys[1..]);
      forall i | 0 < i < |xs| ensures Safe(xs[i]) == Safe(ys[i]) {
        assert xs[i] == xs[1..][i - 1] && ys[i] == ys[1..][i - 1];
      }
    }
  }

  lemma SafeIsPlain(a: string)
    requires Plain(a)
    ensures Plain(Safe(a))
  {
  }

  lemma SameBehind(a: string, v: string, b: string, w: string)
    requires "_" + a + v == "_" + b + w
    ensures a + v == b + w
  {
    assert a + v == ("_" + a + v)[1..] && b + w == ("_" + b + w)[1..];
  }

  lemma HeadSplits(n: string, v: string, m: string, w: string)
    requires Plain(n) && Plain(m) && n + v == m + w
    requires (v != "" ==> v[0] == '_') && (w != "" ==> w[0] == '_')
    ensures n == m && v == w
  {
    assert n == (n + v)[..|n|] && v == (n + v)[|n|..];
    assert m == (m + w)[..|m|] && w == (m + w)[|m|..];
    IndexOfIs(n + v, '_', |n|);
    IndexOfIs(m + w, '_', |m|);
  }

  /** With a separator in a name, two different scenarios can own one golden. */
  lemma KeysCanCollide()
    ensures exists a: Scenario, b: Scenario :: a.name != b.name && Key(a) == Key(b)
  {
    var a, b := Scenario("a_b", "p", [], []), Scenario("a", "p", ["b"], []);
    assert Safe("b") == "b";
    assert ArgsKey(b.args) == "_" + "b" + ArgsKey([]) == "_b";
    assert Key(a) == "a_b" == "a" + "_b" == Key(b);
    assert a.name != b.name;
  }

  // ----- golden paths ------------------------------------------------------------------------

  datatype Arch = X8664 | AArch64
  datatype Platform = Linux | Android
  datatype Paths = Paths(goldenDir: string, arch: Arch, platform: Platform)

  function ArchName(a: Arch): string { if a.X8664? then "x86_64" else "aarch64" }

  function Subdir(p: Paths): string { (if p.platform.Android? then "android-" else "") + ArchName(p.arch) }

  function Golden(p: Paths, s: Scenario): string { p.goldenDir + "/" + Subdir(p) + "/" + Key(s) + ".trace" }

  /** A golden's path, letter by letter. */
  lemma SampleGolden()
    ensures Golden(Paths("g", X8664, Linux), Scenario("stat", "p", ["/a.b", "c"], [])) == "g/x86_64/stat_-a-b_c.trace"
  {
    SampleKey();
  }

  lemma SampleAndroidGolden()
    ensures Golden(Paths("g", AArch64, Android), Scenario("s", "p", [], [])) == "g/android-aarch64/s.trace"
  {
  }

  lemma SampleKey()
    ensures Key(Scenario("stat", "p", ["/a.b", "c"], [])) == "stat_-a-b_c"
  {
    SampleSafe();
    assert ["/a.b", "c"][1..] == ["c"] && ["c"][1..] == [];
    assert ArgsKey(["c"]) == "_" + "c" + "" == "_c";
    assert ArgsKey(["/a.b", "c"]) == "_" + "-a-b" + "_c" == "_-a-b_c";
  }

  lemma SampleSafe()
    ensures Safe("/a.b") == "-a-b" && Safe("c") == "c"
  {
  }

  lemma SubdirIsExact(p: Paths, q: Paths)
    ensures '/' !in Subdir(p)
    ensures Subdir(p) == Subdir(q) <==> p.arch == q.arch && p.platform == q.platform
  {
    assert |Subdir(p)| == (if p.platform.Android? then 8 else 0) + (if p.arch.X8664? then 6 else 7);
    assert |Subdir(q)| == (if q.platform.Android? then 8 else 0) + (if q.arch.X8664? then 6 else 7);
  }

  /** A golden belongs to one ABI, one platform and one key. */
  lemma GoldenIsExact(p: Paths, q: Paths, a: Scenario, b: Scenario)
    requires p.goldenDir == q.goldenDir
    ensures Golden(p, a) == Golden(q, b) <==> p == q && Key(a) == Key(b)
  {
    SubdirIsExact(p, q);
    SubdirIsExact(q, p);
    PathSplits(p.goldenDir + "/", Subdir(p), Key(a), Subdir(q), Key(b));
  }

  lemma PathSplits(d: string, x: string, k: string, y: string, m: string)
    requires '/' !in x && '/' !in y
    ensures d + x + "/" + k + ".trace" == d + y + "/" + m + ".trace" <==> x == y && k == m
  {
    var l, r := d + x + "/" + k + ".trace", d + y + "/" + m + ".trace";
    assert l[|d| + |x|] == '/' && r[|d| + |y|] == '/';
    assert l[|d|..|d| + |x|] == x && r[|d|..|d| + |y|] == y;
    assert |x| < |y| ==> r[|d| + |x|] == y[|x|];
    assert |y| < |x| ==> l[|d| + |y|] == x[|y|];
    assert l[|d| + |x| + 1..|l| - 6] == k && r[|d| + |y| + 1..|r| - 6] == m;
  }

  // ----- references -----------------------------------------------------------------------------

  datatype Cause = NoRecording | StaleRecording | ProbeFailed
  datatype Reference = Known(trace: Trace) | Unavailable(cause: Cause)
  datatype ProbeOutput = ProbeOutput(exitCode: int, timedOut: bool, text: string)

  /** What a finished probe is taken to say; a crashed or hung one is never parsed. */
  function Live(names: seq<string>, s: Scenario, out: ProbeOutput): Reference {
    if out.timedOut || out.exitCode != 0 then Unavailable(ProbeFailed) else
      match ParseTraceOf(names, out.text, s.name)
      case Failure(_) => Unavailable(ProbeFailed)
      case Success(t) => Known(t)
  }

  /** A recording with no steps, or without a syscall the scenario exercises on this ABI. */
  ghost predicate Stale(has: Sysno -> bool, s: Scenario, t: Trace) {
    t.steps == [] ||
    exists i :: 0 <= i < |s.expects| && has(s.expects[i]) &&
                forall j :: 0 <= j < |t.steps| ==> t.steps[j].call != s.expects[i]
  }

  /** The calls the scenario expects and this ABI has must all be among those of the trace, and
      there must be some. */
  lemma StaleBySets(has: Sysno -> bool, s: Scenario, t: Trace)
    ensures Stale(has, s, t) <==>
      t.steps == [] ||
      !((set c | c in s.expects && has(c)) <= (set o | o in t.steps :: o.call))
  {
    var want, made := (set c | c in s.expects && has(c)), (set o | o in t.steps :: o.call);
    if Stale(has, s, t) && t.steps != [] {
      var i :| 0 <= i < |s.expects| && has(s.expects[i])
        && forall j :: 0 <= j < |t.steps| ==> t.steps[j].call != s.expects[i];
      assert s.expects[i] in want && s.expects[i] !in made;
    }
    if !(want <= made) {
      var c :| c in want && c !in made;
      var i :| 0 <= i < |s.expects| && s.expects[i] == c;
      forall j | 0 <= j < |t.steps| ensures t.steps[j].call != c { assert t.steps[j] in t.steps; }
    }
  }

  method StaleReason(has: Sysno -> bool, s: Scenario, t: Trace) returns (stale: bool)
    ensures stale <==> Stale(has, s, t)
  {
    if t.steps == [] { return true; }
    var i := 0;
    while i < |s.expects|
      invariant 0 <= i <= |s.expects|
      invariant forall k :: 0 <= k < i && has(s.expects[k]) ==>
        exists j :: 0 <= j < |t.steps| && t.steps[j].call == s.expects[k]
    {
      var want := s.expects[i];
      if has(want) {
        var seen, j := false, 0;
        while j < |t.steps|
          invariant 0 <= j <= |t.steps| && (seen <==> exists m :: 0 <= m < j && t.steps[m].call == want)
        {
          if t.steps[j].call == want { seen := true; }
          j := j + 1;
        }
        if !seen { return true; }
      }
      i := i + 1;
    }
    return false;
  }

  /** The first scenario of a name. */
  function FirstNamed(all: seq<Scenario>, name: string): (r: Option<Scenario>)
    ensures r.None? <==> forall i :: 0 <= i < |all| ==> all[i].name != name
    ensures r.Some? ==> r.value in all && r.value.name == name
  {
    if all == [] then None else if all[0].name == name then Some(all[0]) else FirstNamed(all[1..], name)
  }

  method FindScenario(all: seq<Scenario>, name: string) returns (r: Option<Scenario>)
    ensures r.None? <==> forall i :: 0 <= i < |all| ==> all[i].name != name
    ensures r.Some? ==> exists i ::
      0 <= i < |all| && all[i] == r.value && r.value.name == name && forall j :: 0 <= j < i ==> all[j].name != name
    ensures r == FirstNamed(all, name)
  {
    var i := 0;
    assert all[0..] == all;
    while i < |all|
      invariant 0 <= i <= |all|
      invariant (forall j :: 0 <= j < i ==> all[j].name != name) && FirstNamed(all[i..], name) == FirstNamed(all, name)
    {
      assert all[i..][1..] == all[i + 1..];
      if all[i].name == name { return Some(all[i]); }
      i := i + 1;
    }
    return None;
  }

  const LIVE := "live Linux kernel on this host"

  function HeadersOf(p: Paths, kernel: string): Headers { Headers(ArchName(p.arch), LIVE, kernel) }

  function GoldenText(names: seq<string>, p: Paths, t: Trace, kernel: string): string
    requires InTable(names, t.steps)
  {
    TraceTextOf(names, t, HeadersOf(p, kernel))
  }

  /** A trace comes only from a probe that ended in time with status 0 and whose every line parses. */
  lemma LiveIff(names: seq<string>, s: Scenario, out: ProbeOutput, t: Trace)
    ensures Live(names, s, out) == Known(t) <==>
      !out.timedOut && out.exitCode == 0 && ParseTraceOf(names, out.text, s.name) == Success(t)
    ensures Live(names, s, out).Unavailable? ==> Live(names, s, out).cause == ProbeFailed
  {
  }

  lemma LiveIsPrintable(names: seq<string>, s: Scenario, out: ProbeOutput)
    requires Live(names, s, out).Known?
    ensures var t := Live(names, s, out).trace;
      t.scenario == s.name && AllClean(names, t.steps) && InTable(names, t.steps)
  {
    AcceptedIsClean(names, out.text, 1);
  }

  type Files = map<string, string>

  /** What the recorded oracle answers for a scenario it knows. */
  ghost function Replay(names: seq<string>, has: Sysno -> bool, files: Files, p: Paths, s: Scenario): Reference {
    if Golden(p, s) !in files then Unavailable(NoRecording) else
      match ParseTraceOf(names, files[Golden(p, s)], s.name)
      case Failure(_) => Unavailable(StaleRecording)
      case Success(t) => if Stale(has, s, t) then Unavailable(StaleRecording) else Known(t)
  }

  // ----- the two oracles over the host's files -------------------------------------------------

  /** How the host answers a write: done, refused, or cut short. */
  datatype Writing = Done | Refused | Torn(kept: nat)

  class Goldens {
    var files: Files

    constructor (fs: Files)
      ensures files == fs
    { files := fs; }

    method WriteFile(path: string, text: string, w: Writing) returns (ok: bool)
      modifies this
      ensures ok <==> w.Done?
      ensures ok ==> files == old(files)[path := text]
      ensures w.Refused? ==> files == old(files)
      ensures w.Torn? ==> exists k :: 0 <= k <= |text| && files == old(files)[path := text[..k]]
    {
      if w.Done? { files := files[path := text]; return true; }
      if w.Torn? {
        var k := if w.kept < |text| then w.kept else |text|;
        files := files[path := text[..k]];
      }
      return false;
    }

    /** The live oracle's record: a trace is reported only when its golden was written. */
    method Record(names: seq<string>, all: seq<Scenario>, p: Paths, name: string, run: Scenario -> ProbeOutput,
                  kernel: string, w: Writing)
      returns (r: Reference, found: Option<Scenario>)
      modifies this
      ensures found == FirstNamed(all, name)
      ensures r.Known? ==>
        found.Some? && r == Live(names, found.value, run(found.value)) && InTable(names, r.trace.steps)
      ensures r.Known? ==>
        var out := run(found.value);
        !out.timedOut && out.exitCode == 0 && ParseTraceOf(names, out.text, found.value.name) == Success(r.trace)
      ensures r.Known? ==> files == old(files)[Golden(p, found.value) := GoldenText(names, p, r.trace, kernel)]
      ensures r.Unavailable? ==>
        r.cause.ProbeFailed? && (found.None? || Live(names, found.value, run(found.value)).Unavailable? || !w.Done?)
      ensures r.Unavailable? && !w.Torn? ==> files == old(files)
      ensures forall x :: (found.Some? ==> x != Golden(p, found.value)) ==>
        (x in files <==> x in old(files)) && (x in files ==> files[x] == old(files)[x])
    {
      found := FindScenario(all, name);
      if found.None? { return Unavailable(ProbeFailed), found; }
      var out := run(found.value);
      if out.timedOut || out.exitCode != 0 { return Unavailable(ProbeFailed), found; }
      var t := TraceLoops.ParseTrace(names, out.text, found.value.name);
      if t.Failure? { return Unavailable(ProbeFailed), found; }
      LiveIsPrintable(names, found.value, out);
      var text := TraceLoops.RenderTrace(names, t.value, HeadersOf(p, kernel));
      var ok := WriteFile(Golden(p, found.value), text, w);
      if !ok { return Unavailable(ProbeFailed), found; }
      return Known(t.value), found;
    }

    /** The recorded oracle's reference_for. */
    method ReferenceFor(names: seq<string>, has: Sysno -> bool, all: seq<Scenario>, p: Paths, name: string)
      returns (r: Reference, found: Option<Scenario>)
      ensures found == FirstNamed(all, name)
      ensures r == if found.None? then Unavailable(NoRecording) else Replay(names, has, files, p, found.value)
    {
      found := FindScenario(all, name);
      if found.None? { return Unavailable(NoRecording), found; }
      var path := Golden(p, found.value);
      if path !in files { return Unavailable(NoRecording), found; }
      var t := TraceLoops.ParseTrace(names, files[path], found.value.name);
      if t.Failure? { return Unavailable(StaleRecording), found; }
      var stale := StaleReason(has, found.value, t.value);
      if stale { return Unavailable(StaleRecording), found; }
      return Known(t.value), found;
    }

    /** One job of a session. */
    method RecordJob(names: seq<string>, all: seq<Scenario>, p: Paths, job: Job, kernel: string)
        returns (ref: Reference)
      modifies this
      ensures Reports(names, all, job, ref)
      ensures ref.Known? ==> GoldenKept(names, all, p, kernel, files, job, ref)
      ensures OthersKept(all, p, job, old(files), files)
    {
      var found;
      ref, found := Record(names, all, p, job.name, job.run, kernel, job.writing);
    }

    /** A recording session, with whatever the probes say and however the writes go: each trace
        reported is the live one, and its golden stands unless a later job took its key. */
    method RecordSession(names: seq<string>, all: seq<Scenario>, p: Paths, jobs: seq<Job>, kernel: string)
        returns (rs: seq<Reference>)
      modifies this
      ensures |rs| == |jobs|
      ensures forall i :: 0 <= i < |jobs| ==> Reports(names, all, jobs[i], rs[i])
      ensures forall i :: 0 <= i < |jobs| && rs[i].Known? && LastOfKey(all, jobs, i, |jobs|) ==>
        GoldenKept(names, all, p, kernel, files, jobs[i], rs[i])
    {
      rs := [];
      var k := 0;
      while k < |jobs|
        invariant 0 <= k == |rs| <= |jobs|
        invariant AllReport(names, all, jobs, rs)
        invariant AllKept(names, all, p, kernel, files, jobs, rs)
      {
        ghost var before := files;
        var job := jobs[k];
        var ref := RecordJob(names, all, p, job, kernel);
        OneMoreReport(names, all, jobs, rs, ref);
        AllStillKept(names, all, p, kernel, before, files, jobs, rs, ref);
        rs, k := rs + [ref], k + 1;
      }
    }
  }

  datatype Job = Job(name: string, run: Scenario -> ProbeOutput, writing: Writing)

  /** What a job reports is what its probe said, live. */
  ghost predicate Reports(names: seq<string>, all: seq<Scenario>, job: Job, r: Reference) {
    r.Known? ==>
      var s := FirstNamed(all, job.name);
      s.Some? && r == Live(names, s.value, job.run(s.value)) && InTable(names, r.trace.steps)
  }

  /** No job after i and before k writes under its key. */
  ghost predicate LastOfKey(all: seq<Scenario>, jobs: seq<Job>, i: nat, k: nat)
    requires i < k <= |jobs|
  {
    var s := FirstNamed(all, jobs[i].name);
    s.Some? ==> forall j :: i < j < k ==> OtherKey(all, s.value, jobs[j])
  }

  predicate OtherKey(all: seq<Scenario>, s: Scenario, job: Job) {
    var t := FirstNamed(all, job.name);
    t.Some? ==> Key(t.value) != Key(s)
  }

  ghost predicate GoldenKept(names: seq<string>, all: seq<Scenario>, p: Paths, kernel: string, files: Files, job: Job,
                             r: Reference) {
    var s := FirstNamed(all, job.name);
    && s.Some? && r.Known? && InTable(names, r.trace.steps)
    && Golden(p, s.value) in files && files[Golden(p, s.value)] == GoldenText(names, p, r.trace, kernel)
  }

  /** A job changes no golden but its own. */
  ghost predicate OthersKept(all: seq<Scenario>, p: Paths, job: Job, before: Files, after: Files) {
    var t := FirstNamed(all, job.name);
    forall x :: (t.Some? ==> x != Golden(p, t.value)) ==>
      (x in after <==> x in before) && (x in after ==> after[x] == before[x])
  }

  lemma StillKept(names: seq<string>, all: seq<Scenario>, p: Paths, kernel: string, before: Files, after: Files,
                  jobs: seq<Job>, r: Reference, i: nat, k: nat)
    requires i < k < |jobs| && LastOfKey(all, jobs, i, k + 1)
    requires LastOfKey(all, jobs, i, k) ==> GoldenKept(names, all, p, kernel, before, jobs[i], r)
    requires OthersKept(all, p, jobs[k], before, after)
    ensures GoldenKept(names, all, p, kernel, after, jobs[i], r)
  {
    var s, t := FirstNamed(all, jobs[i].name), FirstNamed(all, jobs[k].name);
    assert LastOfKey(all, jobs, i, k);
    assert OtherKey(all, s.value, jobs[k]);
    if t.Some? { GoldenIsExact(p, p, t.value, s.value); }
  }

  ghost predicate AllReport(names: seq<string>, all: seq<Scenario>, jobs: seq<Job>, rs: seq<Reference>) {
    |rs| <= |jobs| && forall i :: 0 <= i < |rs| ==> Reports(names, all, jobs[i], rs[i])
  }

  lemma OneMoreReport(names: seq<string>, all: seq<Scenario>, jobs: seq<Job>, rs: seq<Reference>, r: Reference)
    requires |rs| < |jobs| && AllReport(names, all, jobs, rs) && Reports(names, all, jobs[|rs|], r)
    ensures AllReport(names, all, jobs, rs + [r])
  {
  }

  /** Each golden stands unless a later job took its key. */
  ghost predicate AllKept(names: seq<string>, all: seq<Scenario>, p: Paths, kernel: string, files: Files,
                          jobs: seq<Job>, rs: seq<Reference>)
    requires |rs| <= |jobs|
  {
    forall i :: 0 <= i < |rs| && rs[i].Known? && LastOfKey(all, jobs, i, |rs|) ==>
      GoldenKept(names, all, p, kernel, files, jobs[i], rs[i])
  }

  lemma AllStillKept(names: seq<string>, all: seq<Scenario>, p: Paths, kernel: string, before: Files, after: Files,
                     jobs: seq<Job>, rs: seq<Reference>, r: Reference)
    requires |rs| < |jobs| && OthersKept(all, p, jobs[|rs|], before, after)
    requires AllKept(names, all, p, kernel, before, jobs, rs)
    requires r.Known? ==> GoldenKept(names, all, p, kernel, after, jobs[|rs|], r)
    ensures AllKept(names, all, p, kernel, after, jobs, rs + [r])
  {
    forall i | 0 <= i < |rs| && rs[i].Known? && LastOfKey(all, jobs, i, |rs| + 1)
      ensures GoldenKept(names, all, p, kernel, after, jobs[i], rs[i])
    {
      StillKept(names, all, p, kernel, before, after, jobs, rs[i], i, |rs|);
    }
  }

  // ----- recorded is live -------------------------------------------------------------------------

  /** A golden, read back, is the live trace exactly when the header stayed a comment and
      the trace does what the scenario says; else it is never a wrong reference but none. */
  lemma RecordedIsLive(names: seq<string>, has: Sysno -> bool, files: Files, p: Paths, s: Scenario, out: ProbeOutput,
                       kernel: string)
    requires GoodNames(names) && Live(names, s, out).Known?
    requires InTable(names, Live(names, s, out).trace.steps)
    requires Golden(p, s) in files && files[Golden(p, s)] == GoldenText(names, p, Live(names, s, out).trace, kernel)
    ensures var t := Live(names, s, out).trace; var inert := Inert(HeaderText(s.name, HeadersOf(p, kernel)));
      && (Replay(names, has, files, p, s) == Known(t) <==> inert && !Stale(has, s, t))
      && (inert && Stale(has, s, t) ==> Replay(names, has, files, p, s) == Unavailable(StaleRecording))
  {
    LiveIsPrintable(names, s, out);
    RoundTrip(names, Live(names, s, out).trace, HeadersOf(p, kernel));
  }

  lemma HeadersAreOneLine(p: Paths, kernel: string)
    requires '\n' !in kernel
    ensures var h := HeadersOf(p, kernel); '\n' !in h.arch && '\n' !in h.provenance && '\n' !in h.kernel
  {
    LiveIsOneLine();
  }

  lemma LiveIsOneLine()
    ensures '\n' !in LIVE
  {
  }

  lemma HeadersStayComments(p: Paths, name: string, kernel: string)
    requires '\n' !in kernel && '\n' !in name
    ensures Inert(HeaderText(name, HeadersOf(p, kernel)))
  {
    HeadersAreOneLine(p, kernel);
    OneLineHeadersAreInert(name, HeadersOf(p, kernel));
  }

  lemma ReplayedIs(names: seq<string>, has: Sysno -> bool, files: Files, p: Paths, s: Scenario, out: ProbeOutput,
                   kernel: string)
    requires GoodNames(names) && Live(names, s, out).Known?
    requires InTable(names, Live(names, s, out).trace.steps) && '\n' !in kernel && '\n' !in s.name
    requires Golden(p, s) in files && files[Golden(p, s)] == GoldenText(names, p, Live(names, s, out).trace, kernel)
    ensures Replay(names, has, files, p, s) ==
      if Stale(has, s, Live(names, s, out).trace) then Unavailable(StaleRecording) else Live(names, s, out)
  {
    HeadersStayComments(p, s.name, kernel);
    RecordedIsLive(names, has, files, p, s, out, kernel);
  }

  /** THE SAME COMPARISON. After any session, a scenario whose trace was recorded and whose key
      no later job took is judged from its golden as it would be against the live kernel:
      the same verdict, for every guest run and under every law, unless the trace does
      not do what the scenario says, and then there is no reference at all. */
  method RecordedJudgesAsLive(store: Goldens, names: seq<string>, has: Sysno -> bool, all: seq<Scenario>, p: Paths,
                              jobs: seq<Job>, kernel: string, i: nat)
      returns (live: Reference, replayed: Reference)
    requires GoodNames(names) && i < |jobs| && '\n' !in kernel && '\n' !in jobs[i].name
    modifies store
    ensures live.Known? ==> FirstNamed(all, jobs[i].name).Some?
    ensures var s := FirstNamed(all, jobs[i].name);
      live.Known? && LastOfKey(all, jobs, i, |jobs|) ==>
        && live == Live(names, s.value, jobs[i].run(s.value))
        && replayed == (if Stale(has, s.value, live.trace) then Unavailable(StaleRecording) else live)
        && (replayed.Known? ==> forall guest, law ::
              VerdictOf(names, replayed.trace, guest, law) == VerdictOf(names, live.trace, guest, law))
  {
    var rs := store.RecordSession(names, all, p, jobs, kernel);
    live := rs[i];
    var found;
    replayed, found := store.ReferenceFor(names, has, all, p, jobs[i].name);
    if live.Known? && LastOfKey(all, jobs, i, |jobs|) {
      assert GoldenKept(names, all, p, kernel, store.files, jobs[i], rs[i]) && Reports(names, all, jobs[i], rs[i]);
      ReplayedIs(names, has, store.files, p, found.value, jobs[i].run(found.value), kernel);
    }
  }
}
