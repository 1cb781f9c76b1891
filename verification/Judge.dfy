/** What agreement between two runs means: the laws, and the comparison under a law. */
module Judge {
  import opened Basics
  import opened Observations

  /** Says of a pair of observations of one call that it is not to be compared. */
  type Law = (Observation, Observation) -> bool

  datatype Field = ReturnedField | WrittenField | StepCount | CallIdentity

  datatype Verdict = Match(steps: nat)
                   | Divergence(index: nat, field: Field, native: string, guest: string, note: string)

  // ----- the laws ---------------------------------------------------------------------

  const GETPID: Sysno := 10
  const GETTID: Sysno := 11
  const GETPPID: Sysno := 95
  const CLOCK_GETTIME: Sysno := 98
  const GETTIMEOFDAY: Sysno := 99
  const TIME: Sysno := 100
  const GETRANDOM: Sysno := 107

  /** Calls that cannot agree between two processes. */
  predicate Universal(c: Sysno) {
    c in {GETPID, GETTID, GETPPID, GETRANDOM, CLOCK_GETTIME, GETTIMEOFDAY, TIME}
  }

  function Exempt(c: Sysno): Law { (n: Observation, g: Observation) => n.call == c && g.call == c }

  function AnyOf(laws: seq<Law>): Law {
    (n: Observation, g: Observation) => exists i :: 0 <= i < |laws| && laws[i](n, g)
  }

  /** open, openat, openat2, creat, dup, dup2, dup3, socket, accept, accept4, epoll_create1,
      eventfd2, memfd_create, inotify_init1, timerfd_create, signalfd4, pidfd_open. */
  predicate ReturnsFd(c: Sysno) {
    c in {3, 4, 58, 236, 54, 55, 56, 180, 183, 184, 120, 123, 291, 264, 373, 366, 313}
  }

  predicate FdNumbersDiffer(n: Observation, g: Observation) {
    ReturnsFd(n.call) && n.call == g.call && n.returned.Ok? && g.returned.Ok?
  }

  /** ioctl, bind, connect, link, linkat, newfstatat, mknod, mknodat. */
  predicate Filtered(c: Sysno) {
    c in {26, 193, 194, 164, 165, 40, 159, 160}
  }

  /** The probe's answer where the call it depends on failed. */
  const NOT_APPLICABLE: i64 := 2

  predicate NotApplicable(o: Observation) { o.returned == Ok(NOT_APPLICABLE) }

  predicate Denied(o: Observation) { o.returned.Err? && (o.returned.number == EACCES || o.returned.number == EPERM) }

  predicate HostPolicyMayDeny(n: Observation, g: Observation) {
    && Filtered(n.call) && n.call == g.call
    && ((g.returned.Ok? && Denied(n)) || NotApplicable(n) != NotApplicable(g) || (Denied(n) && !g.returned.Ok?))
  }

  function UniversalExemptions(): Law {
    AnyOf([Exempt(GETPID), Exempt(GETTID), Exempt(GETPPID), Exempt(GETRANDOM), Exempt(CLOCK_GETTIME),
      Exempt(GETTIMEOFDAY), Exempt(TIME)])
  }

  function DefaultLaw(): Law { AnyOf([UniversalExemptions(), FdNumbersDiffer, HostPolicyMayDeny]) }

  lemma DefaultLawIs(n: Observation, g: Observation)
    ensures DefaultLaw()(n, g) <==>
      (n.call == g.call && Universal(n.call)) || FdNumbersDiffer(n, g) || HostPolicyMayDeny(n, g)
  {
    var u := [Exempt(GETPID), Exempt(GETTID), Exempt(GETPPID), Exempt(GETRANDOM), Exempt(CLOCK_GETTIME),
        Exempt(GETTIMEOFDAY), Exempt(TIME)];
    assert UniversalExemptions()(n, g) <==> n.call == g.call && Universal(n.call) by {
      assert u[0](n, g) <==> n.call == GETPID == g.call;
      assert u[1](n, g) <==> n.call == GETTID == g.call;
      assert u[2](n, g) <==> n.call == GETPPID == g.call;
      assert u[3](n, g) <==> n.call == GETRANDOM == g.call;
      assert u[4](n, g) <==> n.call == CLOCK_GETTIME == g.call;
      assert u[5](n, g) <==> n.call == GETTIMEOFDAY == g.call;
      assert u[6](n, g) <==> n.call == TIME == g.call;
    }
    var d := [UniversalExemptions(), FdNumbersDiffer, HostPolicyMayDeny];
    assert d[0](n, g) <==> UniversalExemptions()(n, g);
    assert d[1](n, g) <==> FdNumbersDiffer(n, g);
    assert d[2](n, g) <==> HostPolicyMayDeny(n, g);
  }

  /** A guest that fails where the reference succeeded is excused exactly when the call
      can never agree, or the call is filtered and the reference answered the marker 2:
      there a success is taken for "not applicable". */
  lemma FailureExcusedIff(n: Observation, g: Observation)
    requires n.call == g.call && n.returned.Ok? && g.returned.Err?
    ensures DefaultLaw()(n, g) <==> Universal(n.call) || (Filtered(n.call) && n.returned == Ok(2))
  {
    DefaultLawIs(n, g);
  }

  /** Where the reference failed, whatever the guest did is excused exactly when the call can
      never agree, or the call is filtered and the reference was denied, by EPERM or EACCES, or
      the guest answered the marker 2. */
  lemma ReferenceFailureExcusedIff(n: Observation, g: Observation)
    requires n.call == g.call && n.returned.Err?
    ensures DefaultLaw()(n, g) <==>
      Universal(n.call) ||
      (Filtered(n.call) && (n.returned == Err(1) || n.returned == Err(13) || g.returned == Ok(2)))
  {
    DefaultLawIs(n, g);
  }

  /** Two answered results are always compared, descriptors apart, and of filtered calls a
      marker on one side only. */
  lemma AnswersAreCompared(n: Observation, g: Observation)
    requires n.call == g.call && n.returned.Ok? && g.returned.Ok?
    ensures DefaultLaw()(n, g) <==>
      Universal(n.call) || ReturnsFd(n.call) ||
      (Filtered(n.call) && (n.returned == Ok(2)) != (g.returned == Ok(2)))
  {
    DefaultLawIs(n, g);
  }

  /** Different calls are never excused. */
  lemma OtherCallsAreCompared(n: Observation, g: Observation)
    requires n.call != g.call
    ensures !DefaultLaw()(n, g)
  {
    DefaultLawIs(n, g);
  }

  // ----- the comparison ------------------------------------------------------------------

  function HexPair(b: byte): string { ["0123456789abcdef"[b / 16], "0123456789abcdef"[b % 16], ' '] }

  function Preview(bytes: seq<byte>, room: nat): string {
    if bytes == [] then "" else if room == 0 then "..." else HexPair(bytes[0]) + Preview(bytes[1..], room - 1)
  }

  /** Two digits and a space for each byte, up to `room` of them, and dots where there are more. */
  lemma {:induction false} PreviewIs(bytes: seq<byte>, room: nat)
    ensures var shown := if |bytes| <= room then |bytes| else room;
      && |Preview(bytes, room)| == 3 * shown + (if |bytes| > room then 3 else 0)
      && (forall i :: 0 <= i < shown ==> Preview(bytes, room)[3 * i..3 * i + 3] == HexPair(bytes[i]))
      && (|bytes| > room ==> Preview(bytes, room)[3 * room..] == "...")
  {
    if bytes != [] && room > 0 {
      PreviewIs(bytes[1..], room - 1);
      var p, q := Preview(bytes, room), Preview(bytes[1..], room - 1);
      assert p == HexPair(bytes[0]) + q;
      var shown := if |bytes| <= room then |bytes| else room;
      forall i | 0 <= i < shown ensures p[3 * i..3 * i + 3] == HexPair(bytes[i]) {
        if i > 0 { assert p[3 * i..3 * i + 3] == q[3 * (i - 1)..3 * (i - 1) + 3]; }
      }
      if |bytes| > room { assert p[3 * room..] == q[3 * (room - 1)..]; }
    }
  }

  function ShowBuffers(ws: seq<Buffer>): string { if ws == [] then "(wrote nothing)" else ShowEach(ws) }

  function ShowEach(ws: seq<Buffer>): string {
    if ws == [] then "" else
      "arg" + IntText(ws[0].arg) + "[" + IntText(|ws[0].bytes|) + "B]=" + Preview(ws[0].bytes, 16) + "; "
        + ShowEach(ws[1..])
  }

  lemma SampleBuffers()
    ensures ShowBuffers([]) == "(wrote nothing)" && ShowBuffers([Buffer(1, [0x61])]) == "arg1[1B]=61 ; "
  {
    SamplePreview();
    assert IntText(1) == "1" && ShowEach([Buffer(1, [0x61])][1..]) == "";
  }

  lemma SamplePreview()
    ensures Preview([0x61], 16) == "61 "
  {
    assert [0x61][1..] == [] && HexPair(0x61) == "61 ";
  }

  function NameOf(names: seq<string>, c: Sysno): string { if c < |names| then names[c] else "<out-of-range>" }

  /** The two steps agree as far as the law asks. */
  predicate StepAgrees(a: Observation, b: Observation, law: Law) {
    a.call == b.call && (law(a, b) || (a.returned == b.returned && a.wrote == b.wrote))
  }

  function Explain(names: seq<string>, i: nat, a: Observation, b: Observation): Verdict {
    if a.call != b.call then Divergence(i, CallIdentity, NameOf(names, a.call), NameOf(names, b.call), a.note)
    else if a.returned != b.returned then
      Divergence(i, ReturnedField, Describe(a.returned), Describe(b.returned), a.note)
    else Divergence(i, WrittenField, ShowBuffers(a.wrote), ShowBuffers(b.wrote), a.note)
  }

  function Min(a: nat, b: nat): nat { if a < b then a else b }

  /** The index of the first step in the common part that does not agree, or its length. */
  function FirstDifference(ref: seq<Observation>, guest: seq<Observation>, law: Law, i: nat): (k: nat)
    requires i <= Min(|ref|, |guest|)
    ensures i <= k <= Min(|ref|, |guest|)
    ensures forall j :: i <= j < k ==> StepAgrees(ref[j], guest[j], law)
    ensures k < Min(|ref|, |guest|) ==> !StepAgrees(ref[k], guest[k], law)
    decreases |ref| - i
  {
    if i == Min(|ref|, |guest|) || !StepAgrees(ref[i], guest[i], law) then i
    else FirstDifference(ref, guest, law, i + 1)
  }

  /** The verdict: the first difference, explained, or else the lengths, or a match. */
  function VerdictOf(names: seq<string>, ref: Trace, guest: Trace, law: Law): Verdict {
    var k := FirstDifference(ref.steps, guest.steps, law, 0);
    if k < Min(|ref.steps|, |guest.steps|) then Explain(names, k, ref.steps[k], guest.steps[k])
    else if |ref.steps| != |guest.steps| then Divergence(k, StepCount, IntText(|ref.steps|), IntText(|guest.steps|), "")
    else Match(k)
  }

  method JudgeLoop(names: seq<string>, ref: Trace, guest: Trace, law: Law) returns (v: Verdict)
    ensures v == VerdictOf(names, ref, guest, law)
  {
    var n := Min(|ref.steps|, |guest.steps|);
    var i := 0;
    while i < n
      invariant 0 <= i <= n
      invariant FirstDifference(ref.steps, guest.steps, law, i) == FirstDifference(ref.steps, guest.steps, law, 0)
    {
      var a, b := ref.steps[i], guest.steps[i];
      if a.call != b.call {
        return Divergence(i, CallIdentity, NameOf(names, a.call), NameOf(names, b.call), a.note);
      }
      if !law(a, b) {
        if a.returned != b.returned {
          return Divergence(i, ReturnedField, Describe(a.returned), Describe(b.returned), a.note);
        }
        if a.wrote != b.wrote {
          return Divergence(i, WrittenField, ShowBuffers(a.wrote), ShowBuffers(b.wrote), a.note);
        }
      }
      i := i + 1;
    }
    if |ref.steps| != |guest.steps| {
      return Divergence(n, StepCount, IntText(|ref.steps|), IntText(|guest.steps|), "");
    }
    return Match(n);
  }

  /** What a divergence shows of two steps: the reference's side, then the guest's. */
  predicate Shows(names: seq<string>, v: Verdict, a: Observation, b: Observation)
    requires v.Divergence?
  {
    && v.note == a.note
    && (v.field.CallIdentity? ==> v.native == NameOf(names, a.call) && v.guest == NameOf(names, b.call))
    && (v.field.ReturnedField? ==> v.native == Describe(a.returned) && v.guest == Describe(b.returned))
    && (v.field.WrittenField? ==> v.native == ShowBuffers(a.wrote) && v.guest == ShowBuffers(b.wrote))
  }

  /** A match means just that the runs agree; a divergence names the least index at which
      they do not, the field that differs there, and both sides of it. */
  lemma VerdictIsExact(names: seq<string>, ref: Trace, guest: Trace, law: Law)
    ensures var v := VerdictOf(names, ref, guest, law);
      && (v.Match? <==>
            && |ref.steps| == |guest.steps|
            && forall i :: 0 <= i < |ref.steps| ==>
              var a, b := ref.steps[i], guest.steps[i];
              a.call == b.call && (law(a, b) || (a.returned == b.returned && a.wrote == b.wrote)))
      && (v.Divergence? ==>
            && v.index <= Min(|ref.steps|, |guest.steps|)
            && (forall j :: 0 <= j < v.index ==> StepAgrees(ref.steps[j], guest.steps[j], law))
            && (v.field.StepCount? <==> v.index == Min(|ref.steps|, |guest.steps|))
            && (v.field.StepCount? ==>
                  |ref.steps| != |guest.steps| && v.native == IntText(|ref.steps|) && v.guest == IntText(|guest.steps|))
            && (!v.field.StepCount? ==>
                  var a, b := ref.steps[v.index], guest.steps[v.index];
                  && Shows(names, v, a, b)
                  && (v.field.CallIdentity? <==> a.call != b.call)
                  && (v.field.ReturnedField? <==> a.call == b.call && !law(a, b) && a.returned != b.returned)
                  && (v.field.WrittenField? <==>
                        a.call == b.call && !law(a, b) && a.returned == b.returned && a.wrote != b.wrote)))
  {
    var k := FirstDifference(ref.steps, guest.steps, law, 0);
    if |ref.steps| == |guest.steps| &&
       forall i :: 0 <= i < |ref.steps| ==> StepAgrees(ref.steps[i], guest.steps[i], law) {
      assert k == |ref.steps|;
    }
  }

  /** A law that excuses more can only turn a divergence into a match or move it later. */
  lemma WeakerLawIsLater(names: seq<string>, ref: Trace, guest: Trace, strict: Law, weak: Law)
    requires forall a, b :: strict(a, b) ==> weak(a, b)
    ensures var s, w := VerdictOf(names, ref, guest, strict), VerdictOf(names, ref, guest, weak);
      && (s.Match? ==> w == s)
      && (s.Divergence? && w.Divergence? ==> s.index <= w.index)
  {
    var s, w := FirstDifference(ref.steps, guest.steps, strict, 0), FirstDifference(ref.steps, guest.steps, weak, 0);
    assert forall j :: 0 <= j < s ==> StepAgrees(ref.steps[j], guest.steps[j], weak);
    assert s <= w;
  }

  /** Under the default law such a failure is reported, at its step or before. */
  lemma FailureIsReported(names: seq<string>, ref: Trace, guest: Trace, i: nat)
    requires i < |ref.steps| && i < |guest.steps|
    requires ref.steps[i].returned.Ok? && guest.steps[i].returned.Err?
    requires !Universal(ref.steps[i].call) && !(Filtered(ref.steps[i].call) && NotApplicable(ref.steps[i]))
    ensures var v := VerdictOf(names, ref, guest, DefaultLaw()); v.Divergence? && v.index <= i
  {
    if ref.steps[i].call == guest.steps[i].call { FailureExcusedIff(ref.steps[i], guest.steps[i]); }
    assert !StepAgrees(ref.steps[i], guest.steps[i], DefaultLaw());
  }

  /** One the marker does hide: a filtered call that really returned 2. */
  lemma MarkerHidesFailure()
    ensures exists n: Observation, g: Observation ::
      n.call == g.call && n.returned.Ok? && g.returned.Err? && !Universal(n.call) && DefaultLaw()(n, g)
  {
    var n, g := Observation(26, Ok(NOT_APPLICABLE), [], ""), Observation(26, Err(22), [], "");
    FailureExcusedIff(n, g);
    assert n.call == g.call;
  }
}
