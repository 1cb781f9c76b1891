/** What one syscall produced, and a run of them. */
module Observations {
  import opened Basics
  import opened Text

  const TWO31: int := 0x8000_0000
  const TWO63: int := 0x8000_0000_0000_0000
  type i32 = v: int | -TWO31 <= v < TWO31
  type i64 = v: int | -TWO63 <= v < TWO63
  /** A syscall is identified by its place in the generated name table. */
  type Sysno = nat

  datatype Returned = Ok(value: i64) | Err(number: i32)
  datatype Buffer = Buffer(arg: i32, bytes: seq<byte>)
  datatype Observation = Observation(call: Sysno, returned: Returned, wrote: seq<Buffer>, note: string)
  datatype Trace = Trace(scenario: string, steps: seq<Observation>)

  /** The raw register as the kernel encodes it: only the last page holds errors. */
  function FromRaw(raw: i64): (r: Returned)
    ensures r.Err? <==> -4095 <= raw < 0
    ensures ToRaw(r) == raw
  {
    if raw < 0 && raw >= -4095 then Err(-raw) else Ok(raw)
  }

  function ToRaw(r: Returned): int { match r case Ok(v) => v case Err(e) => -(e as int) }

  const EPERM: i32 := 1
  const EACCES: i32 := 13

  /** The errnos that are spelled out; the others are written as numbers. */
  function ErrnoName(e: int): string {
    match e
    case 1 => "EPERM"
    case 2 => "ENOENT"
    case 3 => "ESRCH"
    case 9 => "EBADF"
    case 10 => "ECHILD"
    case 13 => "EACCES"
    case 14 => "EFAULT"
    case 17 => "EEXIST"
    case 18 => "EXDEV"
    case 20 => "ENOTDIR"
    case 21 => "EISDIR"
    case 22 => "EINVAL"
    case 25 => "ENOTTY"
    case 29 => "ESPIPE"
    case 34 => "ERANGE"
    case 38 => "ENOSYS"
    case 40 => "ELOOP"
    case 61 => "ENODATA"
    case 95 => "EOPNOTSUPP"
    case _ => ""
  }

  function IntText(v: int): (s: string)
    ensures s != ""
  {
    if v < 0 then "-" + Digits(-v, Decimal) else Digits(v, Decimal)
  }

  function Describe(r: Returned): string {
    match r
    case Ok(v) => IntText(v)
    case Err(e) => if ErrnoName(e) != "" then "-" + ErrnoName(e) else "-errno(" + IntText(e) + ")"
  }

  lemma ErrnoNamesDistinct(e: int, f: int)
    requires ErrnoName(e) == ErrnoName(f) != ""
    ensures e == f && 1 <= e < 200
  {
  }
}
