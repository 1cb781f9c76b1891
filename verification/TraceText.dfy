/** The on-the-wire trace format: one line per observed syscall, printed and parsed. */
module TraceText {
  import opened Basics
  import opened Text
  import opened Observations

  // ----- words and trimming ---------------------------------------------------------

  predicate IsPad(c: char) { c == ' ' || c == '\t' }
  predicate IsEndPad(c: char) { c == ' ' || c == '\t' || c == '\r' }

  /** Where the text starts after the padding. */
  function Lead(s: string, i: nat): (k: nat)
    requires i <= |s|
    ensures i <= k <= |s| && (k < |s| ==> !IsPad(s[k])) && forall j :: i <= j < k ==> IsPad(s[j])
    decreases |s| - i
  {
    if i < |s| && IsPad(s[i]) then Lead(s, i + 1) else i
  }

  /** Where it ends before the padding, not before `lo`. */
  function Rear(s: string, lo: nat, i: nat): (k: nat)
    requires lo <= i <= |s|
    ensures lo <= k <= i && (k > lo ==> !IsEndPad(s[k - 1])) && forall j :: k <= j < i ==> IsEndPad(s[j])
  {
    if i > lo && IsEndPad(s[i - 1]) then Rear(s, lo, i - 1) else i
  }

  function Trim(s: string): (r: string)
    ensures |r| <= |s|
  {
    s[Lead(s, 0)..Rear(s, Lead(s, 0), |s|)]
  }

  /** What is left when pads are taken off both ends, and no more can be. */
  lemma TrimIs(s: string, a: nat, b: nat)
    requires a <= b <= |s| && (forall j :: 0 <= j < a ==> IsPad(s[j])) && (forall j :: b <= j < |s| ==> IsEndPad(s[j]))
    requires a < |s| ==> !IsPad(s[a])
    requires b > a ==> !IsEndPad(s[b - 1])
    ensures Trim(s) == s[a..b]
  {
  }

  lemma TrimAddsNothing(s: string, c: char)
    requires c !in s
    ensures c !in Trim(s)
  {
  }

  /** Nothing to trim. */
  predicate Tight(s: string) { s == "" || (!IsPad(s[0]) && !IsEndPad(s[|s| - 1])) }

  lemma TrimIsTight(s: string)
    ensures Tight(Trim(s))
  {
  }

  lemma TrimTight(s: string)
    requires Tight(s)
    ensures Trim(s) == s && Trim(" " + s) == s && Trim(s + " ") == s
  {
    TrimIs(s, 0, |s|);
    if s == "" {
      TrimIs(" ", 1, 1);
      assert " " + s == " " == s + " ";
    } else {
      TrimIs(" " + s, 1, |s| + 1);
      TrimIs(s + " ", 0, |s|);
    }
  }

  lemma TrimSpaced(s: string)
    requires s != "" && s[0] == ' ' && Tight(s[1..])
    ensures Trim(s) == s[1..]
  {
    TrimIs(s, 1, |s|);
  }

  /** Characters with no meaning of their own in a line. */
  predicate IsWordChar(c: char) {
    !IsEndPad(c) && c != '\n' && c != '|' && c != '=' && c != '@' && c != ':' && c != '#'
  }

  predicate Word(s: string) { s != "" && forall i :: 0 <= i < |s| ==> IsWordChar(s[i]) }

  // ----- numbers and hexadecimal -------------------------------------------------------

  /** from_chars over the whole view: an optional minus sign and digits, in range. */
  function ParseInt(s: string): Option<i64> {
    var neg := s != "" && s[0] == '-';
    var d := if neg then s[1..] else s;
    if d == "" || !AllDigits(d, Decimal) then None else
      var v: int := if neg then -(Value(d, Decimal) as int) else Value(d, Decimal);
      if -TWO63 <= v < TWO63 then Some(v) else None
  }

  lemma IntRoundTrip(v: i64)
    ensures ParseInt(IntText(v)) == Some(v) && Word(IntText(v))
  {
    var m: nat := if v < 0 then -(v as int) else v;
    ValueOfDigits(m, Decimal);
    SignedReads(Digits(m, Decimal), m);
  }

  lemma SignedReads(d: string, m: nat)
    requires d != "" && AllDigits(d, Decimal) && Value(d, Decimal) == m
    ensures m < TWO63 ==> ParseInt(d) == Some(m)
    ensures m <= TWO63 ==> ParseInt("-" + d) == Some(-(m as int))
    ensures Word(d) && Word("-" + d)
  {
    assert IsDigit(d[0], Decimal);
    assert ("-" + d)[1..] == d;
    assert forall i :: 0 <= i < |d| ==> IsDigit(d[i], Decimal) && IsWordChar(d[i]);
  }

  /** static_cast to a 32-bit int. */
  function Wrap32(v: int): i32 { (v + TWO31) % (2 * TWO31) - TWO31 }

  function HexChar(d: nat): char
    requires d < 16
  {
    "0123456789abcdef"[d]
  }

  function HexVal(c: char): int {
    if '0' <= c <= '9' then c as int - '0' as int
    else if 'a' <= c <= 'f' then c as int - 'a' as int + 10
    else if 'A' <= c <= 'F' then c as int - 'A' as int + 10
    else -1
  }

  function HexText(bytes: seq<byte>): string {
    if bytes == [] then "" else [HexChar(bytes[0] / 16), HexChar(bytes[0] % 16)] + HexText(bytes[1..])
  }

  function ParseHex(s: string): Option<seq<byte>>
    requires |s| % 2 == 0
  {
    if s == "" then Some([]) else
      var h, l := HexVal(s[0]), HexVal(s[1]);
      if h < 0 || l < 0 then None else
        match ParseHex(s[2..])
        case None => None
        case Some(rest) => var b: byte := h * 16 + l; Some([b] + rest)
  }

  lemma HexCharVal(d: nat)
    requires d < 16
    ensures HexVal(HexChar(d)) == d && IsWordChar(HexChar(d))
  {
  }

  lemma {:induction false} HexRoundTrip(bytes: seq<byte>)
    ensures |HexText(bytes)| == 2 * |bytes| && ParseHex(HexText(bytes)) == Some(bytes)
    ensures forall i :: 0 <= i < |HexText(bytes)| ==> IsWordChar(HexText(bytes)[i])
  {
    if bytes != [] {
      var h, rest := HexText(bytes), HexText(bytes[1..]);
      HexRoundTrip(bytes[1..]);
      HexCharVal(bytes[0] / 16);
      HexCharVal(bytes[0] % 16);
      PairReads(HexChar(bytes[0] / 16), HexChar(bytes[0] % 16), rest, bytes[0]);
      assert bytes == [bytes[0]] + bytes[1..];
    }
  }

  /** The digits in capitals. */
  function UpperHex(bytes: seq<byte>): (s: string)
    ensures |s| == 2 * |bytes|
  {
    if bytes == [] then "" else [UpperChar(bytes[0] / 16), UpperChar(bytes[0] % 16)] + UpperHex(bytes[1..])
  }

  function UpperChar(d: nat): (c: char)
    requires d < 16
    ensures HexVal(c) == d
  {
    "0123456789ABCDEF"[d]
  }

  /** They are read all the same. */
  lemma {:induction false} UpperHexReads(bytes: seq<byte>)
    ensures ParseHex(UpperHex(bytes)) == Some(bytes)
  {
    if bytes != [] {
      UpperHexReads(bytes[1..]);
      PairReads(UpperChar(bytes[0] / 16), UpperChar(bytes[0] % 16), UpperHex(bytes[1..]), bytes[0]);
      assert bytes == [bytes[0]] + bytes[1..];
    }
  }

  lemma PairReads(h: char, l: char, rest: string, b: byte)
    requires HexVal(h) == b / 16 && HexVal(l) == b % 16 && |rest| % 2 == 0 && ParseHex(rest).Some?
    ensures ParseHex([h, l] + rest) == Some([b] + ParseHex(rest).value)
  {
    var s := [h, l] + rest;
    assert s[0] == h && s[1] == l && s[2..] == rest;
  }

  // ----- return values -----------------------------------------------------------------

  /** The first errno below 200 that goes by this name. */
  function ErrnoFrom(n: string, e: nat): Option<i32>
    decreases 200 - e
  {
    if e >= 200 then None
    else if ErrnoName(e) != "" && ErrnoName(e) == n then Some(e)
    else ErrnoFrom(n, e + 1)
  }

  predicate IsNumericErrno(rest: string) {
    |rest| >= 7 && rest[..6] == "errno(" && rest[|rest| - 1] == ')'
  }

  function ParseReturned(v: string): Option<Returned> {
    if v == "" then None
    else if v[0] == '-' && IsNumericErrno(v[1..]) then
      match ParseInt(v[1..][6..|v| - 2]) { case None => None case Some(n) => Some(Err(Wrap32(n))) }
    else if v[0] == '-' && ErrnoFrom(v[1..], 1).Some? then Some(Err(ErrnoFrom(v[1..], 1).value))
    else match ParseInt(v) { case None => None case Some(n) => Some(Ok(n)) }
  }

  lemma {:induction false} ErrnoFound(e: int, k: nat)
    requires ErrnoName(e) != "" && 1 <= k <= e
    ensures ErrnoFrom(ErrnoName(e), k) == Some(e)
    decreases e - k
  {
    ErrnoNamesDistinct(e, e);
    if k < e {
      if ErrnoName(k) == ErrnoName(e) { ErrnoNamesDistinct(e, k); }
      ErrnoFound(e, k + 1);
    }
  }

  lemma {:induction false} DigitsAreNoErrno(d: string, k: nat)
    requires d == "" || !('A' <= d[0] <= 'Z')
    ensures ErrnoFrom(d, k) == None
    decreases 200 - k
  {
    if k < 200 {
      assert ErrnoName(k) != "" ==> ErrnoName(k)[0] == 'E';
      DigitsAreNoErrno(d, k + 1);
    }
  }

  /** The renderer and the parser agree about every value and every errno. */
  lemma ReturnedRoundTrip(r: Returned)
    ensures ParseReturned(Describe(r)) == Some(r) && Word(Describe(r))
  {
    match r {
      case Ok(n) => ValueRoundTrip(n);
      case Err(e) => if ErrnoName(e) != "" { NamedRoundTrip(e); } else { NumericRoundTrip(e); }
    }
  }

  lemma NoNumericErrno(s: string)
    requires s == "" || s[0] != 'e'
    ensures !IsNumericErrno(s)
  {
    assert |s| >= 7 ==> s[..6][0] == s[0];
  }

  lemma ValueRoundTrip(n: i64)
    ensures ParseReturned(IntText(n)) == Some(Ok(n)) && Word(IntText(n))
  {
    IntRoundTrip(n);
    var v := IntText(n);
    if n < 0 {
      var d := Digits(-(n as int), Decimal);
      assert v[1..] == d && IsDigit(d[0], Decimal);
      NoNumericErrno(d);
      DigitsAreNoErrno(d, 1);
    } else {
      assert IsDigit(v[0], Decimal);
    }
  }

  lemma NamedRoundTrip(e: i32)
    requires ErrnoName(e) != ""
    ensures ParseReturned("-" + ErrnoName(e)) == Some(Err(e)) && Word("-" + ErrnoName(e))
  {
    var v := "-" + ErrnoName(e);
    ErrnoNamesDistinct(e, e);
    ErrnoFound(e, 1);
    ErrnoNameIsUpper(e);
    assert v[1..] == ErrnoName(e);
    NoNumericErrno(v[1..]);
    AllUpperIsWord(ErrnoName(e));
  }

  lemma NumericRoundTrip(e: i32)
    ensures ParseReturned("-errno(" + IntText(e) + ")") == Some(Err(e)) && Word("-errno(" + IntText(e) + ")")
  {
    IntRoundTrip(e);
    NumericReads(IntText(e), e);
    NumericIsWord(IntText(e));
  }

  lemma NumericReads(d: string, e: i32)
    requires ParseInt(d) == Some(e)
    ensures ParseReturned("-errno(" + d + ")") == Some(Err(e))
  {
    var v := "-errno(" + d + ")";
    var rest := v[1..];
    assert rest == "errno(" + d + ")";
    assert rest[..6] == "errno(";
    assert rest[6..|v| - 2] == d;
    assert IsNumericErrno(rest) && Wrap32(e) == e;
  }

  lemma NumericIsWord(d: string)
    requires Word(d)
    ensures Word("-errno(" + d + ")")
  {
    WordsJoin("-errno(", d);
    WordsJoin("-errno(" + d, ")");
  }

  lemma WordsJoin(a: string, b: string)
    requires Word(a) && Word(b)
    ensures Word(a + b)
  {
  }

  predicate AllUpper(s: string) { forall i :: 0 <= i < |s| ==> 'A' <= s[i] <= 'Z' }

  lemma AllUpperIsWord(s: string)
    requires AllUpper(s)
    ensures forall i :: 0 <= i < |s| ==> IsWordChar(s[i])
  {
  }

  lemma ErrnoNameIsUpper(e: int)
    ensures AllUpper(ErrnoName(e)) && (ErrnoName(e) != "" ==> ErrnoName(e)[0] == 'E')
  {
    SomeNamesAreUpper();
    OtherNamesAreUpper();
  }

  lemma SomeNamesAreUpper()
    ensures AllUpper("EPERM") && AllUpper("ENOENT") && AllUpper("ESRCH") && AllUpper("EBADF") && AllUpper("ECHILD")
    ensures AllUpper("EACCES") && AllUpper("EFAULT") && AllUpper("EEXIST") && AllUpper("EXDEV")
  {
  }

  lemma OtherNamesAreUpper()
    ensures AllUpper("ENOTDIR") && AllUpper("EISDIR") && AllUpper("EINVAL") && AllUpper("ENOTTY") && AllUpper("ESPIPE")
    ensures AllUpper("ERANGE")
    ensures AllUpper("ENOSYS") && AllUpper("ELOOP") && AllUpper("ENODATA") && AllUpper("EOPNOTSUPP")
  {
  }
}
