/** Small helpers shared by the model: the byte type, an optional value, and the few
    C/C++ library text routines the firmware relies on (decimal rendering by an
    ostringstream or str(), atoi, std::string::find, and NUL-terminated strings). */
module Common {

  /** An unsigned 8-bit value (uint8_t). */
  newtype byte = x: int | 0 <= x < 256

  datatype Option<T> = None | Some(value: T)

  predicate IsDigit(c: char) { '0' <= c <= '9' }

  function DigitChar(d: nat): (c: char)
    requires d < 10
    ensures IsDigit(c) && (c as int) - ('0' as int) == d
  {
    ('0' as int + d) as char
  }

  /** Decimal rendering of a natural number, most significant digit first. */
  function NatToString(n: nat): (s: string)
    ensures |s| >= 1
    ensures forall i :: 0 <= i < |s| ==> IsDigit(s[i])
  {
    if n < 10 then [DigitChar(n)] else NatToString(n / 10) + [DigitChar(n % 10)]
  }

  /** Decimal rendering of an int as `ostringstream << n` produces it. */
  function IntToString(n: int): string
  {
    if n < 0 then "-" + NatToString(-n) else NatToString(n)
  }

  function DigitValue(c: char): nat
    requires IsDigit(c)
  {
    (c as int) - ('0' as int)
  }

  /** The value of a string of decimal digits. */
  function DigitsValue(ds: string): nat
    requires forall i :: 0 <= i < |ds| ==> IsDigit(ds[i])
  {
    if ds == [] then 0
    else DigitsValue(ds[..|ds| - 1]) * 10 + DigitValue(ds[|ds| - 1])
  }

  /** The longest prefix of `s` made of decimal digits. */
  function LeadingDigits(s: string): (ds: string)
    ensures |ds| <= |s| && ds == s[..|ds|]
    ensures forall i :: 0 <= i < |ds| ==> IsDigit(ds[i])
    ensures |ds| < |s| ==> !IsDigit(s[|ds|])
  {
    if s == [] || !IsDigit(s[0]) then [] else [s[0]] + LeadingDigits(s[1..])
  }

  /** The white-space characters C's isspace accepts. */
  predicate IsSpace(c: char) { c == ' ' || c == '\t' || c == '\n' || c == '\r' || c == 11 as char || c == 12 as char }

  function SkipSpace(s: string): (t: string)
    ensures |t| <= |s| && t == s[|s| - |t|..]
    ensures t == [] || !IsSpace(t[0])
  {
    if s != [] && IsSpace(s[0]) then SkipSpace(s[1..]) else s
  }

  /** C's atoi: leading white space, an optional sign, then as many digits as follow.
      A string without digits yields 0. (Overflow is not modelled: the value is unbounded.) */
  function Atoi(s: string): int
  {
    var t := SkipSpace(s);
    if t != [] && t[0] == '-' then -(DigitsValue(LeadingDigits(t[1..])) as int)
    else if t != [] && t[0] == '+' then DigitsValue(LeadingDigits(t[1..]))
    else DigitsValue(LeadingDigits(t))
  }

  lemma {:induction false} DigitsValueOfNatToString(n: nat)
    ensures DigitsValue(NatToString(n)) == n
  {
    var s := NatToString(n);
    if n >= 10 {
      DigitsValueOfNatToString(n / 10);
      assert s[..|s| - 1] == NatToString(n / 10);
    }
  }

  lemma {:induction false} LeadingDigitsOfDigits(ds: string)
    requires forall i :: 0 <= i < |ds| ==> IsDigit(ds[i])
    ensures LeadingDigits(ds) == ds
  {
    if ds != [] {
      LeadingDigitsOfDigits(ds[1..]);
    }
  }

  lemma {:induction false} ReadBackDigits(n: nat)
    ensures DigitsValue(LeadingDigits(NatToString(n))) == n
  {
    LeadingDigitsOfDigits(NatToString(n));
    DigitsValueOfNatToString(n);
  }

  /** atoi of a digit string is its value. */
  lemma AtoiOfDigits(ds: string)
    requires |ds| >= 1 && forall i :: 0 <= i < |ds| ==> IsDigit(ds[i])
    ensures Atoi(ds) == DigitsValue(ds)
  {
    assert !IsSpace(ds[0]);
    assert SkipSpace(ds) == ds;
    LeadingDigitsOfDigits(ds);
  }

  /** atoi of a minus sign followed by a digit string is minus its value. */
  lemma AtoiOfNegatedDigits(ds: string)
    requires |ds| >= 1 && forall i :: 0 <= i < |ds| ==> IsDigit(ds[i])
    ensures Atoi(['-'] + ds) == -(DigitsValue(ds) as int)
  {
    var m := ['-'] + ds;
    assert m[1..] == ds;
    assert SkipSpace(m) == m;
    LeadingDigitsOfDigits(ds);
  }

  /** atoi reads back exactly the number the decimal rendering wrote. */
  lemma {:induction false} AtoiOfIntToString(n: int)
    ensures Atoi(IntToString(n)) == n
  {
    if n < 0 {
      assert IntToString(n) == ['-'] + NatToString(-n);
      AtoiOfNegatedDigits(NatToString(-n));
      DigitsValueOfNatToString(-n);
    } else {
      AtoiOfDigits(NatToString(n));
      DigitsValueOfNatToString(n);
    }
  }

  /** `s` holds `pat` starting at index `i`. */
  predicate OccursAt(s: string, pat: string, i: int)
  {
    0 <= i && i + |pat| <= |s| && s[i..i + |pat|] == pat
  }

  /** std::string::find(pat, from): an index at or after `from` where `pat` occurs, or
      None for string::npos; FindIsFirst shows it is the least such index. */
  function Find(s: string, pat: string, from: nat): (r: Option<nat>)
    decreases |s| - from
    ensures r.Some? ==> from <= r.value && OccursAt(s, pat, r.value)
  {
    if from + |pat| > |s| then None
    else if s[from..from + |pat|] == pat then Some(from)
    else Find(s, pat, from + 1)
  }

  /** find skips no occurrence: nothing occurs between `from` and its answer, and nothing
      at all at or after `from` when it answers npos. */
  lemma {:induction false} FindIsFirst(s: string, pat: string, from: nat)
    decreases |s| - from
    ensures Find(s, pat, from).Some? ==> forall j :: from <= j < Find(s, pat, from).value ==> !OccursAt(s, pat, j)
    ensures Find(s, pat, from).None? ==> forall j :: from <= j ==> !OccursAt(s, pat, j)
  {
    if from + |pat| <= |s| && s[from..from + |pat|] != pat {
      FindIsFirst(s, pat, from + 1);
    }
  }

  /** find answers the first occurrence at or after `from`. */
  lemma FindFirst(s: string, pat: string, from: nat, k: nat)
    requires from <= k && OccursAt(s, pat, k)
    requires forall j :: from <= j < k ==> !OccursAt(s, pat, j)
    ensures Find(s, pat, from) == Some(k)
  {
    FindIsFirst(s, pat, from);
  }

  /** The characters of a NUL-terminated buffer up to (not including) its first NUL. */
  function CString(b: seq<byte>): (s: seq<byte>)
    ensures |s| <= |b| && s == b[..|s|]
    ensures forall i :: 0 <= i < |s| ==> s[i] != 0
    ensures |s| < |b| ==> b[|s|] == 0
  {
    if b == [] || b[0] == 0 then [] else [b[0]] + CString(b[1..])
  }

  /** Bytes read as characters, one to one (the firmware's strings are byte strings). */
  function Latin1(b: seq<byte>): (s: string)
    ensures |s| == |b|
    ensures forall i :: 0 <= i < |b| ==> s[i] as int == b[i] as int
  {
    seq(|b|, i requires 0 <= i < |b| => (b[i] as int) as char)
  }
}
