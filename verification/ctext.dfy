/**
 The two C library routines whose exact behaviour the helper's decisions depend on:
 strstr(3), used as a prefix test on mount directories, and strtol(3) in base 10,
 used to read the numeric user and group ids. Strings are the characters before the
 terminating NUL.
 */
module CText {
  import opened Wrappers

  // ---------------------------------------------------------------------------
  // strstr
  // ---------------------------------------------------------------------------

  /** The index of the leftmost occurrence of `needle` in `hay`, or None, as strstr(3) finds it. */
  function StrStr(hay: string, needle: string): (r: Option<nat>)
    ensures r.Some? ==> r.value <= |hay| && needle <= hay[r.value..]
    ensures r.Some? ==> forall j :: 0 <= j < r.value ==> !(needle <= hay[j..])
    ensures r.None? ==> forall j :: 0 <= j <= |hay| ==> !(needle <= hay[j..])
  {
    FindFrom(hay, needle, 0)
  }

  /** The leftmost occurrence of `needle` in `hay` at or after index `i`. */
  function FindFrom(hay: string, needle: string, i: nat): (r: Option<nat>)
    requires i <= |hay|
    ensures r.Some? ==> i <= r.value <= |hay| && needle <= hay[r.value..]
    ensures r.Some? ==> forall j :: i <= j < r.value ==> !(needle <= hay[j..])
    ensures r.None? ==> forall j :: i <= j <= |hay| ==> !(needle <= hay[j..])
    decreases |hay| - i
  {
    if needle <= hay[i..] then Some(i)
    else if i == |hay| then None
    else FindFrom(hay, needle, i + 1)
  }

  /** strstr(hay, needle) returns hay itself exactly when needle is a prefix of hay;
      this is the test the remount loop uses to pick mounts under the new root. */
  lemma StrStrAtStart(hay: string, needle: string)
    ensures StrStr(hay, needle) == Some(0) <==> needle <= hay
  {
    assert hay[0..] == hay;
  }

  // ---------------------------------------------------------------------------
  // strtol, base 10
  // ---------------------------------------------------------------------------

  /** isspace(3) in the C locale. */
  predicate IsSpace(c: char) {
    c == ' ' || c == '\t' || c == '\n' || c == '\U{B}' || c == '\U{C}' || c == '\r'
  }

  predicate IsDigit(c: char) {
    '0' <= c <= '9'
  }

  predicate IsSign(c: char) {
    c == '+' || c == '-'
  }

  predicate AllSpaces(s: string) {
    forall k :: 0 <= k < |s| ==> IsSpace(s[k])
  }

  predicate AllDigits(s: string) {
    forall k :: 0 <= k < |s| ==> IsDigit(s[k])
  }

  function DigitValue(c: char): nat
    requires IsDigit(c)
  {
    (c as int) - ('0' as int)
  }

  /** The number a run of decimal digits denotes, most significant digit first. */
  function DecimalValue(ds: string): nat
    requires AllDigits(ds)
    decreases |ds|
  {
    if ds == [] then 0
    else DecimalValue(ds[..|ds| - 1]) * 10 + DigitValue(ds[|ds| - 1])
  }

  /** The end of the run of white space starting at `i`. */
  function SkipSpaces(s: string, i: nat): (e: nat)
    requires i <= |s|
    ensures i <= e <= |s|
    ensures AllSpaces(s[i..e])
    ensures e == |s| || !IsSpace(s[e])
    decreases |s| - i
  {
    if i < |s| && IsSpace(s[i]) then SkipSpaces(s, i + 1) else i
  }

  /** The end of the run of digits starting at `i`. */
  function SkipDigits(s: string, i: nat): (e: nat)
    requires i <= |s|
    ensures i <= e <= |s|
    ensures AllDigits(s[i..e])
    ensures e == |s| || !IsDigit(s[e])
    decreases |s| - i
  {
    if i < |s| && IsDigit(s[i]) then SkipDigits(s, i + 1) else i
  }

  /** What strtol(s, &end, 10) computes: the value read and how far `end` lies past `s`. */
  datatype Conversion = Conversion(value: int, consumed: nat)

  /** strtol(s, &end, 10): leading white space, an optional sign, then the longest run of
      digits. When there are no digits nothing is consumed and the value is 0. */
  function StrToL(s: string): (c: Conversion)
    ensures c.consumed <= |s|
    ensures c.consumed == 0 ==> c.value == 0
    ensures c.consumed > 0 ==> IsDigit(s[c.consumed - 1])
    ensures c.consumed > 0 ==> c.consumed == |s| || !IsDigit(s[c.consumed])
  {
    var i := SkipSpaces(s, 0);
    var j := if i < |s| && IsSign(s[i]) then i + 1 else i;
    var e := SkipDigits(s, j);
    if e == j then Conversion(0, 0)
    else
      var n := DecimalValue(s[j..e]);
      Conversion(if i < |s| && s[i] == '-' then -(n as int) else n, e)
  }

  /** The helper's id check: reject when the text is empty or strtol leaves characters
      unconsumed. Nothing else is checked: a sign, leading blanks and negative values pass. */
  function ParseId(s: string): Option<int> {
    var c := StrToL(s);
    if |s| == 0 || c.consumed != |s| then None else Some(c.value)
  }

  // ---------------------------------------------------------------------------
  // An independent description of the accepted texts
  // ---------------------------------------------------------------------------

  /** The value a sign part gives to a magnitude. */
  function Signed(sign: string, n: nat): int {
    if |sign| > 0 && sign[0] == '-' then -(n as int) else n
  }

  /** `s` is blanks, then an optional sign, then one or more digits denoting `v`. */
  ghost predicate DecimalText(s: string, v: int) {
    exists i, j :: 0 <= i <= j < |s| && DecimalSplit(s, i, j) && v == Signed(s[i..j], DecimalValue(s[j..]))
  }

  /** `s[..i]` is blanks, `s[i..j]` an optional sign and `s[j..]` digits. */
  predicate DecimalSplit(s: string, i: nat, j: nat)
    requires i <= j <= |s|
  {
    && AllSpaces(s[..i])
    && (j == i || (j == i + 1 && IsSign(s[i])))
    && AllDigits(s[j..])
  }

  /** A run of blanks that ends at a non-blank is the one SkipSpaces finds. */
  lemma {:induction false} SkipSpacesUnique(s: string, k: nat, i: nat)
    requires k <= i <= |s|
    requires AllSpaces(s[k..i])
    requires i == |s| || !IsSpace(s[i])
    ensures SkipSpaces(s, k) == i
    decreases i - k
  {
    if k < i {
      assert IsSpace(s[k..i][0]);
      assert s[k + 1..i] == s[k..i][1..];
      SkipSpacesUnique(s, k + 1, i);
    }
  }

  /** A run of digits starting at `k` is consumed at least up to its end. */
  lemma {:induction false} SkipDigitsPast(s: string, k: nat, e: nat)
    requires k <= e <= |s|
    requires AllDigits(s[k..e])
    ensures e <= SkipDigits(s, k)
    decreases e - k
  {
    if k < e {
      assert IsDigit(s[k..e][0]);
      assert s[k + 1..e] == s[k..e][1..];
      SkipDigitsPast(s, k + 1, e);
    }
  }

  /** The blanks, sign and digits of a number at the start of `s[..e]` are the runs
      strtol scans in `s`; its digit run reaches at least `e`. */
  lemma ScanOfSplit(s: string, e: nat, i: nat, j: nat)
    requires i <= j < e <= |s| && DecimalSplit(s[..e], i, j)
    ensures SkipSpaces(s, 0) == i
    ensures j == (if IsSign(s[i]) then i + 1 else i)
    ensures AllDigits(s[j..e])
    ensures e <= SkipDigits(s, j)
  {
    var u := s[..e];
    assert u[..i] == s[0..i];
    assert u[j..] == s[j..e];
    assert IsDigit(s[j..e][0]);
    assert !IsSpace(s[i]);
    SkipSpacesUnique(s, 0, i);
    SkipDigitsPast(s, j, e);
  }

  /** What strtol consumes is a number: blanks, an optional sign and at least one digit,
      and the value it yields is the signed value of those digits. */
  lemma StrToLReadsNumber(s: string)
    ensures var c := StrToL(s); c.consumed > 0 ==> DecimalText(s[..c.consumed], c.value)
  {
    var c := StrToL(s);
    if c.consumed > 0 {
      var i := SkipSpaces(s, 0);
      var j := if i < |s| && IsSign(s[i]) then i + 1 else i;
      var e := c.consumed;
      assert e == SkipDigits(s, j) && j < e;
      var u := s[..e];
      assert u[..i] == s[0..i];
      assert u[i..j] == s[i..j];
      assert u[j..] == s[j..e];
      assert DecimalSplit(u, i, j);
      assert |s[i..j]| > 0 ==> s[i..j][0] == s[i];
      assert c.value == Signed(u[i..j], DecimalValue(u[j..]));
    }
  }

  /** strtol takes the longest number at the start of the text: every prefix that is a
      number is consumed. */
  lemma StrToLLongest(s: string, e: nat, v: int)
    requires e <= |s| && DecimalText(s[..e], v)
    ensures e <= StrToL(s).consumed
  {
    var u := s[..e];
    var i, j :| 0 <= i <= j < |u| && DecimalSplit(u, i, j) && v == Signed(u[i..j], DecimalValue(u[j..]));
    ScanOfSplit(s, e, i, j);
  }

  /** strtol consumes something exactly when the text starts with a number. */
  lemma StrToLConsumesIff(s: string)
    ensures StrToL(s).consumed > 0 <==> exists e, v :: 0 <= e <= |s| && DecimalText(s[..e], v)
  {
    StrToLReadsNumber(s);
    if exists e, v :: 0 <= e <= |s| && DecimalText(s[..e], v) {
      var e, v :| 0 <= e <= |s| && DecimalText(s[..e], v);
      StrToLLongest(s, e, v);
    }
  }

  /** strtol reads `v` and stops at `e` exactly when `s[..e]` is a number with value `v`
      that is not followed by another digit. */
  lemma StrToLIff(s: string, e: nat, v: int)
    requires 0 < e <= |s|
    ensures StrToL(s) == Conversion(v, e) <==> DecimalText(s[..e], v) && (e == |s| || !IsDigit(s[e]))
  {
    StrToLReadsNumber(s);
    if DecimalText(s[..e], v) && (e == |s| || !IsDigit(s[e])) {
      StrToLOfNumber(s, e, v);
    }
  }

  /** A number that is not followed by another digit is what strtol reads. */
  lemma StrToLOfNumber(s: string, e: nat, v: int)
    requires 0 < e <= |s| && DecimalText(s[..e], v)
    requires e == |s| || !IsDigit(s[e])
    ensures StrToL(s) == Conversion(v, e)
  {
    var u := s[..e];
    var i, j :| 0 <= i <= j < |u| && DecimalSplit(u, i, j) && v == Signed(u[i..j], DecimalValue(u[j..]));
    ScanOfSplit(s, e, i, j);
    DigitsEndAt(s, j, e);
    assert u[i..j] == s[i..j];
    assert u[j..] == s[j..e];
    StrToLOfScan(s, i, j, e);
  }

  /** A digit run that reaches `e` and is not followed by a digit ends at `e`. */
  lemma DigitsEndAt(s: string, j: nat, e: nat)
    requires j <= e <= |s| && e <= SkipDigits(s, j)
    requires e == |s| || !IsDigit(s[e])
    ensures SkipDigits(s, j) == e
  {
  }

  /** Given the runs strtol scans, the conversion is the signed value of the digits. */
  lemma StrToLOfScan(s: string, i: nat, j: nat, e: nat)
    requires i <= j < e <= |s|
    requires SkipSpaces(s, 0) == i
    requires j == (if IsSign(s[i]) then i + 1 else i)
    requires SkipDigits(s, j) == e
    ensures StrToL(s) == Conversion(Signed(s[i..j], DecimalValue(s[j..e])), e)
  {
    assert |s[i..j]| > 0 ==> s[i..j][0] == s[i];
  }

  /** The id check accepts exactly the texts made of blanks, an optional sign and at
      least one digit, and yields the signed value of those digits. */
  lemma ParseIdIff(s: string, v: int)
    ensures ParseId(s) == Some(v) <==> DecimalText(s, v)
  {
    if |s| > 0 {
      StrToLIff(s, |s|, v);
      assert s[..|s|] == s;
    }
  }

  // ---------------------------------------------------------------------------
  // Ids written in decimal are read back unchanged
  // ---------------------------------------------------------------------------

  function DigitChar(d: nat): char
    requires d < 10
  {
    ('0' as int + d) as char
  }

  /** `n` in decimal without leading zeros, as printf's %ld writes it. */
  function DecimalString(n: nat): string
    decreases n
  {
    if n < 10 then [DigitChar(n)] else DecimalString(n / 10) + [DigitChar(n % 10)]
  }

  /** `v` as printf's %ld writes it. */
  function IdText(v: int): string {
    if v < 0 then "-" + DecimalString(-v) else DecimalString(v)
  }

  lemma {:induction false} DecimalStringDigits(n: nat)
    ensures |DecimalString(n)| > 0
    ensures AllDigits(DecimalString(n))
    ensures DecimalValue(DecimalString(n)) == n
    decreases n
  {
    if n >= 10 {
      var t := DecimalString(n / 10);
      DecimalStringDigits(n / 10);
      var u := t + [DigitChar(n % 10)];
      assert u[..|u| - 1] == t;
    }
  }

  /** Every id printed in decimal, negative ones included, passes the check and reads back as itself. */
  lemma ParseIdOfIdText(v: int)
    ensures ParseId(IdText(v)) == Some(v)
  {
    var s := IdText(v);
    var j := if v < 0 then 1 else 0;
    var n: nat := if v < 0 then -v else v;
    DecimalStringDigits(n);
    assert s[j..] == DecimalString(n);
    assert s[0..j] == (if v < 0 then "-" else "");
    assert DecimalSplit(s, 0, j);
    ParseIdIff(s, v);
  }

  /** A negative id is accepted: the check does not demand a non-negative number. */
  lemma ParseIdAcceptsNegative()
    ensures ParseId("-1") == Some(-1)
  {
    assert "-1"[..0] == [] && "-1"[0..1] == "-" && "-1"[1..] == "1";
    assert DecimalSplit("-1", 0, 1);
    ParseIdIff("-1", -1);
  }

  /** Leading blanks and a plus sign are accepted. */
  lemma ParseIdAcceptsBlanksAndPlus()
    ensures ParseId(" +7") == Some(7)
  {
    assert " +7"[..1] == " " && " +7"[1..2] == "+" && " +7"[2..] == "7";
    assert DecimalSplit(" +7", 1, 2);
    ParseIdIff(" +7", 7);
  }

  /** The empty text, trailing garbage, trailing blanks and a lone sign are rejected. */
  lemma ParseIdRejects()
    ensures ParseId("") == None
    ensures ParseId("5x") == None
    ensures ParseId("7 ") == None
    ensures ParseId("-") == None
  {
  }
}
