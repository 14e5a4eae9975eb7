/**
 * The JavaScript built-ins the core relies on, on strings modelled as
 * sequences of code points: `String.prototype.trim`, `Array.prototype.join`
 * and the decimal rendering of an integral `Number` inside a template string.
 */
module JsStrings {

  /** The code points ECMAScript counts as WhiteSpace or LineTerminator, which `trim` strips. */
  predicate IsTrimmable(c: char) {
    var n := c as int;
    || n == 0x09 || n == 0x0A || n == 0x0B || n == 0x0C || n == 0x0D
    || n == 0x20 || n == 0xA0 || n == 0x1680 || (0x2000 <= n <= 0x200A)
    || n == 0x2028 || n == 0x2029 || n == 0x202F || n == 0x205F
    || n == 0x3000 || n == 0xFEFF
  }

  /** `s` with its leading whitespace removed. */
  function TrimStart(s: string): (r: string)
    ensures |r| <= |s| && r == s[|s| - |r|..]
    ensures forall i :: 0 <= i < |s| - |r| ==> IsTrimmable(s[i])
    ensures r == [] || !IsTrimmable(r[0])
  {
    if |s| > 0 && IsTrimmable(s[0]) then TrimStart(s[1..]) else s
  }

  /** `s` with its trailing whitespace removed. */
  function TrimEnd(s: string): (r: string)
    ensures |r| <= |s| && r == s[..|r|]
    ensures forall i :: |r| <= i < |s| ==> IsTrimmable(s[i])
    ensures r == [] || !IsTrimmable(r[|r| - 1])
  {
    if |s| > 0 && IsTrimmable(s[|s| - 1]) then TrimEnd(s[..|s| - 1]) else s
  }

  /** `s.trim()`. */
  function Trim(s: string): (r: string)
  {
    TrimEnd(TrimStart(s))
  }

  /** How many leading characters `trim` removes. */
  function LeadingCut(s: string): (k: nat)
    ensures k <= |s|
  {
    |s| - |TrimStart(s)|
  }

  /** `trim` keeps the piece of the input that starts after the leading whitespace. */
  lemma TrimIsSlice(s: string)
    ensures LeadingCut(s) + |Trim(s)| <= |s|
    ensures Trim(s) == s[LeadingCut(s)..LeadingCut(s) + |Trim(s)|]
  {
    var t := TrimStart(s);
    var r := TrimEnd(t);
    var k := |s| - |t|;
    assert t == s[k..];
    assert r == t[..|r|];
  }

  /** Everything `trim` cuts away, on either side, is whitespace. */
  lemma TrimCutsWhitespace(s: string)
    ensures forall i :: 0 <= i < LeadingCut(s) ==> IsTrimmable(s[i])
    ensures forall i :: LeadingCut(s) + |Trim(s)| <= i < |s| ==> IsTrimmable(s[i])
  {
    var t := TrimStart(s);
    var r := TrimEnd(t);
    var k := |s| - |t|;
    forall i | k + |r| <= i < |s| ensures IsTrimmable(s[i]) {
      assert s[i] == t[i - k];
    }
  }

  /** What `trim` keeps neither starts nor ends with whitespace. */
  lemma TrimmedEnds(s: string)
    ensures Trim(s) == [] || (!IsTrimmable(Trim(s)[0]) && !IsTrimmable(Trim(s)[|Trim(s)| - 1]))
  {
    var t := TrimStart(s);
    var r := TrimEnd(t);
    if r != [] {
      assert r[0] == t[0];
    }
  }

  /** `s.trim()` is the empty string exactly when every character of `s` is whitespace. */
  lemma TrimEmptyIff(s: string)
    ensures Trim(s) == [] <==> forall i :: 0 <= i < |s| ==> IsTrimmable(s[i])
  {
    TrimIsSlice(s);
    TrimCutsWhitespace(s);
    var t := TrimStart(s);
    var k := LeadingCut(s);
    assert forall i :: k <= i < |s| ==> s[i] == t[i - k];
    if Trim(s) != [] {
      assert t[0] == s[k];
    }
  }

  /** A string that neither starts nor ends with whitespace is its own trim. */
  lemma TrimUnchanged(s: string)
    requires s == [] || (!IsTrimmable(s[0]) && !IsTrimmable(s[|s| - 1]))
    ensures Trim(s) == s
  {
  }

  /** Trimming twice is trimming once. */
  lemma TrimIdempotent(s: string)
    ensures Trim(Trim(s)) == Trim(s)
  {
    var r := Trim(s);
    TrimmedEnds(s);
    TrimUnchanged(r);
  }

  /** Position of the `i`-th part inside `Join(parts, sep)`. */
  function Offset(parts: seq<string>, sep: string, i: nat): nat
    requires i <= |parts|
  {
    if i == 0 then 0 else |parts[0]| + |sep| + Offset(parts[1..], sep, i - 1)
  }

  /** `parts.join(sep)`. */
  function Join(parts: seq<string>, sep: string): (r: string)
  {
    if |parts| == 0 then ""
    else if |parts| == 1 then parts[0]
    else parts[0] + sep + Join(parts[1..], sep)
  }

  /** A slice that lies inside the left operand of a concatenation. */
  lemma SliceLeft(a: string, b: string, i: nat, j: nat)
    requires i <= j <= |a|
    ensures (a + b)[i..j] == a[i..j]
  {
  }

  /** A slice that lies inside the right operand of a concatenation. */
  lemma SliceRight(a: string, b: string, i: nat, j: nat)
    requires |a| <= i <= j <= |a| + |b|
    ensures (a + b)[i..j] == b[i - |a|..j - |a|]
  {
  }

  /**
   * The `i`-th part of a join in place: it stands at `Offset(parts, sep, i)`, a
   * separator follows it unless it is the last part, and the last part ends `r`.
   */
  predicate PartInPlace(r: string, parts: seq<string>, sep: string, i: nat)
    requires i < |parts|
  {
    var o := Offset(parts, sep, i);
    && o + |parts[i]| <= |r|
    && r[o..o + |parts[i]|] == parts[i]
    && (i + 1 < |parts| ==> o + |parts[i]| + |sep| <= |r| && r[o + |parts[i]|..o + |parts[i]| + |sep|] == sep)
    && (i + 1 == |parts| ==> o + |parts[i]| == |r|)
  }

  /** The first part of a join of two or more parts is in place. */
  lemma JoinFirstInPlace(parts: seq<string>, sep: string)
    requires |parts| > 1
    ensures PartInPlace(Join(parts, sep), parts, sep, 0)
  {
    var head, tail := parts[0] + sep, Join(parts[1..], sep);
    assert Join(parts, sep) == head + tail;
    SliceLeft(head, tail, 0, |parts[0]|);
    SliceLeft(head, tail, |parts[0]|, |head|);
    assert head[..|parts[0]|] == parts[0];
    assert head[|parts[0]|..] == sep;
  }

  /** A part in place in the join of the tail is in place in the whole join. */
  lemma JoinLaterInPlace(parts: seq<string>, sep: string, i: nat)
    requires 0 < i < |parts|
    requires PartInPlace(Join(parts[1..], sep), parts[1..], sep, i - 1)
    ensures PartInPlace(Join(parts, sep), parts, sep, i)
  {
    var r, head, tail := Join(parts, sep), parts[0] + sep, Join(parts[1..], sep);
    var o', p := Offset(parts[1..], sep, i - 1), parts[i];
    var o := |head| + o';
    assert r == head + tail;
    assert parts[1..][i - 1] == p;
    assert Offset(parts, sep, i) == o;
    SliceRight(head, tail, o, o + |p|);
    assert r[o..o + |p|] == p;
    if i + 1 < |parts| {
      SliceRight(head, tail, o + |p|, o + |p| + |sep|);
      assert r[o + |p|..o + |p| + |sep|] == sep;
    }
  }

  /** Layout of a join: every part is in place. */
  lemma {:induction false} JoinAt(parts: seq<string>, sep: string, i: nat)
    requires i < |parts|
    ensures PartInPlace(Join(parts, sep), parts, sep, i)
  {
    if |parts| == 1 {
      assert Offset(parts, sep, i) == 0;
    } else if i == 0 {
      JoinFirstInPlace(parts, sep);
    } else {
      JoinAt(parts[1..], sep, i - 1);
      JoinLaterInPlace(parts, sep, i);
    }
  }

  /** Joining no parts gives the empty string; joining one part gives that part. */
  lemma JoinShort(parts: seq<string>, sep: string)
    requires |parts| <= 1
    ensures Join(parts, sep) == if parts == [] then "" else parts[0]
  {
  }

  /** The character for a decimal digit. */
  function DigitChar(d: nat): (c: char)
    requires d < 10
    ensures '0' <= c <= '9'
  {
    ('0' as int + d) as char
  }

  /** The value of a decimal digit character. */
  function DigitValue(c: char): (d: nat)
    requires '0' <= c <= '9'
    ensures d < 10
  {
    c as int - '0' as int
  }

  predicate IsDigits(s: string) {
    forall i :: 0 <= i < |s| ==> '0' <= s[i] <= '9'
  }

  /** Decimal rendering of a non-negative integer, without leading zeros. */
  function NatToDecimal(n: nat): (r: string)
    ensures |r| >= 1 && IsDigits(r)
    ensures r[0] == '0' ==> n == 0
    ensures |r| > 1 ==> r[0] != '0'
  {
    if n < 10 then [DigitChar(n)] else NatToDecimal(n / 10) + [DigitChar(n % 10)]
  }

  /** The integer a string of decimal digits denotes. */
  function DecimalValue(s: string): nat
    requires IsDigits(s)
  {
    if s == [] then 0 else DecimalValue(s[..|s| - 1]) * 10 + DigitValue(s[|s| - 1])
  }

  /** Reading back a rendered number gives the number. */
  lemma {:induction false} DecimalRoundTrip(n: nat)
    ensures DecimalValue(NatToDecimal(n)) == n
  {
    if n >= 10 {
      DecimalRoundTrip(n / 10);
      var s := NatToDecimal(n);
      assert s[..|s| - 1] == NatToDecimal(n / 10);
    }
  }

  /** `${n}` for an integral `Number` n: an optional minus sign, then decimal digits with no leading zero. */
  function NumberToString(n: int): (r: string)
    ensures n < 0 ==> |r| >= 2 && r[0] == '-' && IsDigits(r[1..]) && DecimalValue(r[1..]) == -n
    ensures n >= 0 ==> |r| >= 1 && IsDigits(r) && DecimalValue(r) == n
    ensures n >= 0 && |r| > 1 ==> r[0] != '0'
    ensures n < 0 ==> r[1] != '0'
  {
    if n < 0 then
      DecimalRoundTrip(-n);
      var r := "-" + NatToDecimal(-n);
      assert r[1..] == NatToDecimal(-n);
      r
    else
      DecimalRoundTrip(n);
      NatToDecimal(n)
  }

  /** Different non-negative integers render differently. */
  lemma NatToDecimalInjective(a: nat, b: nat)
    requires NatToDecimal(a) == NatToDecimal(b)
    ensures a == b
  {
    DecimalRoundTrip(a);
    DecimalRoundTrip(b);
  }

  /** Different integers render differently. */
  lemma NumberToStringInjective(a: int, b: int)
    requires NumberToString(a) == NumberToString(b)
    ensures a == b
  {
  }
}
