/** The optional value used for lookups that may fail. */
module Wrappers {
  datatype Option<+T> = None | Some(value: T)
}

/**
 * The pieces of the .NET string library that the program relies on, as small
 * explicit definitions: white space, Trim, Split('\t'), ASCII digits, an
 * ordinal case-insensitive comparison and decimal formatting (ToString, D3).
 */
module Text {
  import opened Sequences

  /** char.IsWhiteSpace: U+0009..U+000D, U+0020, U+0085, U+00A0 and the
      Unicode space, line and paragraph separators. */
  predicate IsWhiteSpace(c: char) {
    ('\t' <= c <= '\r') || c == ' ' || c == '\U{85}' || c == '\U{A0}' || c == '\U{1680}'
    || ('\U{2000}' <= c <= '\U{200A}') || c == '\U{2028}' || c == '\U{2029}'
    || c == '\U{202F}' || c == '\U{205F}' || c == '\U{3000}'
  }

  /** string.IsNullOrWhiteSpace (a Dafny string is never null). */
  predicate IsBlank(s: string) {
    forall i :: 0 <= i < |s| ==> IsWhiteSpace(s[i])
  }

  /** The index of the first character at or after i that is not white
      space, or |s| when there is none. */
  function SkipBlanks(s: string, i: nat): (j: nat)
    requires i <= |s|
    ensures i <= j <= |s|
    ensures forall k :: i <= k < j ==> IsWhiteSpace(s[k])
    ensures j < |s| ==> !IsWhiteSpace(s[j])
    decreases |s| - i
  {
    if i == |s| || !IsWhiteSpace(s[i]) then i else SkipBlanks(s, i + 1)
  }

  /** The end of s[lo..hi] once its trailing white space is dropped. */
  function SkipBlanksBack(s: string, lo: nat, hi: nat): (j: nat)
    requires lo <= hi <= |s|
    ensures lo <= j <= hi
    ensures forall k :: j <= k < hi ==> IsWhiteSpace(s[k])
    ensures j > lo ==> !IsWhiteSpace(s[j - 1])
    decreases hi
  {
    if hi == lo || !IsWhiteSpace(s[hi - 1]) then hi else SkipBlanksBack(s, lo, hi - 1)
  }

  /** string.Trim(): s without its leading and trailing white space. */
  function Trim(s: string): (r: string)
    ensures |r| <= |s|
    ensures r == [] <==> IsBlank(s)
    ensures r != [] ==> !IsWhiteSpace(r[0]) && !IsWhiteSpace(r[|r| - 1])
  {
    var a := SkipBlanks(s, 0);
    var b := SkipBlanksBack(s, a, |s|);
    assert a < |s| ==> a < b;
    s[a..b]
  }

  /** Trim(s) is exactly the core r of any split s == a + r + b in which a and
      b are white space and r neither starts nor ends with white space. */
  lemma TrimCharacterization(a: string, r: string, b: string)
    requires IsBlank(a) && IsBlank(b)
    requires r != [] ==> !IsWhiteSpace(r[0]) && !IsWhiteSpace(r[|r| - 1])
    ensures Trim(a + r + b) == r
  {
    var s := a + r + b;
    if r == [] {
      assert forall k :: 0 <= k < |s| ==> s[k] == if k < |a| then a[k] else b[k - |a|];
      assert IsBlank(s);
    } else {
      var i, j := |a|, |a| + |r|;
      assert s[i] == r[0] && s[j - 1] == r[|r| - 1];
      assert forall k :: 0 <= k < i ==> s[k] == a[k];
      assert forall k :: j <= k < |s| ==> s[k] == b[k - j];
      assert SkipBlanks(s, 0) == i;
      assert SkipBlanksBack(s, i, |s|) == j;
      assert s[i..j] == r;
    }
  }

  /** A word with no white space at either end is its own trim. */
  lemma TrimUntouched(w: string)
    requires w != [] && !IsWhiteSpace(w[0]) && !IsWhiteSpace(w[|w| - 1])
    ensures Trim(w) == w
  {
    var e: string := [];
    TrimCharacterization(e, w, e);
    PrependEmpty(w);
    AppendEmpty(w);
  }

  /** Trimming twice is trimming once. */
  lemma TrimIdempotent(s: string)
    ensures Trim(Trim(s)) == Trim(s)
  {
    var r := Trim(s);
    var e: string := [];
    TrimCharacterization(e, r, e);
    PrependEmpty(r);
    AppendEmpty(r);
  }

  /** string.Split('\t'): the fields between tab characters, always at least one. */
  function SplitOnTab(s: string): (parts: seq<string>)
    ensures |parts| >= 1
    ensures forall k :: 0 <= k < |parts| ==> '\t' !in parts[k]
  {
    if s == [] then [""]
    else
      var rest := SplitOnTab(s[1..]);
      if s[0] == '\t' then [""] + rest
      else [[s[0]] + rest[0]] + rest[1..]
  }

  /** string.Join("\t", parts): the inverse of SplitOnTab. */
  function JoinWithTab(parts: seq<string>): string
    requires parts != []
  {
    if |parts| == 1 then parts[0] else parts[0] + "\t" + JoinWithTab(parts[1..])
  }

  lemma JoinCons(x: string, rest: seq<string>)
    requires rest != []
    ensures JoinWithTab([x] + rest) == x + "\t" + JoinWithTab(rest)
  {
    assert ([x] + rest)[1..] == rest;
  }

  /** SplitOnTab of a string that starts with a character other than a tab:
      that character joins the first field. */
  lemma SplitCons(c: char, t: string)
    requires c != '\t'
    ensures SplitOnTab([c] + t) == [[c] + SplitOnTab(t)[0]] + SplitOnTab(t)[1..]
  {
    assert ([c] + t)[1..] == t;
  }

  /** Joining the fields of a line with tabs gives back the line. */
  lemma {:induction false} JoinSplit(s: string)
    ensures JoinWithTab(SplitOnTab(s)) == s
  {
    if s != [] {
      var c, t := s[0], s[1..];
      assert s == [c] + t;
      JoinSplit(t);
      JoinSplitStep(c, t);
    }
  }

  lemma JoinSplitStep(c: char, t: string)
    requires JoinWithTab(SplitOnTab(t)) == t
    ensures JoinWithTab(SplitOnTab([c] + t)) == [c] + t
  {
    var parts, rest := SplitOnTab([c] + t), SplitOnTab(t);
    if c == '\t' {
      TailOfCons(c, t);
      assert parts == [""] + rest;
      JoinCons("", rest);
      PrependEmpty(t);
    } else {
      SplitCons(c, t);
      var r0, tail := rest[0], rest[1..];
      ConsTail(rest);
      if tail == [] {
        AppendEmpty([r0]);
      } else {
        JoinCons([c] + r0, tail);
        JoinCons(r0, tail);
        var j := JoinWithTab(tail);
        ConcatAssoc([c], r0, "\t");
        ConcatAssoc([c], r0 + "\t", j);
      }
    }
  }

  lemma {:induction false} SplitTabFree(x: string)
    requires '\t' !in x
    ensures SplitOnTab(x) == [x]
  {
    if x != [] {
      var t := x[1..];
      assert x == [x[0]] + t;
      SplitTabFree(t);
      SplitCons(x[0], t);
    }
  }

  lemma {:induction false} SplitFirstField(x: string, y: string)
    requires '\t' !in x
    ensures SplitOnTab(x + "\t" + y) == [x] + SplitOnTab(y)
  {
    if x == [] {
      assert x + "\t" + y == "\t" + y;
      assert ("\t" + y)[1..] == y;
    } else {
      var t := x[1..];
      assert x == [x[0]] + t;
      assert x + "\t" + y == [x[0]] + (t + "\t" + y);
      SplitFirstField(t, y);
      SplitCons(x[0], t + "\t" + y);
    }
  }

  /** Splitting tab-joined tab-free fields gives back the fields. */
  lemma {:induction false} SplitJoin(parts: seq<string>)
    requires parts != []
    requires forall k :: 0 <= k < |parts| ==> '\t' !in parts[k]
    ensures SplitOnTab(JoinWithTab(parts)) == parts
  {
    if |parts| == 1 {
      SplitTabFree(parts[0]);
    } else {
      SplitJoin(parts[1..]);
      SplitFirstField(parts[0], JoinWithTab(parts[1..]));
    }
  }

  /** The simple upper-case mapping of the ASCII letters. */
  function ToUpperAscii(c: char): char {
    if 'a' <= c <= 'z' then (c as int - 32) as char else c
  }

  /** string.Equals(a, b, StringComparison.OrdinalIgnoreCase), on the ASCII letters. */
  predicate EqualsIgnoreCase(a: string, b: string) {
    |a| == |b| && forall i :: 0 <= i < |a| ==> ToUpperAscii(a[i]) == ToUpperAscii(b[i])
  }

  /** char.IsDigit, restricted to the ASCII digits. */
  predicate IsDigit(c: char) {
    '0' <= c <= '9'
  }

  /** The value c - '0' of a digit. */
  function DigitValue(c: char): (d: nat)
    requires IsDigit(c)
    ensures d < 10
  {
    c as int - '0' as int
  }

  function DigitChar(d: nat): (c: char)
    requires d < 10
    ensures IsDigit(c) && DigitValue(c) == d
  {
    ('0' as int + d) as char
  }

  predicate AllDigits(s: string) {
    forall i :: 0 <= i < |s| ==> IsDigit(s[i])
  }

  /** The number a string of decimal digits denotes. */
  function DecimalValue(s: string): nat
    requires AllDigits(s)
  {
    if s == [] then 0 else DecimalValue(s[..|s| - 1]) * 10 + DigitValue(s[|s| - 1])
  }

  /** int.ToString() of a non-negative number: its decimal digits, no leading zero. */
  function DecimalString(n: nat): (r: string)
    ensures r != [] && AllDigits(r)
    ensures r[0] == '0' ==> n == 0 && |r| == 1
    decreases n
  {
    if n < 10 then [DigitChar(n)] else DecimalString(n / 10) + [DigitChar(n % 10)]
  }

  /** Reading back the digits of DecimalString(n) gives n. */
  lemma {:induction false} DecimalRoundTrip(n: nat)
    ensures DecimalValue(DecimalString(n)) == n
    decreases n
  {
    if n < 10 {
      assert DecimalString(n)[..0] == [];
    } else {
      var r := DecimalString(n);
      assert r[..|r| - 1] == DecimalString(n / 10);
      DecimalRoundTrip(n / 10);
    }
  }

  function Zeros(k: nat): (r: string)
    ensures |r| == k && AllDigits(r)
    ensures forall i :: 0 <= i < k ==> r[i] == '0'
  {
    seq(k, _ => '0')
  }

  lemma {:induction false} LeadingZerosValue(k: nat, d: string)
    requires AllDigits(d)
    ensures AllDigits(Zeros(k) + d) && DecimalValue(Zeros(k) + d) == DecimalValue(d)
    decreases |d|
  {
    var s := Zeros(k) + d;
    if d == [] {
      assert s == Zeros(k);
      ZerosValue(k);
    } else {
      assert s[..|s| - 1] == Zeros(k) + d[..|d| - 1];
      LeadingZerosValue(k, d[..|d| - 1]);
    }
  }

  lemma {:induction false} ZerosValue(k: nat)
    ensures DecimalValue(Zeros(k)) == 0
  {
    if k > 0 {
      assert Zeros(k)[..k - 1] == Zeros(k - 1);
      ZerosValue(k - 1);
    }
  }

  /** The "D3" format of a non-negative number: its digits, padded on the left
      with zeros to at least three characters. */
  function FormatD3(n: nat): (r: string)
    ensures AllDigits(r) && |r| >= 3
    ensures DecimalValue(r) == n
    ensures |r| > 3 ==> r[0] != '0'
  {
    var d := DecimalString(n);
    DecimalRoundTrip(n);
    var k := if |d| < 3 then 3 - |d| else 0;
    LeadingZerosValue(k, d);
    assert k == 0 ==> Zeros(k) + d == d;
    Zeros(k) + d
  }
}
