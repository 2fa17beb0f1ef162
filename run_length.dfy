/**
 * The run-length notation of search queries: a digit d followed by a
 * character a stands for a repeated d times (RLDecoding), and the encoder
 * that writes runs of 3 to 9 equal characters that way (RLEncoding).
 */
module RunLength {
  import opened Text
  import opened Sequences

  /** c repeated n times. */
  function Repeat(c: char, n: nat): (r: string)
    ensures |r| == n && forall k :: 0 <= k < n ==> r[k] == c
  {
    seq(n, _ => c)
  }

  predicate DigitFree(s: string) {
    forall i :: 0 <= i < |s| ==> !IsDigit(s[i])
  }

  /** The meaning of the notation, read left to right. */
  function Decode(s: string): string
    decreases |s|
  {
    if s == [] then []
    else if IsDigit(s[0]) then
      if |s| == 1 then [s[0]]
      else Repeat(s[1], DigitValue(s[0])) + Decode(s[2..])
    else [s[0]] + Decode(s[1..])
  }

  /** Characters other than digits are copied, so a string without digits
      decodes to itself. */
  lemma {:induction false} DecodeDigitFree(s: string)
    requires DigitFree(s)
    ensures Decode(s) == s
    decreases |s|
  {
    if s != [] {
      DecodeDigitFree(s[1..]);
      assert s == [s[0]] + s[1..];
    }
  }

  /** Decoding s stops on a digit that still waits for the character after it:
      s ends in a digit that is not itself a repeated character. */
  predicate PendingDigit(s: string)
    decreases |s|
  {
    if s == [] then false
    else if IsDigit(s[0]) then |s| == 1 || PendingDigit(s[2..])
    else PendingDigit(s[1..])
  }

  /** A prefix that leaves no digit pending decodes on its own. */
  lemma {:induction false} DecodeAppend(p: string, q: string)
    requires !PendingDigit(p)
    ensures Decode(p + q) == Decode(p) + Decode(q)
    decreases |p|
  {
    if p == [] {
      assert p + q == q;
    } else if IsDigit(p[0]) {
      assert (p + q)[2..] == p[2..] + q;
      DecodeAppend(p[2..], q);
    } else {
      assert (p + q)[1..] == p[1..] + q;
      DecodeAppend(p[1..], q);
    }
  }

  /** Where decoding reaches a digit d followed by any character a (a digit
      too), it emits a exactly d times and goes on after a. */
  lemma DecodeRepeats(p: string, d: char, a: char, q: string)
    requires !PendingDigit(p) && IsDigit(d)
    ensures Decode(p + [d, a] + q) == Decode(p) + Repeat(a, DigitValue(d)) + Decode(q)
  {
    assert p + [d, a] + q == p + ([d, a] + q);
    DecodeAppend(p, [d, a] + q);
    assert ([d, a] + q)[2..] == q;
  }

  /** A digit in last position, with nothing to repeat, is emitted as itself. */
  lemma TrailingDigitKept(p: string, d: char)
    requires !PendingDigit(p) && IsDigit(d)
    ensures Decode(p + [d]) == Decode(p) + [d]
  {
    DecodeAppend(p, [d]);
  }

  /** The length of the run of s[0] at the head of s, cut at 9, as the inner
      scan of RLEncoding measures it. */
  function LeadingRun(s: string): (n: nat)
    requires s != []
    ensures 1 <= n <= |s| && n <= 9
    ensures forall k :: 0 <= k < n ==> s[k] == s[0]
    ensures n < |s| && n < 9 ==> s[n] != s[0]
  {
    RunFrom(s, 1)
  }

  function RunFrom(s: string, j: nat): (n: nat)
    requires 1 <= j <= |s| && j <= 9
    requires forall k :: 0 <= k < j ==> s[k] == s[0]
    ensures j <= n <= |s| && n <= 9
    ensures forall k :: 0 <= k < n ==> s[k] == s[0]
    ensures n < |s| && n < 9 ==> s[n] != s[0]
    decreases |s| - j
  {
    if j < |s| && s[j] == s[0] && j < 9 then RunFrom(s, j + 1) else j
  }

  /** The three facts LeadingRun promises determine it. */
  lemma LeadingRunUnique(s: string, m: nat)
    requires s != [] && 1 <= m <= |s| && m <= 9
    requires forall k :: 0 <= k < m ==> s[k] == s[0]
    requires m < |s| && m < 9 ==> s[m] != s[0]
    ensures m == LeadingRun(s)
  {
  }

  /** Encoding at position i of s emits the run s[i..j] that the scan
      measured, then continues at j. */
  lemma EncodeStep(s: string, i: nat, j: nat)
    requires i < j <= |s| && j - i <= 9
    requires forall k :: i <= k < j ==> s[k] == s[i]
    requires j < |s| && j - i < 9 ==> s[j] != s[i]
    ensures Encode(s[i..]) == Chunk(s[i], j - i) + Encode(s[j..])
  {
    LeadingRunUnique(s[i..], j - i);
    assert s[i..][j - i..] == s[j..];
  }

  /** What one run of n copies of c becomes. */
  function Chunk(c: char, n: nat): string
    requires 1 <= n <= 9
  {
    if n >= 3 then [DigitChar(n), c] else Repeat(c, n)
  }

  /** The encoding, run after run. */
  function Encode(s: string): string
    decreases |s|
  {
    if s == [] then []
    else
      var n := LeadingRun(s);
      Chunk(s[0], n) + Encode(s[n..])
  }

  /** An encoding is never longer than its input: a run of 3 or more
      shrinks to two characters, a shorter one is copied. */
  lemma {:induction false} EncodeNoLonger(s: string)
    ensures |Encode(s)| <= |s|
    decreases |s|
  {
    if s != [] {
      EncodeNoLonger(s[LeadingRun(s)..]);
    }
  }

  /** A run of n <= 9 copies of c that is cut there (the next character
      differs, or n is 9) becomes "<n><c>" when n >= 3 and stays literal
      otherwise; then encoding goes on with the rest. */
  lemma EncodeRun(c: char, n: nat, t: string)
    requires 1 <= n <= 9
    requires n == 9 || t == [] || t[0] != c
    ensures Encode(Repeat(c, n) + t) == (if n >= 3 then [DigitChar(n), c] else Repeat(c, n)) + Encode(t)
  {
    var s := Repeat(c, n) + t;
    LeadingRunUnique(s, n);
    assert s[n..] == t;
  }

  /** Twelve equal characters become two groups, "9c" then "3c". */
  lemma EncodeTwelve(c: char)
    ensures Encode(Repeat(c, 12)) == [DigitChar(9), c, DigitChar(3), c]
  {
    assert Repeat(c, 12) == Repeat(c, 9) + Repeat(c, 3);
    EncodeRun(c, 9, Repeat(c, 3));
    assert Repeat(c, 3) == Repeat(c, 3) + [];
    EncodeRun(c, 3, []);
  }

  /** One chunk of a character that is not a digit decodes back to its run. */
  lemma DecodeChunk(c: char, n: nat, t: string)
    requires 1 <= n <= 9 && !IsDigit(c)
    ensures Decode(Chunk(c, n) + t) == Repeat(c, n) + Decode(t)
  {
    if n >= 3 {
      DecodeRepeats([], DigitChar(n), c, t);
      assert [] + [DigitChar(n), c] + t == Chunk(c, n) + t;
    } else if n == 2 {
      assert (Chunk(c, n) + t)[1..] == [c] + t;
      assert ([c] + t)[1..] == t;
      assert Repeat(c, n) == [c, c];
    } else {
      assert (Chunk(c, n) + t)[1..] == t;
      assert Repeat(c, n) == [c];
    }
  }

  /** A string is its leading run followed by the rest. */
  lemma RunSplit(s: string)
    requires s != []
    ensures s == Repeat(s[0], LeadingRun(s)) + s[LeadingRun(s)..]
  {
    var n := LeadingRun(s);
    var t := Repeat(s[0], n) + s[n..];
    assert |t| == |s|;
    forall k | 0 <= k < |s|
      ensures t[k] == s[k]
    {
      if k < n {
        assert t[k] == s[0];
      } else {
        assert t[k] == s[n..][k - n];
      }
    }
  }

  /** Decoding undoes encoding on every string without digit characters. */
  lemma {:induction false} DecodeEncode(s: string)
    requires DigitFree(s)
    ensures Decode(Encode(s)) == s
    decreases |s|
  {
    if s != [] {
      var c, n := s[0], LeadingRun(s);
      var rest := s[n..];
      assert DigitFree(rest);
      var er := Encode(rest);
      assert Encode(s) == Chunk(c, n) + er;
      DecodeEncode(rest);
      DecodeChunk(c, n, er);
      RunSplit(s);
    }
  }

  /** Decoding from position i of s: what the character at i produces,
      then the decoding from where it stops. */
  lemma DecodeFrom(s: string, i: nat)
    requires i < |s|
    ensures IsDigit(s[i]) && i + 1 < |s| ==>
      Decode(s[i..]) == Repeat(s[i + 1], DigitValue(s[i])) + Decode(s[i + 2..])
    ensures !(IsDigit(s[i]) && i + 1 < |s|) ==> Decode(s[i..]) == [s[i]] + Decode(s[i + 1..])
  {
    assert s[i..][1..] == s[i + 1..];
    if i + 1 < |s| {
      assert s[i..][2..] == s[i + 2..];
    } else {
      assert s[i + 1..] == [];
    }
  }

  /** RLDecoding: one left-to-right pass with a string builder. */
  method RLDecoding(s: string) returns (r: string)
    ensures r == Decode(s)
  {
    if s == [] {
      return s;
    }
    var sb := "";
    var i := 0;
    assert s[0..] == s;
    while i < |s|
      invariant 0 <= i <= |s|
      invariant sb + Decode(s[i..]) == Decode(s)
    {
      ghost var before, from := sb, i;
      DecodeFrom(s, i);
      var c := s[i];
      if IsDigit(c) {
        var n := DigitValue(c);
        if i + 1 < |s| {
          var a := s[i + 1];
          for k := 0 to n
            invariant sb == before + Repeat(a, k)
          {
            sb := sb + [a];
          }
          i := i + 1;
          ConcatShift(before, Repeat(a, n), Decode(s[from..]), Decode(s[i + 1..]), Decode(s), sb);
        } else {
          sb := sb + [c];
          ConcatShift(before, [c], Decode(s[from..]), Decode(s[i + 1..]), Decode(s), sb);
        }
      } else {
        sb := sb + [c];
        ConcatShift(before, [c], Decode(s[from..]), Decode(s[i + 1..]), Decode(s), sb);
      }
      i := i + 1;
    }
    return sb;
  }

  /** The scan of RLEncoding: the end of the run of s[i] that starts at i,
      at most 9 characters on. */
  method ScanRun(s: string, i: nat) returns (j: nat)
    requires i < |s|
    ensures i < j <= |s| && j - i <= 9
    ensures forall k :: i <= k < j ==> s[k] == s[i]
    ensures j < |s| && j - i < 9 ==> s[j] != s[i]
  {
    var c := s[i];
    j := i + 1;
    while j < |s| && s[j] == c && j - i < 9
      invariant i < j <= |s| && j - i <= 9
      invariant forall k :: i <= k < j ==> s[k] == c
    {
      j := j + 1;
    }
  }

  /** The append step of RLEncoding: the run length and the character, or
      the characters themselves. */
  method AppendRun(sb: string, c: char, run: nat) returns (r: string)
    requires 1 <= run <= 9
    ensures r == sb + Chunk(c, run)
  {
    r := sb;
    if run >= 3 {
      assert DecimalString(run) == [DigitChar(run)];
      r := r + DecimalString(run);
      r := r + [c];
    } else {
      for k := 0 to run
        invariant r == sb + Repeat(c, k)
      {
        r := r + [c];
      }
    }
  }

  /** RLEncoding: scan each run (at most 9 long), then append it. */
  method RLEncoding(s: string) returns (r: string)
    ensures r == Encode(s)
  {
    if s == [] {
      return s;
    }
    var sb := "";
    var i := 0;
    assert s[0..] == s;
    while i < |s|
      invariant 0 <= i <= |s|
      invariant sb + Encode(s[i..]) == Encode(s)
    {
      var c := s[i];
      var j := ScanRun(s, i);
      ghost var before, piece := sb, Chunk(c, j - i);
      sb := AppendRun(sb, c, j - i);
      assert sb == before + piece;
      EncodeStep(s, i, j);
      ConcatShift(before, piece, Encode(s[i..]), Encode(s[j..]), Encode(s), sb);
      i := j;
    }
    return sb;
  }
}
