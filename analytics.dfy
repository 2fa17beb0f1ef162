/**
 * The two sequence measures of the program: the position-by-position
 * difference of two amino-acid strings (AminoDifference) and the most
 * frequent amino acid of one string with its count (ModeAminoAcid).
 */
module Analytics {

  function Max(x: nat, y: nat): nat {
    if x < y then y else x
  }

  /** The character at index i, or '\0' past the end: the padding with
      which AminoDifference compares strings of different lengths. */
  function CharAt(s: string, i: nat): char {
    if i < |s| then s[i] else '\0'
  }

  /** How many indices below n hold different characters in the padded a and b. */
  function MismatchesBelow(a: string, b: string, n: nat): (r: nat)
    ensures r <= n
  {
    if n == 0 then 0
    else MismatchesBelow(a, b, n - 1) + (if CharAt(a, n - 1) != CharAt(b, n - 1) then 1 else 0)
  }

  /** The difference of two sequences: the indices, up to the longer length,
      where the padded sequences disagree. */
  function Difference(a: string, b: string): (r: nat)
    ensures r <= Max(|a|, |b|)
  {
    MismatchesBelow(a, b, Max(|a|, |b|))
  }

  /** The indices below n at which the padded a and b disagree. */
  function MismatchSet(a: string, b: string, n: nat): set<nat> {
    set i: nat | i < n && CharAt(a, i) != CharAt(b, i)
  }

  lemma {:induction false} MismatchesCountSet(a: string, b: string, n: nat)
    ensures MismatchesBelow(a, b, n) == |MismatchSet(a, b, n)|
  {
    if n > 0 {
      MismatchesCountSet(a, b, n - 1);
      var prev := MismatchSet(a, b, n - 1);
      if CharAt(a, n - 1) != CharAt(b, n - 1) {
        assert MismatchSet(a, b, n) == prev + {n - 1};
        assert n - 1 !in prev;
      } else {
        assert MismatchSet(a, b, n) == prev;
      }
    }
  }

  /** Difference counts exactly the disagreeing indices below the longer length. */
  lemma DifferenceCountsMismatches(a: string, b: string)
    ensures Difference(a, b) == |set i: nat | i < Max(|a|, |b|) && CharAt(a, i) != CharAt(b, i)|
  {
    MismatchesCountSet(a, b, Max(|a|, |b|));
  }

  /** For sequences of equal length, Difference is the Hamming distance. */
  lemma DifferenceEqualLength(a: string, b: string)
    requires |a| == |b|
    ensures Difference(a, b) == |set i: nat | i < |a| && a[i] != b[i]|
  {
    MismatchesCountSet(a, b, |a|);
    assert MismatchSet(a, b, |a|) == set i: nat | i < |a| && a[i] != b[i];
  }

  lemma {:induction false} MismatchesSelf(s: string, n: nat)
    ensures MismatchesBelow(s, s, n) == 0
  {
    if n > 0 {
      MismatchesSelf(s, n - 1);
    }
  }

  /** A sequence does not differ from itself. */
  lemma DifferenceSelf(s: string)
    ensures Difference(s, s) == 0
  {
    MismatchesSelf(s, |s|);
  }

  lemma {:induction false} MismatchesSymmetric(a: string, b: string, n: nat)
    ensures MismatchesBelow(a, b, n) == MismatchesBelow(b, a, n)
  {
    if n > 0 {
      MismatchesSymmetric(a, b, n - 1);
    }
  }

  /** The difference does not depend on the order of its arguments. */
  lemma DifferenceSymmetric(a: string, b: string)
    ensures Difference(a, b) == Difference(b, a)
  {
    MismatchesSymmetric(a, b, Max(|a|, |b|));
  }

  lemma {:induction false} MismatchesPrefix(a: string, b: string, n: nat)
    requires |a| <= |b| && n <= |a|
    ensures MismatchesBelow(a, b, n) == MismatchesBelow(a, b[..|a|], n)
  {
    if n > 0 {
      MismatchesPrefix(a, b, n - 1);
    }
  }

  lemma {:induction false} MismatchesPastEnd(a: string, b: string, n: nat)
    requires |a| <= n <= |b| && '\0' !in b
    ensures MismatchesBelow(a, b, n) == MismatchesBelow(a, b, |a|) + (n - |a|)
  {
    if n > |a| {
      MismatchesPastEnd(a, b, n - 1);
      assert b[n - 1] in b;
    }
  }

  /** When no sequence holds '\0', every index past the shorter length is a
      difference: the result is the difference over the common length plus
      the excess length. */
  lemma DifferenceOfUnequalLengths(a: string, b: string)
    requires |a| <= |b| && '\0' !in b
    ensures Difference(a, b) == Difference(a, b[..|a|]) + (|b| - |a|)
  {
    MismatchesPastEnd(a, b, |b|);
    MismatchesPrefix(a, b, |a|);
  }

  /** Against an empty sequence, every character of s counts when s holds no '\0'. */
  lemma DifferenceFromEmpty(s: string)
    requires '\0' !in s
    ensures Difference("", s) == |s|
  {
    DifferenceOfUnequalLengths("", s);
    assert s[..0] == "";
  }

  /** An index below n at which the padded sequences agree keeps the count
      below n. */
  lemma {:induction false} MismatchesBelowAgreement(a: string, b: string, n: nat, k: nat)
    requires k < n && CharAt(a, k) == CharAt(b, k)
    ensures MismatchesBelow(a, b, n) < n
  {
    if k < n - 1 {
      MismatchesBelowAgreement(a, b, n - 1, k);
    }
  }

  /** Against an empty sequence the difference is |s| exactly when s holds
      no '\0': a '\0' in s matches the padding. */
  lemma DifferenceFromEmptyIff(s: string)
    ensures Difference("", s) == |s| <==> '\0' !in s
  {
    if '\0' in s {
      var k :| 0 <= k < |s| && s[k] == '\0';
      MismatchesBelowAgreement("", s, |s|, k);
    } else {
      DifferenceFromEmpty(s);
    }
  }

  /** AminoDifference: one pass over the longer length, padding with '\0'. */
  method AminoDifference(a: string, b: string) returns (diff: nat)
    ensures diff == Difference(a, b)
  {
    var max := Max(|a|, |b|);
    diff := 0;
    for i := 0 to max
      invariant diff == MismatchesBelow(a, b, i)
    {
      var ca := if i < |a| then a[i] else '\0';
      var cb := if i < |b| then b[i] else '\0';
      if ca != cb {
        diff := diff + 1;
      }
    }
  }

  /** c is the ordinal-least of the most frequent characters of a non-empty
      s, and n is how often it occurs. */
  ghost predicate IsMode(s: string, c: char, n: nat) {
    && c in multiset(s)
    && n == multiset(s)[c]
    && (forall x :: multiset(s)[x] <= n)
    && (forall x :: multiset(s)[x] == n ==> c <= x)
  }

  /** Two characters compared as the mode selection ranks them: more
      occurrences first, then the smaller character. */
  predicate RanksFirst(s: string, x: char, y: char) {
    multiset(s)[x] > multiset(s)[y] || (multiset(s)[x] == multiset(s)[y] && x <= y)
  }

  /** The best-ranked character of t. */
  function BestOf(s: string, t: string): (c: char)
    requires t != []
    ensures c in t
    ensures forall i :: 0 <= i < |t| ==> RanksFirst(s, c, t[i])
  {
    if |t| == 1 then t[0]
    else
      var b := BestOf(s, t[1..]);
      if RanksFirst(s, t[0], b) then t[0] else b
  }

  /** The mode of s with its count, or ('?', 0) for an empty s. */
  function Mode(s: string): (r: (char, nat))
    ensures s == [] ==> r == ('?', 0)
    ensures s != [] ==> IsMode(s, r.0, r.1)
  {
    if s == [] then ('?', 0)
    else
      var c := BestOf(s, s);
      assert forall x :: x in multiset(s) ==> RanksFirst(s, c, x) by {
        forall x | x in multiset(s) ensures RanksFirst(s, c, x) {
          assert x in s;
          var i :| 0 <= i < |s| && s[i] == x;
        }
      }
      (c, multiset(s)[c])
  }

  /** IsMode determines both the character and the count. */
  lemma ModeUnique(s: string, a: char, n: nat, b: char, m: nat)
    requires IsMode(s, a, n) && IsMode(s, b, m)
    ensures a == b && n == m
  {
    assert multiset(s)[b] <= n && multiset(s)[a] <= m;
  }

  /** The dictionary of occurrence counts of ModeAminoAcid's first loop. */
  method CountOccurrences(s: string) returns (counts: map<char, nat>)
    ensures forall c :: c in counts <==> c in multiset(s)
    ensures forall c :: c in counts ==> counts[c] == multiset(s)[c]
  {
    counts := map[];
    for i := 0 to |s|
      invariant forall c :: c in counts <==> c in multiset(s[..i])
      invariant forall c :: c in counts ==> counts[c] == multiset(s[..i])[c]
    {
      assert s[..i + 1] == s[..i] + [s[i]];
      var c := s[i];
      if c !in counts {
        counts := counts[c := 0];
      }
      counts := counts[c := counts[c] + 1];
    }
    assert s[..|s|] == s;
  }

  /** The largest value of a non-empty dictionary (Values.Max()). */
  method MaxValue(counts: map<char, nat>) returns (max: nat)
    requires counts != map[]
    ensures forall c :: c in counts ==> counts[c] <= max
    ensures exists c :: c in counts && counts[c] == max
  {
    var first :| first in counts;
    max := counts[first];
    var rest := counts.Keys - {first};
    while rest != {}
      invariant rest <= counts.Keys
      invariant forall c :: c in counts && c !in rest ==> counts[c] <= max
      invariant exists c :: c in counts && counts[c] == max
      decreases rest
    {
      var c :| c in rest;
      if counts[c] > max {
        max := counts[c];
      }
      rest := rest - {c};
    }
  }

  /** The first element of the sorted candidates: the least of them. */
  method Least(candidates: set<char>) returns (best: char)
    requires candidates != {}
    ensures best in candidates
    ensures forall c :: c in candidates ==> best <= c
  {
    best :| best in candidates;
    var left := candidates - {best};
    while left != {}
      invariant left <= candidates
      invariant best in candidates
      invariant forall c :: c in candidates && c !in left ==> best <= c
      decreases left
    {
      var c :| c in left;
      if c < best {
        best := c;
      }
      left := left - {c};
    }
  }

  /** ModeAminoAcid: count each character in a dictionary, take the largest
      count, and among the characters that reach it the least one (sorting
      the candidates and taking the first). */
  method ModeAminoAcid(s: string) returns (am: char, count: nat)
    ensures (am, count) == Mode(s)
  {
    var counts := CountOccurrences(s);
    if |counts| == 0 {
      assert multiset(s) == multiset{};
      return '?', 0;
    }
    var max := MaxValue(counts);
    var candidates := set c | c in counts && counts[c] == max;
    ghost var w :| w in counts && counts[w] == max;
    assert w in candidates;
    var best := Least(candidates);
    am, count := best, max;
    assert am in multiset(s) && count == multiset(s)[am];
    forall x
      ensures multiset(s)[x] <= count
      ensures multiset(s)[x] == count ==> am <= x
    {
      if x in counts {
        assert counts[x] == max ==> x in candidates;
      }
    }
    ModeUnique(s, am, count, Mode(s).0, Mode(s).1);
  }
}
