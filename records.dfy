/**
 * The genetic-data table: records, the parsing of one dataset line into a
 * record, the case-insensitive lookup by protein name and the substring
 * search over amino-acid sequences.
 */
module Records {
  import opened Wrappers
  import opened Text
  import opened Sequences

  /** One dataset record: a protein, the organism it comes from and its
      amino-acid sequence. */
  datatype GeneticData = GeneticData(protein: string, organism: string, aminoAcids: string)

  /** default(GeneticData), which FirstOrDefault returns when nothing matches.
      Its null strings are written "" here: the program only inspects them
      with string.IsNullOrEmpty, which treats both alike. */
  const Default: GeneticData := GeneticData("", "", "")

  /** One line of the dataset: skipped when blank or when it has fewer than
      three tab-separated fields, otherwise the first three fields, trimmed. */
  function ParseLine(line: string): Option<GeneticData> {
    if IsBlank(line) then None
    else
      var parts := SplitOnTab(line);
      if |parts| >= 3 then Some(GeneticData(Trim(parts[0]), Trim(parts[1]), Trim(parts[2])))
      else None
  }

  /** Blank lines are skipped, and the fields of a record are trimmed. */
  lemma ParseLineTrimmed(line: string)
    ensures IsBlank(line) ==> ParseLine(line) == None
    ensures ParseLine(line).Some? ==> Trimmed(ParseLine(line).value)
  {
    if !IsBlank(line) {
      var parts := SplitOnTab(line);
      if |parts| >= 3 {
        TrimIdempotent(parts[0]);
        TrimIdempotent(parts[1]);
        TrimIdempotent(parts[2]);
      }
    }
  }

  /** No field of g has surrounding white space. */
  predicate Trimmed(g: GeneticData) {
    Trim(g.protein) == g.protein && Trim(g.organism) == g.organism && Trim(g.aminoAcids) == g.aminoAcids
  }

  /** A line made of three or more tab-free fields gives the record of its
      first three fields, trimmed; the fields after the third are ignored. */
  lemma ParseLineFields(fields: seq<string>)
    requires |fields| >= 3
    requires forall k :: 0 <= k < |fields| ==> '\t' !in fields[k]
    ensures var line := JoinWithTab(fields);
            ParseLine(line) == if IsBlank(line) then None
                               else Some(GeneticData(Trim(fields[0]), Trim(fields[1]), Trim(fields[2])))
  {
    SplitJoin(fields);
    ParseLineOfParts(JoinWithTab(fields), fields);
  }

  lemma ParseLineOfParts(line: string, parts: seq<string>)
    requires SplitOnTab(line) == parts && |parts| >= 3
    ensures ParseLine(line) == if IsBlank(line) then None
                               else Some(GeneticData(Trim(parts[0]), Trim(parts[1]), Trim(parts[2])))
  {
  }

  /** A line with fewer than three fields is skipped. */
  lemma ParseLineTooFewFields(fields: seq<string>)
    requires 1 <= |fields| < 3
    requires forall k :: 0 <= k < |fields| ==> '\t' !in fields[k]
    ensures ParseLine(JoinWithTab(fields)) == None
  {
    SplitJoin(fields);
  }

  /** The records of the dataset lines, in line order. */
  function ParseAll(lines: seq<string>): (records: seq<GeneticData>)
    ensures |records| <= |lines|
  {
    if lines == [] then [] else ParseAll(lines[..|lines| - 1]) + LineRecords(lines[|lines| - 1])
  }

  /** The record of one line, if it gives one. */
  function LineRecords(line: string): seq<GeneticData> {
    match ParseLine(line)
    case Some(g) => [g]
    case None => []
  }

  /** One more line adds its record, if any, at the end. */
  lemma ParseAllSnoc(init: seq<string>, line: string)
    ensures ParseAll(init + [line]) == ParseAll(init) + LineRecords(line)
  {
    InitOfSnoc(init, line);
  }

  /** Parsing two blocks of lines gives the records of the first block
      followed by the records of the second. */
  lemma {:induction false} ParseAllConcat(a: seq<string>, b: seq<string>)
    ensures ParseAll(a + b) == ParseAll(a) + ParseAll(b)
  {
    if b == [] {
      assert a + b == a;
    } else {
      var b', line := b[..|b| - 1], b[|b| - 1];
      InitLast(b);
      ConcatAssoc(a, b', [line]);
      ParseAllConcat(a, b');
      ParseAllSnoc(a + b', line);
      ParseAllSnoc(b', line);
      ConcatAssoc(ParseAll(a), ParseAll(b'), LineRecords(line));
    }
  }

  /** Every stored record has trimmed fields. */
  lemma {:induction false} ParseAllTrimmed(lines: seq<string>)
    ensures forall g :: g in ParseAll(lines) ==> Trimmed(g)
  {
    if lines != [] {
      ParseAllTrimmed(lines[..|lines| - 1]);
      ParseLineTrimmed(lines[|lines| - 1]);
    }
  }

  /** The index of the first record whose protein equals name, ignoring case. */
  function FindIndex(data: seq<GeneticData>, name: string): (r: Option<nat>)
    ensures r.Some? ==> r.value < |data| && EqualsIgnoreCase(data[r.value].protein, name)
    ensures r.Some? ==> forall j :: 0 <= j < r.value ==> !EqualsIgnoreCase(data[j].protein, name)
    ensures r.None? ==> forall j :: 0 <= j < |data| ==> !EqualsIgnoreCase(data[j].protein, name)
  {
    if data == [] then None
    else if EqualsIgnoreCase(data[0].protein, name) then Some(0)
    else
      match FindIndex(data[1..], name)
      case Some(k) => Some(k + 1)
      case None => None
  }

  /** FirstOrDefault over the records with a case-insensitive protein match. */
  function FirstOrDefault(data: seq<GeneticData>, name: string): (g: GeneticData)
    ensures g == Default || g in data
  {
    match FindIndex(data, name)
    case Some(k) => data[k]
    case None => Default
  }

  /** The commands' test for a lookup miss: the found record has an empty protein. */
  predicate Missing(data: seq<GeneticData>, name: string) {
    FirstOrDefault(data, name).protein == ""
  }

  /** A name is reported missing exactly when it is empty or no record's
      protein equals it, ignoring case. */
  lemma MissingIff(data: seq<GeneticData>, name: string)
    ensures Missing(data, name) <==>
            name == "" || forall j :: 0 <= j < |data| ==> !EqualsIgnoreCase(data[j].protein, name)
  {
    match FindIndex(data, name)
    case Some(k) =>
      assert |data[k].protein| == |name|;
    case None =>
  }

  /** When a name is not missing, the record found is the first one that matches. */
  lemma FoundIsFirstMatch(data: seq<GeneticData>, name: string)
    requires !Missing(data, name)
    ensures exists k :: 0 <= k < |data| && FirstOrDefault(data, name) == data[k]
                        && EqualsIgnoreCase(data[k].protein, name)
                        && forall j :: 0 <= j < k ==> !EqualsIgnoreCase(data[j].protein, name)
  {
    var k := FindIndex(data, name).value;
    assert FirstOrDefault(data, name) == data[k];
  }

  /** Ordinal string.Contains: q occurs in s as a contiguous substring. */
  predicate Contains(s: string, q: string) {
    q <= s || (s != [] && Contains(s[1..], q))
  }

  /** q occurs in s at index i. */
  predicate OccursAt(s: string, q: string, i: nat) {
    i + |q| <= |s| && s[i..i + |q|] == q
  }

  /** Contains means an occurrence at some index. */
  lemma ContainsIff(s: string, q: string)
    ensures Contains(s, q) <==> exists i: nat :: OccursAt(s, q, i)
  {
    if Contains(s, q) {
      ContainsOccurs(s, q);
    }
    if i: nat :| OccursAt(s, q, i) {
      OccursContains(s, q, i);
    }
  }

  lemma {:induction false} ContainsOccurs(s: string, q: string)
    requires Contains(s, q)
    ensures exists i: nat :: OccursAt(s, q, i)
  {
    if q <= s {
      assert OccursAt(s, q, 0);
    } else {
      ContainsOccurs(s[1..], q);
      var i: nat :| OccursAt(s[1..], q, i);
      assert s[i + 1..i + 1 + |q|] == s[1..][i..i + |q|];
      assert OccursAt(s, q, i + 1);
    }
  }

  lemma {:induction false} OccursContains(s: string, q: string, i: nat)
    requires OccursAt(s, q, i)
    ensures Contains(s, q)
  {
    if i == 0 {
      assert s[..|q|] == q;
    } else {
      assert s[1..][i - 1..i - 1 + |q|] == s[i..i + |q|];
      OccursContains(s[1..], q, i - 1);
    }
  }

  /** Every sequence contains the empty query. */
  lemma ContainsEmpty(s: string)
    ensures Contains(s, "")
  {
  }

  /** The (organism, protein) pairs of the records whose sequence contains q,
      in dataset order. */
  function Matches(data: seq<GeneticData>, q: string): (found: seq<(string, string)>)
    ensures |found| <= |data|
  {
    if data == [] then [] else Matches(data[..|data| - 1], q) + RecordMatches(data[|data| - 1], q)
  }

  /** The pair of one record, if its sequence contains q. */
  function RecordMatches(g: GeneticData, q: string): seq<(string, string)> {
    if Contains(g.aminoAcids, q) then [(g.organism, g.protein)] else []
  }

  /** Record g lists the pair (organism, protein) for the query q. */
  predicate Lists(g: GeneticData, q: string, organism: string, protein: string) {
    g.organism == organism && g.protein == protein && Contains(g.aminoAcids, q)
  }

  /** A pair is listed exactly when some record with that organism and protein
      contains q. */
  lemma {:induction false} MatchesMembers(data: seq<GeneticData>, q: string, organism: string, protein: string)
    ensures (organism, protein) in Matches(data, q) <==>
            exists k :: 0 <= k < |data| && Lists(data[k], q, organism, protein)
  {
    if data != [] {
      var init, last := data[..|data| - 1], |data| - 1;
      MatchesMembers(init, q, organism, protein);
      var x := (organism, protein);
      assert x in Matches(data, q) <==> x in Matches(init, q) || Lists(data[last], q, organism, protein);
      if k :| 0 <= k < |init| && Lists(init[k], q, organism, protein) {
        assert data[k] == init[k];
      }
      if k :| 0 <= k < last && Lists(data[k], q, organism, protein) {
        assert init[k] == data[k];
      }
    }
  }

  /** The search results over two blocks of records are the results over the
      first followed by the results over the second. */
  lemma {:induction false} MatchesConcat(a: seq<GeneticData>, b: seq<GeneticData>, q: string)
    ensures Matches(a + b, q) == Matches(a, q) + Matches(b, q)
  {
    if b == [] {
      assert a + b == a;
    } else {
      var b', g := b[..|b| - 1], b[|b| - 1];
      InitLast(b);
      ConcatAssoc(a, b', [g]);
      MatchesConcat(a, b', q);
      MatchesSnoc(a + b', g, q);
      MatchesSnoc(b', g, q);
      ConcatAssoc(Matches(a, q), Matches(b', q), RecordMatches(g, q));
    }
  }

  /** One more record adds its pair at the end when it matches. */
  lemma MatchesSnoc(init: seq<GeneticData>, g: GeneticData, q: string)
    ensures Matches(init + [g], q) == Matches(init, q) + RecordMatches(g, q)
  {
    InitOfSnoc(init, g);
  }

  /** The empty query lists every record, in dataset order. */
  lemma {:induction false} MatchesEmptyQuery(data: seq<GeneticData>)
    ensures |Matches(data, "")| == |data|
    ensures forall k :: 0 <= k < |data| ==> Matches(data, "")[k] == (data[k].organism, data[k].protein)
  {
    if data != [] {
      MatchesEmptyQuery(data[..|data| - 1]);
    }
  }
}
