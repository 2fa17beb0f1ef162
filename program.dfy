/**
 * The command processor: the program state (dataset, transcript, operation
 * counter), the handlers of the search, diff and mode commands, the
 * numbered blocks they append to the transcript, and the main loop over the
 * command lines.
 */
module Lab1 {
  import opened Text
  import opened Sequences
  import opened RunLength
  import opened Analytics
  import opened Records

  /** The line of 69 dashes that opens every block. */
  const Separator: string := Repeat('-', 69)
  const Author: string := "Katya"
  const Title: string := "Генетический поиск"
  const MissingPrefix: string := "Отсутствует: "
  const SearchHeading: string := "organism\t\t\tprotein"
  const NotFound: string := "NOT FOUND"
  const DiffHeading: string := "amino-acids difference:"
  const ModeHeading: string := "amino-acids occurs: "

  /** The numbered line of a block: the counter as "D3", a tab and the
      echoed command, or the counter and a space when there is no command. */
  function HeaderLine(counter: nat, command: string): string {
    if command == "" then FormatD3(counter) + " " else FormatD3(counter) + "\t" + command
  }

  /** The two lines AddOperationSeparator appends. */
  function SeparatorLines(counter: nat, command: string): seq<string> {
    [Separator, HeaderLine(counter, command)]
  }

  /** The result line of one search hit. */
  function HitLine(hit: (string, string)): string {
    hit.0 + "\t" + hit.1
  }

  /** The result lines of the hits, in order. */
  function HitLines(hits: seq<(string, string)>): (lines: seq<string>)
    ensures |lines| == |hits|
    ensures forall k :: 0 <= k < |hits| ==> lines[k] == HitLine(hits[k])
  {
    if hits == [] then [] else HitLines(hits[..|hits| - 1]) + [HitLine(hits[|hits| - 1])]
  }

  /** The lines of a search: the column heading, then one line per record
      whose sequence contains the query, or NOT FOUND. */
  function SearchLines(data: seq<GeneticData>, query: string): (lines: seq<string>)
    ensures |lines| >= 2 && lines[0] == SearchHeading
  {
    var found := Matches(data, query);
    [SearchHeading] + if found == [] then [NotFound] else HitLines(found)
  }

  /** The names a diff reports missing, each followed by a space. */
  function MissingNames(p1: string, missing1: bool, p2: string, missing2: bool): string {
    (if missing1 then p1 + " " else "") + (if missing2 then p2 + " " else "")
  }

  /** The lines of a diff: the heading, then the missing names or the difference. */
  function DiffLines(data: seq<GeneticData>, p1: string, p2: string): (lines: seq<string>)
    ensures |lines| == 2 && lines[0] == DiffHeading
  {
    var missing1, missing2 := Missing(data, p1), Missing(data, p2);
    [DiffHeading] +
    if missing1 || missing2 then [MissingPrefix + Trim(MissingNames(p1, missing1, p2, missing2))]
    else [DecimalString(Difference(FirstOrDefault(data, p1).aminoAcids, FirstOrDefault(data, p2).aminoAcids))]
  }

  /** The result line of a mode: the character, two tabs, and the count
      between spaces. */
  function ModeLine(am: char, count: nat): string {
    [am] + "\t\t " + DecimalString(count) + " "
  }

  /** The lines of a mode: the heading, then the missing name or the mode. */
  function ModeLines(data: seq<GeneticData>, name: string): (lines: seq<string>)
    ensures |lines| == 2 && lines[0] == ModeHeading
  {
    var g := FirstOrDefault(data, name);
    [ModeHeading] +
    if g.protein == "" then [MissingPrefix + name]
    else var (am, count) := Mode(g.aminoAcids); [ModeLine(am, count)]
  }

  /** The lines one command line appends: nothing for a blank line, an
      unknown command or too few arguments, otherwise the separator, the
      numbered echo of the command and its result. The search echoes the
      decoded query but matches the query as written. */
  function Block(data: seq<GeneticData>, counter: nat, line: string): seq<string> {
    if IsBlank(line) then [] else CommandBlock(data, counter, SplitOnTab(line))
  }

  /** The block of a command line that is not blank, from its tab-separated fields. */
  function CommandBlock(data: seq<GeneticData>, counter: nat, parts: seq<string>): seq<string>
    requires parts != []
  {
      var command := Trim(parts[0]);
      if command == "search" && |parts| >= 2 then
        var query := Trim(parts[1]);
        SeparatorLines(counter, "search\t" + Decode(query)) + SearchLines(data, query)
      else if command == "diff" && |parts| >= 3 then
        var p1, p2 := Trim(parts[1]), Trim(parts[2]);
        SeparatorLines(counter, "diff\t" + p1 + "\t" + p2) + DiffLines(data, p1, p2)
      else if command == "mode" && |parts| >= 2 then
        var name := Trim(parts[1]);
        SeparatorLines(counter, "mode\t" + name) + ModeLines(data, name)
      else []
  }

  /** The counter after one command line: every line that is not blank
      advances it, whether or not it produced a block. */
  function Advance(counter: nat, line: string): nat {
    if IsBlank(line) then counter else counter + 1
  }

  /** The counter after a sequence of command lines. */
  function CounterAfter(counter: nat, lines: seq<string>): (r: nat)
    ensures counter <= r <= counter + |lines|
  {
    if lines == [] then counter else Advance(CounterAfter(counter, lines[..|lines| - 1]), lines[|lines| - 1])
  }

  /** The blocks of a sequence of command lines, numbered from counter. */
  function Transcript(data: seq<GeneticData>, counter: nat, lines: seq<string>): seq<string> {
    if lines == [] then []
    else
      var init := lines[..|lines| - 1];
      Transcript(data, counter, init) + Block(data, CounterAfter(counter, init), lines[|lines| - 1])
  }

  /** The whole output of a run: the author, the title and the blocks of the
      commands, over the records of the dataset lines. */
  function Output(datasetLines: seq<string>, commands: seq<string>): seq<string> {
    [Author, Title] + Transcript(ParseAll(datasetLines), 1, commands)
  }

  /** The state of a run and its operations. */
  class Program {
    var data: seq<GeneticData>
    var outputLines: seq<string>
    var operationCounter: nat

    /** An empty dataset and transcript, and operation number 1. */
    constructor ()
      ensures data == [] && outputLines == [] && operationCounter == 1
    {
      data := [];
      outputLines := [];
      operationCounter := 1;
    }

    /** Appends the record of every dataset line that gives one, in order. */
    method ReadGeneticData(lines: seq<string>)
      modifies this`data
      ensures data == old(data) + ParseAll(lines)
    {
      for i := 0 to |lines|
        invariant data == old(data) + ParseAll(lines[..i])
      {
        TakeSnoc(lines, i);
        ParseAllSnoc(lines[..i], lines[i]);
        ConcatAssoc(old(data), ParseAll(lines[..i]), LineRecords(lines[i]));
        ReadLine(lines[i]);
      }
      TakeAll(lines);
    }

    /** The body of the reading loop: skip a blank line or one with fewer
        than three fields, otherwise add the record of its trimmed fields. */
    method ReadLine(line: string)
      modifies this`data
      ensures data == old(data) + LineRecords(line)
    {
      if IsBlank(line) {
        AppendEmpty(data);
        return;
      }
      var parts := SplitOnTab(line);
      if |parts| >= 3 {
        data := data + [GeneticData(Trim(parts[0]), Trim(parts[1]), Trim(parts[2]))];
      } else {
        AppendEmpty(data);
      }
    }

    /** Appends the separator and the numbered echo of a command. */
    method AddOperationSeparator(commandLine: string)
      modifies this`outputLines
      ensures outputLines == old(outputLines) + SeparatorLines(operationCounter, commandLine)
    {
      ghost var before := outputLines;
      outputLines := outputLines + [Separator];
      if commandLine != "" {
        outputLines := outputLines + [FormatD3(operationCounter) + "\t" + commandLine];
      } else {
        outputLines := outputLines + [FormatD3(operationCounter) + " "];
      }
      ConcatAssoc(before, [Separator], [HeaderLine(operationCounter, commandLine)]);
    }

    /** Appends the search result lines for the query as given. */
    method SearchCommand(originalQuery: string)
      modifies this`outputLines
      ensures outputLines == old(outputLines) + SearchLines(data, originalQuery)
    {
      var found: seq<(string, string)> := [];
      for i := 0 to |data|
        invariant found == Matches(data[..i], originalQuery)
        invariant outputLines == old(outputLines)
      {
        var g := data[i];
        TakeSnoc(data, i);
        MatchesSnoc(data[..i], g, originalQuery);
        if Contains(g.aminoAcids, originalQuery) {
          found := found + [(g.organism, g.protein)];
        }
      }
      TakeAll(data);
      ghost var before := outputLines;
      outputLines := outputLines + [SearchHeading];
      if |found| == 0 {
        outputLines := outputLines + [NotFound];
      } else {
        for j := 0 to |found|
          invariant outputLines == before + [SearchHeading] + HitLines(found[..j])
        {
          TakeSnoc(found, j);
          ConcatAssoc(before + [SearchHeading], HitLines(found[..j]), [HitLine(found[j])]);
          outputLines := outputLines + [found[j].0 + "\t" + found[j].1];
        }
        TakeAll(found);
      }
      ConcatAssoc(before, [SearchHeading], if found == [] then [NotFound] else HitLines(found));
    }

    /** Appends the diff result lines for two protein names. */
    method DiffCommand(p1: string, p2: string)
      modifies this`outputLines
      ensures outputLines == old(outputLines) + DiffLines(data, p1, p2)
    {
      var g1 := FirstOrDefault(data, p1);
      var g2 := FirstOrDefault(data, p2);
      var missing1 := g1.protein == "";
      var missing2 := g2.protein == "";
      ghost var before := outputLines;
      ghost var names := MissingNames(p1, missing1, p2, missing2);
      ghost var result := if missing1 || missing2 then MissingPrefix + Trim(names)
                          else DecimalString(Difference(g1.aminoAcids, g2.aminoAcids));
      assert DiffLines(data, p1, p2) == [DiffHeading] + [result];
      outputLines := outputLines + [DiffHeading];
      if missing1 || missing2 {
        var missing := "";
        ghost var first := if missing1 then p1 + " " else "";
        if missing1 {
          PrependEmpty(p1);
          missing := missing + p1 + " ";
        }
        if missing2 {
          ConcatAssoc(first, p2, " ");
          missing := missing + p2 + " ";
        } else {
          AppendEmpty(first);
        }
        outputLines := outputLines + [MissingPrefix + Trim(missing)];
      } else {
        var diff := AminoDifference(g1.aminoAcids, g2.aminoAcids);
        outputLines := outputLines + [DecimalString(diff)];
      }
      ConcatAssoc(before, [DiffHeading], [result]);
    }

    /** Appends the mode result lines for a protein name. */
    method ModeCommand(pname: string)
      modifies this`outputLines
      ensures outputLines == old(outputLines) + ModeLines(data, pname)
    {
      var g := FirstOrDefault(data, pname);
      outputLines := outputLines + [ModeHeading];
      if g.protein == "" {
        outputLines := outputLines + [MissingPrefix + pname];
      } else {
        var am, count := ModeAminoAcid(g.aminoAcids);
        outputLines := outputLines + [[am] + "\t\t " + DecimalString(count) + " "];
      }
    }

    /** One pass of the main loop: skip a blank line, otherwise dispatch it
        and advance the counter. */
    method ProcessLine(commandLine: string)
      modifies this`outputLines, this`operationCounter
      ensures outputLines == old(outputLines) + Block(data, old(operationCounter), commandLine)
      ensures operationCounter == Advance(old(operationCounter), commandLine)
    {
      if IsBlank(commandLine) {
        AppendEmpty(outputLines);
        return;
      }
      var parts := SplitOnTab(commandLine);
      Dispatch(parts);
      operationCounter := operationCounter + 1;
    }

    /** The switch on the trimmed command name of a line that is not blank. */
    method Dispatch(parts: seq<string>)
      requires parts != []
      modifies this`outputLines
      ensures outputLines == old(outputLines) + CommandBlock(data, operationCounter, parts)
    {
      ghost var before := outputLines;
      var command := Trim(parts[0]);
      if command == "search" && |parts| >= 2 {
        var searchQuery := Trim(parts[1]);
        var decodedQuery := RLDecoding(searchQuery);
        var echo := "search\t" + decodedQuery;
        AddOperationSeparator(echo);
        SearchCommand(searchQuery);
        SearchBlock(data, operationCounter, parts);
        ConcatAssoc(before, SeparatorLines(operationCounter, echo), SearchLines(data, searchQuery));
      } else if command == "diff" && |parts| >= 3 {
        var protein1 := Trim(parts[1]);
        var protein2 := Trim(parts[2]);
        var echo := "diff\t" + protein1 + "\t" + protein2;
        AddOperationSeparator(echo);
        DiffCommand(protein1, protein2);
        DiffBlock(data, operationCounter, parts);
        ConcatAssoc(before, SeparatorLines(operationCounter, echo), DiffLines(data, protein1, protein2));
      } else if command == "mode" && |parts| >= 2 {
        var proteinName := Trim(parts[1]);
        var echo := "mode\t" + proteinName;
        AddOperationSeparator(echo);
        ModeCommand(proteinName);
        ModeBlock(data, operationCounter, parts);
        ConcatAssoc(before, SeparatorLines(operationCounter, echo), ModeLines(data, proteinName));
      } else {
        OtherBlock(data, operationCounter, parts);
        AppendEmpty(before);
      }
    }

    /** The main procedure on given dataset and command lines: load the
        records, write the author and title, then process every command line. */
    method Run(datasetLines: seq<string>, commands: seq<string>)
      modifies this
      ensures data == old(data) + ParseAll(datasetLines)
      ensures outputLines == old(outputLines) + [Author, Title] + Transcript(data, old(operationCounter), commands)
      ensures operationCounter == CounterAfter(old(operationCounter), commands)
    {
      ReadGeneticData(datasetLines);
      outputLines := outputLines + [Author, Title];
      ghost var start, first := outputLines, operationCounter;
      for i := 0 to |commands|
        invariant outputLines == start + Transcript(data, first, commands[..i])
        invariant operationCounter == CounterAfter(first, commands[..i])
        invariant data == old(data) + ParseAll(datasetLines)
      {
        var line := commands[i];
        ghost var done := commands[..i];
        TakeSnoc(commands, i);
        TranscriptSnoc(data, first, done, line);
        ConcatAssoc(start, Transcript(data, first, done), Block(data, operationCounter, line));
        ProcessLine(line);
      }
      TakeAll(commands);
    }
  }

  /** The output of a run from the initial state, over the given dataset and
      command lines. */
  method RunProgram(datasetLines: seq<string>, commands: seq<string>) returns (output: seq<string>)
    ensures output == Output(datasetLines, commands)
  {
    var p := new Program();
    p.Run(datasetLines, commands);
    output := p.outputLines;
    PrependEmpty(ParseAll(datasetLines));
    PrependEmpty([Author, Title]);
  }

  /** One more command line adds its block, numbered after the lines before it. */
  lemma TranscriptSnoc(data: seq<GeneticData>, counter: nat, init: seq<string>, line: string)
    ensures Transcript(data, counter, init + [line])
            == Transcript(data, counter, init) + Block(data, CounterAfter(counter, init), line)
    ensures CounterAfter(counter, init + [line]) == Advance(CounterAfter(counter, init), line)
  {
    InitOfSnoc(init, line);
  }

  /** The block of a search command with its query. */
  lemma SearchBlock(data: seq<GeneticData>, counter: nat, parts: seq<string>)
    requires parts != [] && Trim(parts[0]) == "search" && |parts| >= 2
    ensures CommandBlock(data, counter, parts)
            == SeparatorLines(counter, "search\t" + Decode(Trim(parts[1]))) + SearchLines(data, Trim(parts[1]))
  {
  }

  /** The block of a diff command with its two names. */
  lemma DiffBlock(data: seq<GeneticData>, counter: nat, parts: seq<string>)
    requires parts != [] && Trim(parts[0]) == "diff" && |parts| >= 3
    ensures CommandBlock(data, counter, parts)
            == SeparatorLines(counter, "diff\t" + Trim(parts[1]) + "\t" + Trim(parts[2]))
               + DiffLines(data, Trim(parts[1]), Trim(parts[2]))
  {
  }

  /** The block of a mode command with its name. */
  lemma ModeBlock(data: seq<GeneticData>, counter: nat, parts: seq<string>)
    requires parts != [] && Trim(parts[0]) == "mode" && |parts| >= 2
    ensures CommandBlock(data, counter, parts)
            == SeparatorLines(counter, "mode\t" + Trim(parts[1])) + ModeLines(data, Trim(parts[1]))
  {
  }

  /** An unknown command, or a known one with too few fields, has no block. */
  lemma OtherBlock(data: seq<GeneticData>, counter: nat, parts: seq<string>)
    requires parts != []
    requires var command := Trim(parts[0]);
             !(command == "search" && |parts| >= 2) && !(command == "diff" && |parts| >= 3)
             && !(command == "mode" && |parts| >= 2)
    ensures CommandBlock(data, counter, parts) == []
  {
  }

  /** Processing two runs of command lines one after the other: the blocks
      of the first, then those of the second numbered from where the first
      left the counter. */
  lemma {:induction false} TranscriptConcat(data: seq<GeneticData>, counter: nat, a: seq<string>, b: seq<string>)
    ensures CounterAfter(counter, a + b) == CounterAfter(CounterAfter(counter, a), b)
    ensures Transcript(data, counter, a + b)
            == Transcript(data, counter, a) + Transcript(data, CounterAfter(counter, a), b)
    decreases |b|
  {
    if b == [] {
      AppendEmpty(a);
      AppendEmpty(Transcript(data, counter, a));
    } else {
      var b', line := b[..|b| - 1], b[|b| - 1];
      var mid := CounterAfter(counter, a);
      InitLast(b);
      ConcatAssoc(a, b', [line]);
      TranscriptConcat(data, counter, a, b');
      TranscriptSnoc(data, counter, a + b', line);
      TranscriptSnoc(data, mid, b', line);
      ConcatAssoc(Transcript(data, counter, a), Transcript(data, mid, b'),
                  Block(data, CounterAfter(mid, b'), line));
    }
  }

  /** A blank command line anywhere changes neither the transcript nor the
      numbering of the blocks after it. */
  lemma BlankLineIgnored(data: seq<GeneticData>, counter: nat, a: seq<string>, blank: string, b: seq<string>)
    requires IsBlank(blank)
    ensures CounterAfter(counter, a + [blank] + b) == CounterAfter(counter, a + b)
    ensures Transcript(data, counter, a + [blank] + b) == Transcript(data, counter, a + b)
  {
    TranscriptConcat(data, counter, a + [blank], b);
    TranscriptConcat(data, counter, a, b);
    TranscriptSnoc(data, counter, a, blank);
    AppendEmpty(Transcript(data, counter, a));
  }

  /** The indices of the command lines that are not blank. */
  function CommandIndices(lines: seq<string>): set<nat> {
    set i: nat | i < |lines| && !IsBlank(lines[i])
  }

  /** The counter advances by exactly the number of lines that are not
      blank, whether or not they produced a block. */
  lemma {:induction false} CounterCountsCommands(counter: nat, lines: seq<string>)
    ensures CounterAfter(counter, lines) == counter + |CommandIndices(lines)|
  {
    if lines != [] {
      var n := |lines|;
      var init := lines[..n - 1];
      CounterCountsCommands(counter, init);
      var prev := CommandIndices(init);
      if IsBlank(lines[n - 1]) {
        assert CommandIndices(lines) == prev;
      } else {
        assert CommandIndices(lines) == prev + {n - 1};
        assert n - 1 !in prev;
      }
    }
  }

  /** A line that is not blank but names no known command, or gives a known
      one too few fields, appends nothing and still takes a number. */
  lemma UnhandledLine(data: seq<GeneticData>, counter: nat, line: string)
    requires !IsBlank(line)
    requires var parts := SplitOnTab(line); var command := Trim(parts[0]);
             !(command == "search" && |parts| >= 2) && !(command == "diff" && |parts| >= 3)
             && !(command == "mode" && |parts| >= 2)
    ensures Block(data, counter, line) == []
    ensures Advance(counter, line) == counter + 1
  {
    OtherBlock(data, counter, SplitOnTab(line));
  }

  /** Every block opens with the dash separator and the counter, at least
      three digits, followed by a tab; then comes the heading of the command
      and at least one result line. */
  lemma BlockLayout(data: seq<GeneticData>, counter: nat, line: string)
    ensures var b := Block(data, counter, line);
            b != [] ==> |b| >= 4 && b[0] == Separator && FormatD3(counter) + "\t" <= b[1]
                        && b[2] in {SearchHeading, DiffHeading, ModeHeading}
  {
    if !IsBlank(line) {
      var parts := SplitOnTab(line);
      var command := Trim(parts[0]);
      var d := FormatD3(counter);
      if command == "search" && |parts| >= 2 {
        var echo := "search\t" + Decode(Trim(parts[1]));
        ConcatAssoc(d, "\t", echo);
      } else if command == "diff" && |parts| >= 3 {
        var echo := "diff\t" + Trim(parts[1]) + "\t" + Trim(parts[2]);
        ConcatAssoc(d, "\t", echo);
      } else if command == "mode" && |parts| >= 2 {
        var echo := "mode\t" + Trim(parts[1]);
        ConcatAssoc(d, "\t", echo);
      }
    }
  }

  /** A search line echoes the decoded query but lists the records whose
      sequence contains the query as written. */
  lemma SearchLine(data: seq<GeneticData>, counter: nat, q: string)
    requires '\t' !in q
    ensures Block(data, counter, "search\t" + q)
            == SeparatorLines(counter, "search\t" + Decode(Trim(q))) + SearchLines(data, Trim(q))
  {
    SearchFields(q);
    TrimUntouched("search");
    SearchBlock(data, counter, ["search", q]);
  }

  /** The fields of a search line. */
  lemma SearchFields(q: string)
    requires '\t' !in q
    ensures !IsBlank("search\t" + q)
    ensures SplitOnTab("search\t" + q) == ["search", q]
  {
    var line := "search\t" + q;
    assert line == "search" + "\t" + q;
    SplitFirstField("search", q);
    SplitTabFree(q);
    assert !IsWhiteSpace(line[0]);
  }

  /** The query "3A" is echoed as "AAA" (SearchLine), yet it does not list
      a record whose sequence is "AAA", which the query "AAA" does: the
      match uses the query as written, not as decoded. */
  lemma SearchEchoesDecodedQuery()
    ensures Decode("3A") == "AAA"
    ensures SearchLines([GeneticData("P", "O", "AAA")], "3A") == [SearchHeading, NotFound]
    ensures SearchLines([GeneticData("P", "O", "AAA")], "AAA") == [SearchHeading, HitLine(("O", "P"))]
  {
    var data := [GeneticData("P", "O", "AAA")];
    assert Decode("3A") == Repeat('A', 3) + Decode([]);
    assert Repeat('A', 3) == "AAA";
    NoThreeAInAAA();
    assert Matches(data, "3A") == Matches([], "3A") + RecordMatches(data[0], "3A");
    assert Matches(data, "AAA") == Matches([], "AAA") + RecordMatches(data[0], "AAA");
    assert HitLines([("O", "P")]) == HitLines([]) + [HitLine(("O", "P"))];
  }

  lemma NoThreeAInAAA()
    ensures !Contains("AAA", "3A")
  {
    assert "A"[1..] == "";
    assert !Contains("A", "3A");
    assert "AA"[1..] == "A" && "AA"[0] != "3A"[0];
    assert !Contains("AA", "3A");
    assert "AAA"[1..] == "AA";
    assert "AAA"[0] != "3A"[0];
  }

  /** The line of a diff that names its missing proteins: the names not
      found, p1 before p2, joined by one space and trimmed. */
  lemma MissingNamesReport(p1: string, m1: bool, p2: string, m2: bool)
    requires Trim(p1) == p1 && Trim(p2) == p2
    ensures m1 && !m2 ==> Trim(MissingNames(p1, m1, p2, m2)) == p1
    ensures !m1 && m2 ==> Trim(MissingNames(p1, m1, p2, m2)) == p2
    ensures m1 && m2 && p1 != "" && p2 != "" ==> Trim(MissingNames(p1, m1, p2, m2)) == p1 + " " + p2
    ensures m1 && m2 && p1 == "" ==> Trim(MissingNames(p1, m1, p2, m2)) == p2
    ensures m1 && m2 && p2 == "" ==> Trim(MissingNames(p1, m1, p2, m2)) == p1
  {
    var e: string := [];
    var names := MissingNames(p1, m1, p2, m2);
    if m1 && !m2 {
      assert names == e + p1 + " ";
      TrimCharacterization(e, p1, " ");
    } else if !m1 && m2 {
      assert names == e + p2 + " ";
      TrimCharacterization(e, p2, " ");
    } else if m1 && m2 {
      if p1 == "" {
        assert names == " " + p2 + " ";
        TrimCharacterization(" ", p2, " ");
      } else if p2 == "" {
        assert names == e + p1 + "  ";
        TrimCharacterization(e, p1, "  ");
      } else {
        var r := p1 + " " + p2;
        assert r[0] == p1[0] && r[|r| - 1] == p2[|p2| - 1];
        assert names == e + r + " ";
        TrimCharacterization(e, r, " ");
      }
    }
  }
}
