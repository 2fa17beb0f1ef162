# Genetic search (Lab1) in Dafny

This project models the console program of `Lab/Lab1/Program.cs` and proves properties of the model. The program:

- loads a tab-separated dataset of proteins (protein, organism, amino-acid sequence);
- reads a list of command lines (`search`, `diff`, `mode`);
- appends numbered result blocks to a transcript that starts with the lines `Katya` and `Генетический поиск`.

The modules follow the program's parts:

- `Sequences` — small facts about sequences (associativity, prefixes, appending nothing) that the proofs name as steps.
- `Text` — the pieces of the .NET string library the program relies on:
  - `char.IsWhiteSpace`, `string.IsNullOrWhiteSpace` and `Trim`;
  - `Split('\t')`;
  - ASCII digits;
  - the ordinal case-insensitive comparison;
  - `int.ToString()` and the `D3` format.
- `RunLength` — the run-length notation of search queries:
  - the decoder `RLDecoding` and the encoder `RLEncoding`;
  - each is a loop method proved equal to a recursive definition;
  - the round trip holds for digit-free strings.
- `Analytics` — `AminoDifference` (the position-by-position difference, padded with `'\0'`) and `ModeAminoAcid` (the most frequent character, ties to the least).
  - Each is a loop method proved equal to a specification whose properties are proved as lemmas.
- `Records` — the `GeneticData` record (`Program.cs:7-12`) and the parsing of dataset lines, plus two operations over the records:
  - the case-insensitive `FirstOrDefault` lookup by protein, with its "missing" test;
  - the ordinal substring search over sequences.
- `Lab1` — class `Program`:
  - Its fields `data`, `outputLines` and `operationCounter` (`Program.cs:16-18`) are updated in place by:
    - `ReadGeneticData`;
    - `AddOperationSeparator`;
    - the three command handlers;
    - the main loop.
  - The loop is specified by the pure function `Transcript`, which gives each command line's block and numbers the blocks with a counter.
  - Lemmas about `Transcript` give the numbering, the blank-line and unknown-command rules, and the layout of a block.

Two behaviours of the code are kept exactly as written:

- A `search` echoes the decoded query in its header but matches the query as written (`SearchLine`, `SearchEchoesDecodedQuery`).
- A blank command line takes no number, while every other line does, whether or not it produced a block (`BlankLineIgnored`, `CounterCountsCommands`, `UnhandledLine`).

Three details of the code that a reader might not expect:

- **Mode line.** The result line of `mode` is `"{am}\t\t {count} "`, with a space after the two tabs and a trailing space (`Program.cs:183`, `ModeLine`).
- **Padding.** The difference pads the shorter sequence with `'\0'`. A real `'\0'` in the longer sequence therefore matches the padding, so `AminoDifference("", s) == |s|` holds exactly for the `s` that contain no `'\0'` (`DifferenceFromEmptyIff`, `DifferenceOfUnequalLengths`).
- **Empty names.** A lookup reports a name as missing when the record found has an empty protein (`Program.cs:152-153, 176`). So an empty name is always missing, as is a name no protein matches (`MissingIff`).

## Model

| member | source | states |
|---|---|---|
| Text.Trim | Lab/Lab1/Program.cs:92-94 | the trimmed string is no longer than its input; it is empty exactly when the input is all white space; otherwise it neither starts nor ends with white space |
| Text.TrimCharacterization | Lab/Lab1/Program.cs:92-94 | for white-space `a` and `b` and a core `r` that neither starts nor ends with white space, `Trim(a + r + b) == r` |
| Text.TrimIdempotent | Lab/Lab1/Program.cs:92-94 | trimming twice is trimming once |
| Text.TrimUntouched | Lab/Lab1/Program.cs:38 | a string with no white space at either end is its own trim (the command names and queries that need no trimming) |
| Text.IsWhiteSpace | Lab/Lab1/Program.cs:92-94 | definition: the characters of `char.IsWhiteSpace` (U+0009..U+000D, space, U+0085, U+00A0, U+1680, U+2000..U+200A, U+2028, U+2029, U+202F, U+205F, U+3000) |
| Text.IsBlank | Lab/Lab1/Program.cs:85 | definition: `string.IsNullOrWhiteSpace`, every character is white space (the empty line included) |
| Text.SplitOnTab | Lab/Lab1/Program.cs:35 | `Split('\t')` gives at least one field, and no field holds a tab |
| Text.JoinSplit | Lab/Lab1/Program.cs:87 | joining the fields of a line with tabs gives back the line |
| Text.SplitJoin | Lab/Lab1/Program.cs:87-88 | splitting tab-joined tab-free fields gives back exactly those fields |
| Text.EqualsIgnoreCase | Lab/Lab1/Program.cs:149-150 | definition: the ordinal case-insensitive comparison, equal lengths and equal characters after upper-casing the ASCII letters |
| Text.IsDigit | Lab/Lab1/Program.cs:194 | definition: `char.IsDigit`, taken as the ASCII digits `'0'..'9'` |
| Text.DigitValue | Lab/Lab1/Program.cs:196 | `c - '0'` of a digit lies in 0..9 |
| Text.DigitChar | Lab/Lab1/Program.cs:229 | the one-character text of a run length 0..9 is a digit whose value is that length |
| Text.DecimalString | Lab/Lab1/Program.cs:167 | `ToString()` of a count is a non-empty string of digits with no leading zero unless the count is 0 |
| Text.DecimalRoundTrip | Lab/Lab1/Program.cs:167 | reading back the digits of `ToString()` gives the number |
| Text.FormatD3 | Lab/Lab1/Program.cs:114 | the `D3` text of the counter is at least three digits, denotes the counter, and has a leading zero only when shorter than four digits |
| RunLength.Repeat | Lab/Lab1/Program.cs:200 | appending `a` n times gives n copies of `a` |
| RunLength.Decode | Lab/Lab1/Program.cs:187-214 | definition of the decoding: a digit d followed by a character a gives a d times and consumes both; a final digit is kept; any other character is copied. Its properties are DecodeDigitFree, DecodeAppend, DecodeRepeats and TrailingDigitKept, and RLDecoding is proved equal to it |
| RunLength.DecodeDigitFree | Lab/Lab1/Program.cs:208-211 | every character that is not a digit is copied, so a digit-free string decodes to itself |
| RunLength.DecodeAppend | Lab/Lab1/Program.cs:191-212 | a prefix that leaves no digit waiting for its character decodes independently of what follows |
| RunLength.DecodeRepeats | Lab/Lab1/Program.cs:194-202 | a digit `d` followed by any character `a`, even a digit, emits `a` exactly `d` times and consumes both (`0` drops `a`) |
| RunLength.TrailingDigitKept | Lab/Lab1/Program.cs:203-206 | a digit in last position is emitted as itself |
| RunLength.LeadingRun | Lab/Lab1/Program.cs:224-226 | the scanned run has 1 to 9 copies of its first character and stops at a different character or at 9 |
| RunLength.LeadingRunUnique | Lab/Lab1/Program.cs:224-226 | those three facts determine the run length |
| RunLength.Chunk | Lab/Lab1/Program.cs:227-235 | definition of the group one run of n (1..9) copies of c becomes: the digit of n then c when n >= 3, otherwise c written n times (DecodeChunk decodes it back) |
| RunLength.Encode | Lab/Lab1/Program.cs:216-239 | definition of the encoding: the leading run (at most 9) becomes `<n><c>` when n >= 3 and stays literal otherwise, then the rest is encoded. Its properties are EncodeRun, EncodeTwelve, EncodeNoLonger and DecodeEncode, and RLEncoding is proved equal to it |
| RunLength.EncodeRun | Lab/Lab1/Program.cs:226-235 | a run of n <= 9 that ends there becomes `<n><c>` when n >= 3 and stays literal when n is 1 or 2, and then encoding goes on |
| RunLength.EncodeTwelve | Lab/Lab1/Program.cs:225-231 | twelve equal characters become two groups, `9c` then `3c` |
| RunLength.EncodeNoLonger | Lab/Lab1/Program.cs:221-237 | an encoding is never longer than its input |
| RunLength.DecodeChunk | Lab/Lab1/Program.cs:227-235 | one emitted group of a non-digit character decodes back to its run |
| RunLength.RunSplit | Lab/Lab1/Program.cs:224-226 | a string is its leading run followed by the rest |
| RunLength.EncodeStep | Lab/Lab1/Program.cs:221-237 | encoding from position i emits the group of the run that the scan measured, then continues where the scan stopped |
| RunLength.DecodeEncode | Lab/Lab1/Program.cs:187-239 | decoding the encoding of a digit-free string gives the string back |
| RunLength.RLDecoding | Lab/Lab1/Program.cs:187-214 | the loop with its string builder returns the decoding of its input, the empty string included |
| RunLength.ScanRun | Lab/Lab1/Program.cs:224-226 | the inner scan stops after 1 to 9 equal characters, at a different character or at 9 |
| RunLength.AppendRun | Lab/Lab1/Program.cs:227-235 | the builder is extended by the run length and the character, or by the literal characters |
| RunLength.RLEncoding | Lab/Lab1/Program.cs:216-239 | the loop returns the encoding of its input, the empty string included |
| Analytics.MismatchesBelow | Lab/Lab1/Program.cs:245-250 | the count of differing padded positions below n is at most n |
| Analytics.Difference | Lab/Lab1/Program.cs:243-251 | the difference lies in 0..max(\|a\|, \|b\|) |
| Analytics.DifferenceCountsMismatches | Lab/Lab1/Program.cs:243-251 | the difference is the number of indices below the longer length at which the `'\0'`-padded sequences differ |
| Analytics.DifferenceEqualLength | Lab/Lab1/Program.cs:245-250 | for equal lengths, it is the number of indices with `a[i] != b[i]` |
| Analytics.DifferenceSelf | Lab/Lab1/Program.cs:243-251 | a sequence does not differ from itself |
| Analytics.DifferenceSymmetric | Lab/Lab1/Program.cs:243-251 | the difference is symmetric in its arguments |
| Analytics.DifferenceOfUnequalLengths | Lab/Lab1/Program.cs:247-249 | when the longer sequence holds no `'\0'`, every index past the shorter length counts |
| Analytics.DifferenceFromEmpty | Lab/Lab1/Program.cs:247-249 | `Difference("", s) == \|s\|` when `s` holds no `'\0'` |
| Analytics.MismatchesBelowAgreement | Lab/Lab1/Program.cs:245-250 | an index below n at which the padded sequences agree keeps the count strictly below n |
| Analytics.DifferenceFromEmptyIff | Lab/Lab1/Program.cs:247-249 | `Difference("", s) == \|s\|` exactly when `s` holds no `'\0'`; a `'\0'` in `s` matches the padding |
| Analytics.AminoDifference | Lab/Lab1/Program.cs:241-252 | the loop returns exactly the difference |
| Analytics.BestOf | Lab/Lab1/Program.cs:263-266 | the chosen character occurs in the candidates and ranks first among them: no more frequent character, and no equally frequent one below it |
| Analytics.Mode | Lab/Lab1/Program.cs:254-267 | `('?', 0)` for an empty sequence; otherwise a character of the sequence with its occurrence count, with no character occurring more often, and the least among those reaching that count |
| Analytics.ModeUnique | Lab/Lab1/Program.cs:263-266 | the mode and its count are determined uniquely |
| Analytics.CountOccurrences | Lab/Lab1/Program.cs:256-261 | the dictionary holds exactly the characters of the sequence, each with its number of occurrences |
| Analytics.MaxValue | Lab/Lab1/Program.cs:263 | `Values.Max()` bounds every count and is reached by one |
| Analytics.Least | Lab/Lab1/Program.cs:264-266 | the first of the sorted candidates is a candidate no greater than any other |
| Analytics.ModeAminoAcid | Lab/Lab1/Program.cs:254-267 | the method returns exactly the mode and its count, `('?', 0)` on empty input |
| Records.ParseLineTrimmed | Lab/Lab1/Program.cs:85-95 | a blank dataset line gives no record, and every record's fields are trimmed |
| Records.ParseLine | Lab/Lab1/Program.cs:85-95 | definition of one dataset line: no record when it is blank or has fewer than three tab fields, otherwise the record of the first three fields, trimmed (ParseLineTrimmed, ParseLineFields, ParseLineTooFewFields) |
| Records.ParseLineFields | Lab/Lab1/Program.cs:87-95 | a line of three or more tab-free fields that is not blank gives the record of the first three fields, trimmed; the fields after the third are ignored |
| Records.ParseLineTooFewFields | Lab/Lab1/Program.cs:88 | a line with fewer than three fields gives no record |
| Records.ParseAllConcat | Lab/Lab1/Program.cs:83-97 | the records of two blocks of lines are those of the first followed by those of the second: file order is kept |
| Records.ParseAll | Lab/Lab1/Program.cs:83-97 | the records of the dataset lines in line order, each line giving its record if any; there are never more records than lines |
| Records.ParseAllTrimmed | Lab/Lab1/Program.cs:90-95 | every stored record has trimmed fields |
| Records.FindIndex | Lab/Lab1/Program.cs:149 | the index found is the first whose protein equals the name ignoring case; none is found exactly when no protein matches |
| Records.FirstOrDefault | Lab/Lab1/Program.cs:149-150 | the lookup returns a stored record or the default record |
| Records.Missing | Lab/Lab1/Program.cs:152-153 | definition: the lookup's result has an empty protein (MissingIff states when that happens) |
| Records.MissingIff | Lab/Lab1/Program.cs:149-153 | a name is reported missing exactly when it is empty or no protein equals it ignoring case |
| Records.FoundIsFirstMatch | Lab/Lab1/Program.cs:173 | a name that is not missing finds the first record whose protein matches it |
| Records.ContainsIff | Lab/Lab1/Program.cs:127 | ordinal `Contains` holds exactly when the query occurs at some index |
| Records.Contains | Lab/Lab1/Program.cs:127 | definition of ordinal `Contains`: q is a prefix of s or of one of its suffixes (ContainsIff, ContainsEmpty) |
| Records.ContainsEmpty | Lab/Lab1/Program.cs:127 | every sequence contains the empty query |
| Records.Matches | Lab/Lab1/Program.cs:124-129 | the (organism, protein) pairs of the records whose sequence contains the query, in data order; never more pairs than records (MatchesMembers, MatchesConcat, MatchesEmptyQuery) |
| Records.MatchesMembers | Lab/Lab1/Program.cs:125-129 | a pair (organism, protein) is found exactly when some record with that organism and protein contains the query |
| Records.MatchesConcat | Lab/Lab1/Program.cs:125-129 | the hits over two blocks of records are those of the first then those of the second: data order is kept |
| Records.MatchesEmptyQuery | Lab/Lab1/Program.cs:125-129 | the empty query finds every record, in data order |
| Lab1.HitLines | Lab/Lab1/Program.cs:140-143 | one `organism\tprotein` line per hit, in order |
| Lab1.SeparatorLines | Lab/Lab1/Program.cs:111-119 | definition of the two lines `AddOperationSeparator` appends: the 69-dash line, then the header line |
| Lab1.MissingNames | Lab/Lab1/Program.cs:159-161 | definition of the `missing` string before trimming: p1 and a space if p1 is missing, then p2 and a space if p2 is missing (MissingNamesReport gives its trim) |
| Lab1.HeaderLine | Lab/Lab1/Program.cs:111-119 | definition: the `D3` counter, then a tab and the command, or a single space when the command is empty |
| Lab1.SearchLines | Lab/Lab1/Program.cs:131-144 | the column heading `organism\t\t\tprotein` first and at least one more line: `NOT FOUND` when no record contains the query as written, otherwise one hit line per match in data order |
| Lab1.DiffLines | Lab/Lab1/Program.cs:155-168 | exactly two lines, the heading `amino-acids difference:` and then either `Отсутствует: ` with the trimmed missing names (p1 before p2) or the decimal difference of the two found sequences |
| Lab1.ModeLine | Lab/Lab1/Program.cs:183 | definition: the mode character, two tabs, a space, the decimal count and a trailing space |
| Lab1.ModeLines | Lab/Lab1/Program.cs:174-184 | exactly two lines, the heading `amino-acids occurs: ` and then `Отсутствует: <name>` or the mode line of the found sequence |
| Lab1.Block | Lab/Lab1/Program.cs:33-70 | definition of the lines one command line appends: nothing for a blank line, otherwise its CommandBlock |
| Lab1.CommandBlock | Lab/Lab1/Program.cs:38-70 | definition of the case-sensitive switch on the trimmed first field: search (2+ fields) echoes the decoded query and searches the raw one, diff (3+ fields) echoes and compares two trimmed names, mode (2+ fields) echoes and looks up one trimmed name, anything else appends nothing |
| Lab1.CounterAfter | Lab/Lab1/Program.cs:31-72 | the counter after a run of command lines: it lies between its start and its start plus the number of lines, and advances exactly on lines that are not blank (CounterCountsCommands) |
| Lab1.Advance | Lab/Lab1/Program.cs:33-71 | definition of one counter step: a blank line leaves the counter, any other line adds one |
| Lab1.Transcript | Lab/Lab1/Program.cs:31-72 | definition of the main loop's output: the blocks of the command lines in order, each numbered by CounterAfter of the lines before it (TranscriptConcat, BlankLineIgnored) |
| Lab1.Program.constructor | Lab/Lab1/Program.cs:16-18 | the dataset and the transcript start empty and the counter at 1 |
| Lab1.Program.ReadGeneticData | Lab/Lab1/Program.cs:83-97 | the dataset is extended by the records of the lines, in order |
| Lab1.Program.ReadLine | Lab/Lab1/Program.cs:85-96 | one pass of the reading loop: the dataset gains the record of the line, if it gives one, and nothing else changes |
| Lab1.Program.AddOperationSeparator | Lab/Lab1/Program.cs:109-120 | the transcript gains the dash line and `D3(counter)` followed by a tab and the command, or a space when the command is empty |
| Lab1.Program.SearchCommand | Lab/Lab1/Program.cs:122-145 | the transcript gains the column heading and then one line per record containing the query, or `NOT FOUND` |
| Lab1.Program.DiffCommand | Lab/Lab1/Program.cs:147-169 | the transcript gains the heading and then the trimmed missing names, or the decimal difference of the two sequences |
| Lab1.Program.ModeCommand | Lab/Lab1/Program.cs:171-185 | the transcript gains the heading and then the missing name, or the mode line |
| Lab1.Program.ProcessLine | Lab/Lab1/Program.cs:33-71 | one command line appends its block; the counter advances exactly when the line is not blank |
| Lab1.Program.Dispatch | Lab/Lab1/Program.cs:38-70 | the switch on the trimmed command appends the block of search, diff or mode, or nothing |
| Lab1.Program.Run | Lab/Lab1/Program.cs:28-72 | after loading, the transcript gains the two title lines and then the blocks of all command lines; the counter ends at the count defined by `CounterAfter`; the data is the loaded records |
| Lab1.RunProgram | Lab/Lab1/Program.cs:22-72 | from the initial state the output is the two title lines followed by the blocks of the command lines over the loaded records |
| Lab1.Output | Lab/Lab1/Program.cs:28-74 | definition of the written transcript: `Katya`, `Генетический поиск`, then the Transcript of the commands numbered from 1 over the records of the dataset lines |
| Lab1.TranscriptSnoc | Lab/Lab1/Program.cs:31-72 | one more command line adds its block, numbered after the lines before it |
| Lab1.TranscriptConcat | Lab/Lab1/Program.cs:31-72 | processing two runs of command lines is processing the first, then the second numbered from where the first left the counter |
| Lab1.BlankLineIgnored | Lab/Lab1/Program.cs:33 | a blank command line anywhere changes neither the transcript nor the numbers of later blocks |
| Lab1.CounterCountsCommands | Lab/Lab1/Program.cs:33-71 | the counter advances by exactly the number of lines that are not blank |
| Lab1.UnhandledLine | Lab/Lab1/Program.cs:40-71 | a line with an unknown command, or a known one with too few fields, appends nothing but still takes a number |
| Lab1.OtherBlock | Lab/Lab1/Program.cs:40-70 | proof step for Dispatch, one case of CommandBlock: no case of the switch applies, so the block is empty |
| Lab1.SearchBlock | Lab/Lab1/Program.cs:42-50 | proof step for Dispatch, one case of CommandBlock: a search block is the separator with the decoded query echoed, then the search over the trimmed query as written |
| Lab1.DiffBlock | Lab/Lab1/Program.cs:52-60 | proof step for Dispatch, one case of CommandBlock: a diff block is the separator with both trimmed names echoed, then the diff result |
| Lab1.ModeBlock | Lab/Lab1/Program.cs:62-69 | proof step for Dispatch, one case of CommandBlock: a mode block is the separator with the trimmed name echoed, then the mode result |
| Lab1.BlockLayout | Lab/Lab1/Program.cs:109-120 | every non-empty block has at least four lines: the dash line, the `D3` counter and a tab, a command heading, and at least one result line |
| Lab1.SearchLine | Lab/Lab1/Program.cs:45-48 | the line `search\t<q>` echoes the decoded trimmed query but searches for the trimmed query as written |
| Lab1.SearchEchoesDecodedQuery | Lab/Lab1/Program.cs:127 | `3A` decodes to `AAA`, yet searching `3A` does not list a record with sequence `AAA` while searching `AAA` does |
| Lab1.MissingNamesReport | Lab/Lab1/Program.cs:157-163 | the missing-names line lists the names not found, p1 before p2, separated by one space, with no surrounding space |

## Left out

- File and console I/O (`Program.cs:25-26, 74-75, 82, 99-106`) is not modelled:
  - The dataset lines and the command lines are parameters of `Run`.
  - The transcript is the result instead of a file.
  - A missing or unreadable dataset file corresponds to `Run` with no dataset lines. The messages printed in that case are not modelled.
- The static fields of the program are instance fields of `Lab1.Program`, and `RunProgram` starts from a fresh instance.
- The `parts.Length == 0` test (`Program.cs:36`) is not modelled: `Split` always returns at least one field (`Text.SplitOnTab`), so that branch never runs.
- Text.IsDigit: only the ASCII digits are digits. `char.IsDigit` also accepts other Unicode decimal digits, for which `c - '0'` is not a run length of 0..9.
- Text.EqualsIgnoreCase: only the ASCII letters are case-folded. The ordinal case-insensitive comparison of .NET also folds other letters.
- Strings are sequences of Unicode scalar values, not UTF-16 code units, so surrogate pairs are not modelled. The ordering of characters in the mode tie-break is their code order.
- Culture-specific number formatting is left out. `ToString()` and `D3` produce ASCII digits.
- 32-bit `int` overflow of the operation counter and of the counts is left out: they are unbounded naturals.
- The dictionary of `ModeAminoAcid` is a map, and the sorting of the candidates (`Program.cs:265`) is modelled as taking their least element, which is all the code uses of the sorted list.
- Null strings are modelled as "": the default record of a failed lookup has empty fields, and the code only tests it with `string.IsNullOrEmpty`.
- `IsValidAminoAcidSequence` and `validAminoAcids` (`Program.cs:20, 269-272`) are unreferenced, so they are not modelled.
- `SearchAminoAcids` and `findModeAminoAcid` (`Program.cs:274-308`) are never called and only print to the console, so they are not modelled.
- `test` (`Program.cs:310-321`) is an instance method that nothing calls; it appends the `'a'` characters of its builder to the builder and returns the result. It is not modelled.
