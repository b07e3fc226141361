# MAF record filter, modelled in Dafny

This project models `setup/bin/maf_filter.py`, the Roslin pipeline step that turns a mutation
annotation format (MAF) table into two outputs:

- an **analyst** MAF, which has every column of the input;
- a **portal** MAF, which has the first 45 columns and `HGVSp_Short` renamed to `Amino_Acid_Change`.

Both outputs start with a `# Versions: …` line. The input is deleted once every record has been read without an exception.

The filter works in three stages:

1. It skips the leading comment lines and takes the next line as the header.
2. It resolves the eleven columns its rules read.
3. It streams the records through a fixed, short-circuiting cascade of drop rules:
   - uncalled events;
   - events that failed the false-positive filters;
   - Pindel-only calls;
   - non-coding or deep-intronic splice-region variants;
   - non-coding consequences outside the TERT promoter;
   - in IMPACT mode, the depth, allele-count and VAF cutoffs.

A kept record goes to the analyst output. It also goes to the portal output unless it is a silent
change or more than 2 bases from a splice junction.

Modules, one file each:

- `Wrappers` (`wrappers.dfy`): `Option` and `Result`.
- `Text` (`text.dfy`): the Python string operations the filter uses (`strip`, `split`, `join`,
  `startswith`, `replace`, prefix alternation with `re.match`, substring `re.search`). These are
  written out on `seq<char>`, with the split/join round trips proved.
- `Numbers` (`numbers.dfy`): `int()` as Python reads a decimal integer, proved to read back every
  integer from its decimal spelling.
- `Hgvs` (`hgvs.dfy`): the HGVSc regular expression `[nc]\.\d+[-+](\d+)_\d+[-+](\d+)|[nc]\.\d+[-+](\d+)`
  as an anchored, greedy parser, and the splice distance taken from it. Every match the parser
  returns renders to a prefix of the field. Every well-formed match is found again when it is
  followed by text that neither continues its last digit run nor, after a single position, adds
  a second position.
- `MafRecord` (`record.dfy`): the per-record cascade. Each exception the source can raise on a
  record is a `RowError`: `IndexError` on a short row, `ValueError` on a bad number, and
  `ZeroDivisionError`. Each outcome of the cascade is proved equivalent to a declarative statement:
  `Admits` for a kept record, `Drops` for each drop reason, and `DividesByZero` for the zero depth.
- `MafHeader` (`header.dfy`): comment skipping, the version line, the `HGVSp_Short` rename, the
  45-column portal header and column resolution.
- `MafFilter` (`filter.dfy`): the whole run.
  - `FilterMaf` and the methods it calls are imperative, with the source's two loops. They are
    proved against the specification function `Expected`.
  - `Expected` is built from `Sift`, the record loop as a fold.
  - Lemmas relate `Sift` to the set of admitted records.

Everything the source reads from outside is a parameter:

- the input file is a sequence of lines;
- the version string and the IMPACT flag are given directly.

The two output files are returned as sequences of lines. Deleting the input is returned as a flag.

In several places the code departs from what its own comments suggest. The model follows the code:

- Consequences are matched as regular-expression prefixes of the whole `Consequence` field. They are
  not split into `&`-separated terms.
- The comment on line 65 says the portal skips "genes without Entrez IDs". The test on line 66,
  `line[entrez_id_col] != 0`, compares a string with the integer 0. It is always true, so it never
  excludes a record. Only reading the field can fail.
- The VAF is 0 only when `t_depth` is empty. A depth of `"0"` raises `ZeroDivisionError` when the alternate
  count parses, which ends the run. An alternate count that does not parse raises `ValueError` first.
- In IMPACT mode, a non-hotspot record (`hotspot_whitelist` is `FALSE`) needs at least 10 alternate
  reads *and* a VAF of at least 0.05. A non-hotspot record with 8 or 9 alternate reads is dropped
  whatever its VAF.
- Rows are not checked against the header's width. A portal row has `min(45, width)` fields, and any
  row may be shorter than the header until a rule reads past its end.
- Columns are resolved against the renamed header. `ResolveAfterRename` proves this finds the same
  positions as resolving against the header as read.
- A header without `HGVSp_Short` fails before the portal header is written.
- Any exception ends the run before the input is deleted. Output written up to that point stays
  written.

## Model

| member | source | states |
|---|---|---|
| `Text.Strip` | setup/bin/maf_filter.py:13 | The result is the input with a leading run and a trailing run of stripped characters cut off (`TrimmedTo`). Neither end of the result is a stripped character, so a string whose ends are not stripped is returned unchanged. |
| `Text.StripSlice` | setup/bin/maf_filter.py:13 | Any cut of stripped runs whose remaining ends are not stripped characters is the strip: `strip` removes the longest such runs, and nothing else. |
| `Text.Contains` | setup/bin/maf_filter.py:46 | `re.search` for a literal is true exactly when the literal occurs at some offset of the string. |
| `Text.StartsWithAny` | setup/bin/maf_filter.py:59 | `re.match` of a literal alternation is true exactly when some alternative is a prefix of the string. |
| `Text.Take` | setup/bin/maf_filter.py:23 | The slice `[0:45]` is a prefix of the list, of length 45 or the whole list when it is shorter. |
| `Text.ReplaceChar` | setup/bin/maf_filter.py:10 | `replace('_',' ')` keeps the length, puts the new character where the old one stood and keeps every other character; no old character is left. |
| `Text.Split` | setup/bin/maf_filter.py:13 | `split('\t')` always gives at least one field, and no field contains a tab. |
| `Text.JoinEnds` | setup/bin/maf_filter.py:20 | `'\t'.join` of no fields is empty; otherwise the joined line starts with the first field and ends with the last. |
| `Text.JoinSplit` | setup/bin/maf_filter.py:13-20 | Joining the tab-split header at tabs gives back the header line: the analyst header is the input header. |
| `Text.SplitJoin` | setup/bin/maf_filter.py:64 | Splitting a tab-join of tab-free fields gives back the fields: a written record reads back as itself. |
| `Numbers.ParseInt` | setup/bin/maf_filter.py:52 | `int()` accepts a string exactly when, with surrounding whitespace stripped, it is an optional `+` or `-` followed by at least one digit. The value is that of the digits, negated after `-`. |
| `Numbers.ParseIntOfIntToString` | setup/bin/maf_filter.py:59 | `int()` reads every integer, negative ones included, back from its decimal spelling. |
| `Hgvs.DigitPrefix` | setup/bin/maf_filter.py:49 | The greedy `\d+` returns a digit run and a rest. Together they make up the input, and the rest does not start with a digit. |
| `Hgvs.MatchHgvsc` | setup/bin/maf_filter.py:49 | A match is well formed, and its rendering followed by the unmatched rest is the input. The rest never starts with a digit. |
| `Hgvs.ParseHgvsc` | setup/bin/maf_filter.py:49-50 | A match is well formed and its rendering is a prefix of the field. The next character is not a digit. |
| `Hgvs.ParseHgvscRender` | setup/bin/maf_filter.py:49 | Every well-formed match followed by a non-digit is found again. A single position is found again unless `_` and a second position follow it, because the range form is tried first. |
| `Hgvs.SpliceDistance` | setup/bin/maf_filter.py:52 | A single position gives its offset. A range gives the smaller of its two offsets: no more than either, and equal to one of them. |
| `Hgvs.SpliceDistanceExample` | setup/bin/maf_filter.py:49-52 | `c.123+2_124-1` matches the range form, with splice distance 1. |
| `Hgvs.SpliceDistanceSingleExample` | setup/bin/maf_filter.py:49-52 | `c.1235-3_1235del` fails the range form at `del` and matches the single form, with splice distance 3. |
| `MafRecord.Field` | setup/bin/maf_filter.py:38 | `line[col]` is the field exactly when the row is long enough, and `IndexError` for that column otherwise. |
| `MafRecord.Number` | setup/bin/maf_filter.py:59 | `int(line[col])` succeeds exactly when the field is there and parses, with the parsed value. A short row is `IndexError` and a bad number `ValueError`. |
| `MafRecord.HgvscDistance` | setup/bin/maf_filter.py:44-52 | The distance is 0 when the HGVSc expression does not match, and the match's splice distance when it does. |
| `MafRecord.VafBelow` | setup/bin/maf_filter.py:62 | The cross-multiplied integer comparison agrees with `tumor_vaf < p/q` on the real numbers for every sign of the depth. |
| `MafRecord.TumorVaf` | setup/bin/maf_filter.py:61 | An empty depth gives VAF 0. A parsed depth of 0 is `ZeroDivisionError` when the alt count parses. Otherwise the VAF is alt over depth, each parsed from its field. A missing or unparsable field is an error. |
| `MafRecord.FailsImpactCutoffs` | setup/bin/maf_filter.py:62-63 | The gate keeps a record exactly when the depth is at least 20, alt at least 8 and the VAF at least 0.02, and a `FALSE` hotspot also has alt at least 10 and VAF at least 0.05. It drops a record exactly when a test fails on fields read so far (`FailsCutoffs`), and always when the depth is below 20. It never divides by zero. |
| `MafRecord.AltCountCutoffs` | setup/bin/maf_filter.py:62-63 | With a depth of at least 20: keeps and drops as above, and drops whenever alt is below 8 or the VAF below 0.02. It raises exactly when those pass and the hotspot field is missing, with `IndexError` for that column. |
| `MafRecord.SpliceRule` | setup/bin/maf_filter.py:44-54 | Keeps a record exactly when it is not a splice-region variant, or is one outside `non_coding_` with an HGVSc distance of at most 3, and carries that distance. Drops it as non-coding splice, or as deep intronic, each exactly under its own condition. Raises exactly when the HGVSc field it needs is missing. |
| `MafRecord.CodingRule` | setup/bin/maf_filter.py:56-59 | True exactly when the consequence starts with an allowed prefix, or the gene is TERT at a position in [1295141, 1295340]. False exactly when no prefix matches and the gene is read and is not TERT, or is TERT at a parsed position outside the window. Never divides by zero. |
| `MafRecord.Classify` | setup/bin/maf_filter.py:38-63 | For each of the seven drop reasons, the record is dropped for that reason exactly when `Drops` holds for it. It passes exactly when `Admits` holds, then carrying its row's splice distance, at most 3. It raises `ZeroDivisionError` exactly when `DividesByZero` holds. |
| `MafRecord.ClassifyCalled` | setup/bin/maf_filter.py:43-63 | After the caller and filter rules: never drops for their reasons; each later drop, the pass and the zero division happen exactly under their stage conditions. |
| `MafRecord.CodingStage` | setup/bin/maf_filter.py:55-63 | After the splice rule: drops as non-coding exactly when `FailsCoding` holds; a coding record is dropped, kept with distance `d`, or divides by zero exactly under the IMPACT-stage conditions. |
| `MafRecord.ImpactStage` | setup/bin/maf_filter.py:61-63 | A coding record is kept with its distance exactly when the VAF can be computed and, in IMPACT mode, the cutoffs are met. It is dropped exactly when in IMPACT mode the VAF is computable and a cutoff fails, and it divides by zero exactly when the alt count parses and the depth reads as 0. |
| `MafRecord.PortalRule` | setup/bin/maf_filter.py:66-67 | A kept record goes to the portal exactly when it is not silent, has an Entrez field and has splice distance at most 2. It stays out exactly when it is silent, or too far from the junction with the Entrez field present. A record that is not silent and has no Entrez field raises `IndexError`. |
| `MafHeader.HeaderFields` | setup/bin/maf_filter.py:13 | A header read always has at least one field, and its fields joined at tabs are the line with its line breaks stripped. Past the end of the input it is the single empty name. |
| `MafHeader.HeaderFieldsComment` | setup/bin/maf_filter.py:15 | The first field starts with `#` exactly when the stripped line does. |
| `MafHeader.HeaderIndex` | setup/bin/maf_filter.py:13-16 | The header is the first line that is not a comment: every line before it is one. |
| `MafHeader.VersionLine` | setup/bin/maf_filter.py:10 | The line is `# Versions: ` followed by the version, with every `_` shown as a space and every other character kept. |
| `MafHeader.IndexOf` | setup/bin/maf_filter.py:22 | `list.index`: the first position holding the name, or none exactly when the name is absent. |
| `MafHeader.Lookup` | setup/bin/maf_filter.py:24 | The first position of a column, or the column's own name as the error exactly when it is absent. |
| `MafHeader.ResolveColumns` | setup/bin/maf_filter.py:24-34 | Succeeds exactly when all eleven required names are present, each resolved to its first occurrence. A failure names a missing required column. |
| `MafHeader.Rename` | setup/bin/maf_filter.py:22 | Fails exactly when `HGVSp_Short` is absent. Otherwise only its first occurrence becomes `Amino_Acid_Change`, and the length is kept. |
| `MafHeader.PortalHeader` | setup/bin/maf_filter.py:23 | The renamed header cut to its first 45 names, position by position. |
| `MafHeader.ResolveAfterRename` | setup/bin/maf_filter.py:22-34 | Resolving the required columns after the rename gives the same result as before it. |
| `MafFilter.WithoutReturn` | setup/bin/maf_filter.py:35-36 | The line with its whole trailing run of `\r` removed: a prefix of the line, followed in it only by `\r`, and not itself ending in `\r`. |
| `MafFilter.RecordFields` | setup/bin/maf_filter.py:35-36 | A data line's fields never contain a tab. A line is an empty record exactly when it is empty without its `\r`, and otherwise its fields joined at tabs give that line back. |
| `MafFilter.Records` | setup/bin/maf_filter.py:35-36 | The records are the data lines after the header, one per line, in order. |
| `MafFilter.Step` | setup/bin/maf_filter.py:36-67 | Once a record has raised, a further record changes nothing. A record whose cascade raises ends the run with that error and writes nothing. One record adds at most one line to each output. |
| `MafFilter.ClassifyDrops` | setup/bin/maf_filter.py:38-63 | For every drop reason, the cascade drops a record for that reason exactly when `Drops` holds for it. |
| `MafFilter.StepRaises` | setup/bin/maf_filter.py:38-66 | While the run goes on, a record ends it exactly when `RecordRaises` holds. That is: no rule drops it and the rules do not admit it, or it is admitted, not silent, and too short to hold `Entrez_Gene_Id`. |
| `MafFilter.StepFailureOf` | setup/bin/maf_filter.py:38-66 | While the run goes on, whether a record raises, and which error it raises, depends on that record alone. |
| `MafFilter.SiftCompletes` | setup/bin/maf_filter.py:36-67 | The record loop reaches the end exactly when no record raises. |
| `MafFilter.NoneRaiseSnoc` | setup/bin/maf_filter.py:36 | No record of a list raises exactly when none before the last does and the last does not. |
| `MafFilter.SiftFirstFailure` | setup/bin/maf_filter.py:36-67 | A loop that stops does so at the first record that raises, and its error is the one that record raises on its own. |
| `MafFilter.StepAppends` | setup/bin/maf_filter.py:64-67 | One record only appends: both outputs keep what they held, and the portal grows by no more than the analyst output. |
| `MafFilter.StepAnalyst` | setup/bin/maf_filter.py:38-64 | One record adds nothing to the analyst output, or adds that record, which every rule admits. |
| `MafFilter.Sift` | setup/bin/maf_filter.py:36-67 | The run writes at most one analyst line per record, and no more portal lines than analyst lines. |
| `MafFilter.Expected` | setup/bin/maf_filter.py:10-20 | Both outputs start with the version line, and the analyst output's second line is the header line with its line breaks stripped, or empty when the input has no header line. |
| `MafFilter.Outputs` | setup/bin/maf_filter.py:17-34 | The analyst output starts with the version and header lines, and the portal with the version line. A missing `HGVSp_Short` stops the run with the portal holding its version line only. Otherwise the portal's second line is the renamed header cut to 45 names. A run stopped by a missing column has written no record to either output. |
| `MafFilter.RecordsRun` | setup/bin/maf_filter.py:36-67 | Records are written after both headers, and the run ends normally exactly when the record loop reaches the end. `SiftCompletes` shows that this is exactly when no record raises. |
| `MafFilter.OutputsCompletes` | setup/bin/maf_filter.py:22-70 | The run completes exactly when `HGVSp_Short` and every column the rules read are in the header and no record raises. |
| `MafFilter.ExpectedCompletes` | setup/bin/maf_filter.py:10-70 | For a whole input, the run completes, which is when `FilterMaf` deletes the input, exactly when the header line holds `HGVSp_Short` and every required column and no data record raises. |
| `MafFilter.OutputsMissingColumn` | setup/bin/maf_filter.py:22-34 | The run stops at the header exactly when `HGVSp_Short` or one of the eleven columns the rules read is missing. |
| `MafFilter.ReadHeader` | setup/bin/maf_filter.py:13-16 | The comment-skipping loop stops at the first non-comment line and returns its fields. |
| `MafFilter.WriteRecord` | setup/bin/maf_filter.py:37-67 | Writing one record leaves both outputs as `Step` says, with the error it raises, if any. |
| `MafFilter.WriteRecords` | setup/bin/maf_filter.py:36-67 | The record loop writes the joined lines of `Sift` after each header. It reports the loop's error, with everything written before the failing record kept. `SiftFirstFailure` shows that this error is the one the first raising record raises. |
| `MafFilter.WriteOutputs` | setup/bin/maf_filter.py:17-67 | Writes both header lines, then the renamed and truncated portal header, then the records. The outputs and ending agree with `Outputs`: a missing `HGVSp_Short` leaves the portal with its version line only, and another missing column stops the run before any record. |
| `MafFilter.FilterMaf` | setup/bin/maf_filter.py:10-70 | The run's outputs and ending agree with `Expected`, taking the header to be the first non-comment line and the records to be the lines after it. The input is deleted exactly when the run completes. |
| `MafFilter.SiftSelects` | setup/bin/maf_filter.py:36-67 | When the loop reaches the end, which `SiftCompletes` shows is exactly when no record raises, the analyst records are exactly the admitted ones, in order. The portal records are the admitted ones the portal rule accepts, each cut to 45 fields. |
| `MafFilter.StepSelects` | setup/bin/maf_filter.py:38-67 | One record that raises nothing is written to the analyst output exactly when admitted. It is written to the portal, truncated, exactly when the portal rule also accepts it. |
| `MafFilter.SiftAnalystAdmitted` | setup/bin/maf_filter.py:38-64 | Every analyst record is an input record that every rule admits, even when a later record raises. |
| `MafFilter.SiftPortalWithinAnalyst` | setup/bin/maf_filter.py:64-67 | The portal records are a subsequence of the analyst records, each cut to 45 fields. |
| `MafFilter.TruncatedSubsequenceLength` | setup/bin/maf_filter.py:67 | The portal has no more records than the analyst output, and none has more than 45 fields. |
| `MafFilter.SiftStopsAtFailure` | setup/bin/maf_filter.py:36-67 | Once a record raises, the records after it change nothing. |
| `MafFilter.AnalystLinesReadBack` | setup/bin/maf_filter.py:35-64 | Every analyst data line splits back, at its tabs, into an input record that every rule admits. |
| `MafFilter.RecordReadBack` | setup/bin/maf_filter.py:35-64 | An admitted input record, joined at tabs and split again, is itself. |

## Left out

- Command-line handling is not modelled. This covers reading `sys.argv` and `bool(sys.argv[3])`,
  which is true for any non-empty argument string. The mode is a `bool` parameter.
- Opening, reading, writing and closing files are not modelled. The input is a sequence of lines
  without their `\n`, and the outputs are sequences of lines.
- `os.remove` is the `inputDeleted` result. An I/O error is not modelled.
- `MafFilter.RecordFields`: `csv.reader` quoting is left out. A data line is split at every tab after
  its trailing run of `\r` is dropped, and an empty line is an empty record. A quoted field containing a tab
  or a newline is therefore not modelled. Python 2's `csv.reader` raises an error on a `\r` inside a
  line (a new-line character seen in an unquoted field); the model reads such a `\r` as data.
- `Numbers.ParseInt`: `float()` on `t_alt_count` and `t_depth` is modelled by the same integer parser
  as `int()`. Decimal points, exponents, `inf`, `nan` and floating-point rounding are not modelled. The VAF comparisons are exact.
- `MafHeader.ResolveColumns`: a failure is stated only to name a required column that is missing. The
  lookups run in the source's order, so it is the first one, but that order is not part of the
  contract: a proof over the eleven names was too costly for the verifier.
- `Numbers.ParseInt`: whitespace between the sign and the digits, and non-ASCII digits and
  whitespace, are not modelled.
- The test script `setup/examples/unit-test/test_output.py` is not part of this model. It depends on
  the pipeline's output files and JSON test fixtures.
