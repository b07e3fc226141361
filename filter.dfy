/**
 * The whole filter run: header preparation, then one pass over the data records that writes each
 * surviving record to the analyst output and, unless the portal rule excludes it, its first 45
 * fields to the portal output. Outputs are sequences of lines, each written followed by a newline.
 * Line numbers in this module refer to `setup/bin/maf_filter.py`.
 */
module MafFilter {
  import opened Wrappers
  import opened Text
  import opened MafRecord
  import opened MafHeader

  /**
   * A data line without the run of `\r` the reader drops from its end: once a field ends at a line
   * break, every further `\r` is swallowed.
   */
  function WithoutReturn(line: string): (t: string)
    ensures t <= line
    ensures forall i :: |t| <= i < |line| ==> line[i] == '\r'
    ensures t == [] || t[|t| - 1] != '\r'
  {
    if line != [] && line[|line| - 1] == '\r' then WithoutReturn(line[..|line| - 1]) else line
  }

  /**
   * A data line as the tab-separated reader yields it: the line terminator is dropped, an empty
   * line has no fields, and every other line is split at each tab, so that joining the fields at
   * tabs gives the line back.
   */
  function RecordFields(line: string): (row: seq<string>)
    ensures forall k :: 0 <= k < |row| ==> '\t' !in row[k]
    ensures row == [] <==> WithoutReturn(line) == []
    ensures row != [] ==> Join(row, '\t') == WithoutReturn(line)
  {
    var t := WithoutReturn(line);
    if t == [] then []
    else
      JoinSplit(t, '\t');
      Split(t, '\t')
  }

  /** The records of the lines from index `first` on. */
  function Records(lines: seq<string>, first: nat): (rows: seq<seq<string>>)
    ensures |rows| == if first <= |lines| then |lines| - first else 0
    ensures forall j :: 0 <= j < |rows| ==> rows[j] == RecordFields(lines[first + j])
  {
    if first <= |lines| then seq(|lines| - first, j requires 0 <= j < |lines| - first => RecordFields(lines[first + j]))
    else []
  }

  /** What the record loop has written so far, and the error that stopped it, if any. */
  datatype Sifted = Sifted(analyst: seq<seq<string>>, portal: seq<seq<string>>, failure: Option<RowError>)

  /**
   * Lines 36-67 for one record, after the records before it have left `s`: once a record has raised,
   * nothing more happens, and otherwise at most one line is added to each output.
   */
  function Step(s: Sifted, row: seq<string>, c: Columns, isImpact: bool): (r: Sifted)
    ensures s.failure.Some? ==> r == s
    ensures s.failure.None? && Classify(row, c, isImpact).Err? ==>
      r == s.(failure := Some(Classify(row, c, isImpact).error))
    ensures |r.analyst| <= |s.analyst| + 1 && |r.portal| <= |s.portal| + 1
  {
    if s.failure.Some? then s
    else
      match Classify(row, c, isImpact)
      case Err(e) => s.(failure := Some(e))
      case Ok(Drop(_)) => s
      case Ok(Pass(d)) =>
        var analyst := s.analyst + [row];
        match PortalRule(row, c, d)
        case Err(e) => Sifted(analyst, s.portal, Some(e))
        case Ok(toPortal) => Sifted(analyst, if toPortal then s.portal + [Take(row, PortalWidth)] else s.portal, None)
  }

  /**
   * The record loop over `rows`, one `Step` per record, stopping at the first error. It writes at
   * most one analyst line per record, and no more portal lines than analyst lines.
   */
  function Sift(rows: seq<seq<string>>, c: Columns, isImpact: bool): (r: Sifted)
    ensures |r.portal| <= |r.analyst| <= |rows|
    decreases |rows|
  {
    if rows == [] then Sifted([], [], None)
    else
      StepAppends(Sift(rows[..|rows| - 1], c, isImpact), rows[|rows| - 1], c, isImpact);
      Step(Sift(rows[..|rows| - 1], c, isImpact), rows[|rows| - 1], c, isImpact)
  }

  /** The rows of `rows` that `p` admits, in order. */
  function Select(rows: seq<seq<string>>, c: Columns, isImpact: bool, portal: bool): seq<seq<string>>
    decreases |rows|
  {
    if rows == [] then []
    else
      var last := rows[|rows| - 1];
      Select(rows[..|rows| - 1], c, isImpact, portal) +
        (if Admits(last, c, isImpact) && (portal ==> PortalAdmits(last, c)) then [last] else [])
  }

  /** Line 66, stated on its own: not a silent change, an Entrez_Gene_Id field, and a splice distance of at most 2. */
  predicate PortalAdmits(row: seq<string>, c: Columns) {
    c.consequence < |row| && !StartsWithAny(PortalSilent, row[c.consequence]) &&
    c.entrez < |row| && RowSpliceDistance(row, c) <= 2
  }

  /** Each row cut to its first 45 fields. */
  function TruncateAll(rows: seq<seq<string>>): (r: seq<seq<string>>)
    ensures |r| == |rows|
    ensures forall j :: 0 <= j < |rows| ==> r[j] == Take(rows[j], PortalWidth)
  {
    if rows == [] then [] else TruncateAll(rows[..|rows| - 1]) + [Take(rows[|rows| - 1], PortalWidth)]
  }

  /** `p` is the 45-field truncation of a subsequence of `a`. */
  predicate TruncatedSubsequence(p: seq<seq<string>>, a: seq<seq<string>>)
    decreases |a|
  {
    if p == [] then true
    else if a == [] then false
    else
      (p[|p| - 1] == Take(a[|a| - 1], PortalWidth) && TruncatedSubsequence(p[..|p| - 1], a[..|a| - 1])) ||
      TruncatedSubsequence(p, a[..|a| - 1])
  }

  /** The records the run keeps, when no record fails: exactly the admitted ones, in input order. */
  lemma {:induction false} SiftSelects(rows: seq<seq<string>>, c: Columns, isImpact: bool)
    requires Sift(rows, c, isImpact).failure.None?
    ensures Sift(rows, c, isImpact).analyst == Select(rows, c, isImpact, false)
    ensures Sift(rows, c, isImpact).portal == TruncateAll(Select(rows, c, isImpact, true))
  {
    if rows != [] {
      var init := rows[..|rows| - 1];
      var last := rows[|rows| - 1];
      StepSelects(Sift(init, c, isImpact), last, c, isImpact);
      SiftSelects(init, c, isImpact);
      var sel := Select(init, c, isImpact, true);
      if Admits(last, c, isImpact) && PortalAdmits(last, c) {
        TruncateAllAppend(sel, last);
      } else {
        assert sel + [] == sel;
      }
    }
  }

  /** A step that raises nothing writes the record exactly when the rules admit it. */
  lemma StepSelects(s: Sifted, row: seq<string>, c: Columns, isImpact: bool)
    requires Step(s, row, c, isImpact).failure.None?
    ensures s.failure.None?
    ensures Step(s, row, c, isImpact).analyst == s.analyst + (if Admits(row, c, isImpact) then [row] else [])
    ensures Step(s, row, c, isImpact).portal ==
      s.portal + (if Admits(row, c, isImpact) && PortalAdmits(row, c) then [Take(row, PortalWidth)] else [])
  {
    match Classify(row, c, isImpact)
    case Err(_) =>
    case Ok(Drop(_)) =>
      assert s.analyst + [] == s.analyst && s.portal + [] == s.portal;
    case Ok(Pass(d)) =>
      StepPass(s, row, c, isImpact, d);
      assert PortalRule(row, c, d) == Ok(PortalAdmits(row, c));
      assert s.portal + [] == s.portal;
  }

  /** Truncating one more row appends its truncation. */
  lemma TruncateAllAppend(rows: seq<seq<string>>, row: seq<string>)
    ensures TruncateAll(rows + [row]) == TruncateAll(rows) + [Take(row, PortalWidth)]
  {
    assert (rows + [row])[..|rows|] == rows;
  }

  /** Every record the run writes to the analyst output is admitted by every rule. */
  lemma {:induction false} SiftAnalystAdmitted(rows: seq<seq<string>>, c: Columns, isImpact: bool)
    ensures forall r :: r in Sift(rows, c, isImpact).analyst ==> Admits(r, c, isImpact)
    ensures forall r :: r in Sift(rows, c, isImpact).analyst ==> r in rows
  {
    if rows != [] {
      var init := rows[..|rows| - 1];
      SiftAnalystAdmitted(init, c, isImpact);
      StepAnalyst(Sift(init, c, isImpact), rows[|rows| - 1], c, isImpact);
      assert forall r :: r in init ==> r in rows;
    }
  }

  /** One record's step writes nothing to the analyst output, or that record, which the rules admit. */
  lemma StepAnalyst(s: Sifted, row: seq<string>, c: Columns, isImpact: bool)
    ensures var t := Step(s, row, c, isImpact);
      t.analyst == s.analyst || (t.analyst == s.analyst + [row] && Admits(row, c, isImpact))
  {
    if s.failure.None? && Classify(row, c, isImpact).Ok? && Classify(row, c, isImpact).value.Pass? {
      StepPass(s, row, c, isImpact, Classify(row, c, isImpact).value.spliceDistance);
    }
  }

  /**
   * The portal output is the analyst output with some records left out and the rest cut to 45 fields,
   * even when a record error stops the run part way.
   */
  lemma {:induction false} SiftPortalWithinAnalyst(rows: seq<seq<string>>, c: Columns, isImpact: bool)
    ensures TruncatedSubsequence(Sift(rows, c, isImpact).portal, Sift(rows, c, isImpact).analyst)
  {
    if rows != [] {
      var init := rows[..|rows| - 1];
      SiftPortalWithinAnalyst(init, c, isImpact);
      StepTruncated(Sift(init, c, isImpact), rows[|rows| - 1], c, isImpact);
    }
  }

  /** One record's step keeps the portal a truncated subsequence of the analyst output. */
  lemma StepTruncated(s: Sifted, row: seq<string>, c: Columns, isImpact: bool)
    requires TruncatedSubsequence(s.portal, s.analyst)
    ensures TruncatedSubsequence(Step(s, row, c, isImpact).portal, Step(s, row, c, isImpact).analyst)
  {
    var t := Step(s, row, c, isImpact);
    StepShape(s, row, c, isImpact);
    if t.analyst == s.analyst + [row] {
      ExtendAnalyst(s.portal, s.analyst, row);
      if t.portal != s.portal {
        ExtendBoth(s.portal, s.analyst, row);
      }
    }
  }

  /** A step writes nothing, the record to the analyst output only, or the record to both outputs. */
  lemma StepShape(s: Sifted, row: seq<string>, c: Columns, isImpact: bool)
    ensures var t := Step(s, row, c, isImpact);
      (t.analyst == s.analyst && t.portal == s.portal) ||
      (t.analyst == s.analyst + [row] && (t.portal == s.portal || t.portal == s.portal + [Take(row, PortalWidth)]))
  {
    if s.failure.None? {
      match Classify(row, c, isImpact)
      case Err(_) =>
      case Ok(Drop(_)) =>
      case Ok(Pass(d)) =>
        StepPass(s, row, c, isImpact, d);
    }
  }

  /** Writing a record to both outputs keeps the portal a truncated subsequence. */
  lemma ExtendBoth(p: seq<seq<string>>, a: seq<seq<string>>, row: seq<string>)
    requires TruncatedSubsequence(p, a)
    ensures TruncatedSubsequence(p + [Take(row, PortalWidth)], a + [row])
  {
    var a' := a + [row];
    var p' := p + [Take(row, PortalWidth)];
    assert a'[..|a'| - 1] == a && p'[..|p'| - 1] == p;
  }

  /** Writing a record to the analyst output alone keeps the portal a truncated subsequence. */
  lemma ExtendAnalyst(p: seq<seq<string>>, a: seq<seq<string>>, row: seq<string>)
    requires TruncatedSubsequence(p, a)
    ensures TruncatedSubsequence(p, a + [row])
  {
    var a' := a + [row];
    assert a'[..|a'| - 1] == a;
  }

  /** A truncated subsequence is never longer than what it was taken from. */
  lemma {:induction false} TruncatedSubsequenceLength(p: seq<seq<string>>, a: seq<seq<string>>)
    requires TruncatedSubsequence(p, a)
    ensures |p| <= |a|
    ensures forall j :: 0 <= j < |p| ==> |p[j]| <= PortalWidth
    decreases |a|
  {
    if p != [] {
      if p[|p| - 1] == Take(a[|a| - 1], PortalWidth) && TruncatedSubsequence(p[..|p| - 1], a[..|a| - 1]) {
        TruncatedSubsequenceLength(p[..|p| - 1], a[..|a| - 1]);
        assert forall j :: 0 <= j < |p| - 1 ==> p[j] == p[..|p| - 1][j];
      } else {
        TruncatedSubsequenceLength(p, a[..|a| - 1]);
      }
    }
  }

  /**
   * When a record ends the run, stated without the cascade: no rule drops it and the rules do not all
   * admit it, so the cascade raises (lines 38-63); or the rules admit it, it is not a silent change,
   * and its row is too short to hold `Entrez_Gene_Id`, so the portal rule raises (line 66).
   */
  predicate RecordRaises(row: seq<string>, c: Columns, isImpact: bool) {
    (!Admits(row, c, isImpact) && !exists reason :: Drops(row, c, isImpact, reason)) ||
    (Admits(row, c, isImpact) && !StartsWithAny(PortalSilent, row[c.consequence]) && c.entrez >= |row|)
  }

  /** The cascade drops a record for `reason` exactly when `Drops` says so. */
  lemma ClassifyDrops(row: seq<string>, c: Columns, isImpact: bool, reason: DropReason)
    ensures Classify(row, c, isImpact) == Ok(Drop(reason)) <==> Drops(row, c, isImpact, reason)
  {
    match reason
    case Uncalled =>
    case FilterRejected =>
    case PindelOnly =>
    case NonCodingSplice =>
    case DeepIntronic =>
    case NotCoding =>
    case BelowImpactCutoff =>
  }

  /** A record that meets the run still going ends it exactly when `RecordRaises` holds. */
  lemma StepRaises(s: Sifted, row: seq<string>, c: Columns, isImpact: bool)
    requires s.failure.None?
    ensures Step(s, row, c, isImpact).failure.Some? <==> RecordRaises(row, c, isImpact)
  {
    var r := Classify(row, c, isImpact);
    match r
    case Err(_) =>
      forall reason: DropReason ensures !Drops(row, c, isImpact, reason) {
        ClassifyDrops(row, c, isImpact, reason);
      }
    case Ok(Drop(reason)) =>
      ClassifyDrops(row, c, isImpact, reason);
    case Ok(Pass(d)) =>
      StepPass(s, row, c, isImpact, d);
  }

  /** The record loop runs to the end exactly when no record raises. */
  lemma {:induction false} SiftCompletes(rows: seq<seq<string>>, c: Columns, isImpact: bool)
    ensures Sift(rows, c, isImpact).failure.None? <==>
      forall j :: 0 <= j < |rows| ==> !RecordRaises(rows[j], c, isImpact)
  {
    if rows != [] {
      var init := rows[..|rows| - 1];
      var last := rows[|rows| - 1];
      var s := Sift(init, c, isImpact);
      SiftCompletes(init, c, isImpact);
      assert Sift(rows, c, isImpact) == Step(s, last, c, isImpact);
      if s.failure.Some? {
        var j :| 0 <= j < |init| && RecordRaises(init[j], c, isImpact);
        assert rows[j] == init[j];
      } else {
        StepRaises(s, last, c, isImpact);
        NoneRaiseSnoc(rows, init, c, isImpact);
      }
    }
  }

  /** No record of `rows` raises exactly when none of `init`, all but its last, does and its last does not. */
  lemma NoneRaiseSnoc(rows: seq<seq<string>>, init: seq<seq<string>>, c: Columns, isImpact: bool)
    requires rows != [] && init == rows[..|rows| - 1]
    ensures (forall j :: 0 <= j < |rows| ==> !RecordRaises(rows[j], c, isImpact)) <==>
      (forall j :: 0 <= j < |init| ==> !RecordRaises(init[j], c, isImpact)) &&
      !RecordRaises(rows[|rows| - 1], c, isImpact)
  {
    assert forall j :: 0 <= j < |init| ==> rows[j] == init[j];
  }

  /** Whether a step raises, and with which error, depends on the record alone while the run goes on. */
  lemma StepFailureOf(s: Sifted, row: seq<string>, c: Columns, isImpact: bool)
    requires s.failure.None?
    ensures Step(s, row, c, isImpact).failure == Step(Sifted([], [], None), row, c, isImpact).failure
  {
  }

  /**
   * A run that stops does so at the first record that raises, with the error that record raises on
   * its own.
   */
  lemma {:induction false} SiftFirstFailure(rows: seq<seq<string>>, c: Columns, isImpact: bool)
    requires Sift(rows, c, isImpact).failure.Some?
    ensures exists j :: (0 <= j < |rows| && RecordRaises(rows[j], c, isImpact) &&
      (forall i :: 0 <= i < j ==> !RecordRaises(rows[i], c, isImpact)) &&
      Sift(rows, c, isImpact).failure == Step(Sifted([], [], None), rows[j], c, isImpact).failure)
  {
    var init := rows[..|rows| - 1];
    var last := rows[|rows| - 1];
    assert forall j :: 0 <= j < |init| ==> init[j] == rows[j];
    if Sift(init, c, isImpact).failure.Some? {
      SiftFirstFailure(init, c, isImpact);
      var j :| 0 <= j < |init| && RecordRaises(init[j], c, isImpact) &&
        (forall i :: 0 <= i < j ==> !RecordRaises(init[i], c, isImpact)) &&
        Sift(init, c, isImpact).failure == Step(Sifted([], [], None), init[j], c, isImpact).failure;
      assert Sift(rows, c, isImpact) == Sift(init, c, isImpact);
      assert rows[j] == init[j];
    } else {
      SiftCompletes(init, c, isImpact);
      StepRaises(Sift(init, c, isImpact), last, c, isImpact);
      StepFailureOf(Sift(init, c, isImpact), last, c, isImpact);
      assert RecordRaises(rows[|rows| - 1], c, isImpact);
    }
  }

  /** Once a record has failed, the records after it change nothing. */
  lemma {:induction false} SiftStopsAtFailure(rows: seq<seq<string>>, n: nat, c: Columns, isImpact: bool)
    requires n <= |rows|
    requires Sift(rows[..n], c, isImpact).failure.Some?
    ensures Sift(rows, c, isImpact) == Sift(rows[..n], c, isImpact)
    decreases |rows| - n
  {
    if n < |rows| {
      assert rows[..n + 1][..n] == rows[..n];
      SiftStopsAtFailure(rows, n + 1, c, isImpact);
    } else {
      assert rows[..n] == rows;
    }
  }

  /** Each written row as one output line. */
  function JoinAll(rows: seq<seq<string>>): (lines: seq<string>)
    ensures |lines| == |rows|
    ensures forall j :: 0 <= j < |rows| ==> lines[j] == Join(rows[j], '\t')
  {
    if rows == [] then [] else JoinAll(rows[..|rows| - 1]) + [Join(rows[|rows| - 1], '\t')]
  }

  /** How the run ended. `Completed` is the only ending after which the input file is deleted. */
  datatype Status = Completed | MissingColumn(name: string) | RecordFailed(error: RowError)

  datatype Run = Run(analyst: seq<string>, portal: seq<string>, status: Status)

  /** The index of the first data line: the one after the header, or the end of the file. */
  function DataStart(lines: seq<string>): nat {
    var k := HeaderIndex(lines);
    if k < |lines| then k + 1 else k
  }

  /**
   * The specification of a run: what both outputs hold when the filter returns or raises. Both start
   * with the version line, and the analyst output then copies the header line of the input.
   */
  function Expected(lines: seq<string>, version: string, isImpact: bool): (run: Run)
    ensures |run.analyst| >= 2 && |run.portal| >= 1
    ensures run.analyst[0] == VersionLine(version) && run.portal[0] == VersionLine(version)
    ensures HeaderIndex(lines) < |lines| ==> run.analyst[1] == Strip(lines[HeaderIndex(lines)], LineBreaks)
    ensures HeaderIndex(lines) == |lines| ==> run.analyst[1] == ""
  {
    var k := HeaderIndex(lines);
    assert k == |lines| ==> Join(HeaderFields(lines, k), '\t') == "";
    Outputs(HeaderFields(lines, k), VersionLine(version), Records(lines, DataStart(lines)), isImpact)
  }

  /**
   * Lines 17-67 once the header is known: the two outputs for `header` and the data records `rows`.
   * A missing column ends the run before any record is read, with the portal holding its header only
   * when `HGVSp_Short` was there to rename; otherwise the run reaches the records.
   */
  function Outputs(header: seq<string>, v: string, rows: seq<seq<string>>, isImpact: bool): (run: Run)
    ensures |run.analyst| >= 2 && run.analyst[0] == v && run.analyst[1] == Join(header, '\t')
    ensures |run.portal| >= 1 && run.portal[0] == v
    ensures "HGVSp_Short" !in header ==> run == Run([v, Join(header, '\t')], [v], MissingColumn("HGVSp_Short"))
    ensures "HGVSp_Short" in header ==> |run.portal| >= 2 && run.portal[1] == Join(PortalHeader(header).value, '\t')
    ensures run.status.MissingColumn? ==> |run.analyst| == 2
    ensures run.status.MissingColumn? && "HGVSp_Short" in header ==>
      run.portal == [v, Join(PortalHeader(header).value, '\t')]
  {
    var analystHead := [v, Join(header, '\t')];
    match Rename(header)
    case Err(name) => Run(analystHead, [v], MissingColumn(name))
    case Ok(renamed) =>
      var portalHead := [v, Join(Take(renamed, PortalWidth), '\t')];
      match ResolveColumns(renamed)
      case Err(name) => Run(analystHead, portalHead, MissingColumn(name))
      case Ok(c) => RecordsRun(analystHead, portalHead, rows, c, isImpact)
  }

  /**
   * Lines 36-67, after both headers are written: the records the loop writes follow the headers, and
   * the run ends normally or at the first record that raises, never on a missing column.
   */
  function RecordsRun(analystHead: seq<string>, portalHead: seq<string>, rows: seq<seq<string>>,
                      c: Columns, isImpact: bool): (run: Run)
    ensures analystHead <= run.analyst && portalHead <= run.portal
    ensures !run.status.MissingColumn?
    ensures run.status == Completed <==> Sift(rows, c, isImpact).failure.None?
  {
    var s := Sift(rows, c, isImpact);
    Run(analystHead + JoinAll(s.analyst), portalHead + JoinAll(s.portal),
        if s.failure.None? then Completed else RecordFailed(s.failure.value))
  }

  /**
   * The run stops at the header exactly when `HGVSp_Short` or a column the rules read is missing:
   * renaming `HGVSp_Short` before the columns are resolved changes nothing.
   */
  lemma OutputsMissingColumn(header: seq<string>, v: string, rows: seq<seq<string>>, isImpact: bool)
    ensures Outputs(header, v, rows, isImpact).status.MissingColumn? <==>
      "HGVSp_Short" !in header || exists name :: name in RequiredColumns && name !in header
  {
    if "HGVSp_Short" in header {
      var i := Lookup(header, "HGVSp_Short").value;
      ResolveAfterRename(header, i);
      assert Rename(header).value == header[i := "Amino_Acid_Change"];
    }
  }

  /**
   * The run completes, and so the input is deleted at line 70, exactly when `HGVSp_Short` and every
   * column the rules read are in the header and no record raises.
   */
  lemma OutputsCompletes(header: seq<string>, v: string, rows: seq<seq<string>>, isImpact: bool)
    ensures Outputs(header, v, rows, isImpact).status == Completed <==>
      "HGVSp_Short" in header && ResolveColumns(header).Ok? &&
      forall j :: 0 <= j < |rows| ==> !RecordRaises(rows[j], ResolveColumns(header).value, isImpact)
  {
    if "HGVSp_Short" in header {
      var i := Lookup(header, "HGVSp_Short").value;
      ResolveAfterRename(header, i);
      assert Rename(header).value == header[i := "Amino_Acid_Change"];
      if ResolveColumns(header).Ok? {
        SiftCompletes(rows, ResolveColumns(header).value, isImpact);
      }
    }
  }

  /**
   * Lines 10-70 end normally, and the input is deleted, exactly when the header line holds
   * `HGVSp_Short` and every column the rules read, and no data record raises.
   */
  lemma ExpectedCompletes(lines: seq<string>, version: string, isImpact: bool)
    ensures var header := HeaderFields(lines, HeaderIndex(lines));
      var rows := Records(lines, DataStart(lines));
      Expected(lines, version, isImpact).status == Completed <==>
        "HGVSp_Short" in header && ResolveColumns(header).Ok? &&
        forall j :: 0 <= j < |rows| ==> !RecordRaises(rows[j], ResolveColumns(header).value, isImpact)
  {
    OutputsCompletes(HeaderFields(lines, HeaderIndex(lines)), VersionLine(version),
      Records(lines, DataStart(lines)), isImpact);
  }

  /**
   * Lines 13-16: skip comment lines; the first line that is not one is the header. Past the end of the
   * input the header reads as a single empty name.
   */
  method ReadHeader(lines: seq<string>) returns (k: nat, header: seq<string>)
    ensures k == HeaderIndex(lines) && header == HeaderFields(lines, k)
  {
    k := 0;
    header := HeaderFields(lines, k);
    HeaderFieldsComment(lines, k);
    while StartsWith(header[0], "#")
      invariant k <= |lines| && header == HeaderFields(lines, k)
      invariant HeaderIndexFrom(lines, k) == HeaderIndex(lines)
      invariant StartsWith(header[0], "#") <==> IsComment(lines, k)
      decreases |lines| - k
    {
      k := k + 1;
      header := HeaderFields(lines, k);
      HeaderFieldsComment(lines, k);
    }
  }

  /**
   * The filter (lines 10-70). It returns what each output holds when the source finishes or raises,
   * how it ended, and whether the input file was deleted: only a run that raised nothing reaches line 70.
   */
  method FilterMaf(lines: seq<string>, version: string, isImpact: bool)
    returns (analyst: seq<string>, portal: seq<string>, status: Status, inputDeleted: bool)
    ensures Run(analyst, portal, status) == Expected(lines, version, isImpact)
    ensures inputDeleted <==> status == Completed
  {
    var k, header := ReadHeader(lines);
    var first := if k < |lines| then k + 1 else k;
    assert first == DataStart(lines);
    analyst, portal, status := WriteOutputs(header, VersionLine(version), Records(lines, first), isImpact);
    inputDeleted := status == Completed;
  }

  /**
   * Lines 17-67: both header lines, the rename and the column lookups, then the record loop. A missing
   * column raises before any record is read.
   */
  method WriteOutputs(header: seq<string>, versionLine: string, rows: seq<seq<string>>, isImpact: bool)
    returns (analyst: seq<string>, portal: seq<string>, status: Status)
    ensures Run(analyst, portal, status) == Outputs(header, versionLine, rows, isImpact)
  {
    analyst := [versionLine, Join(header, '\t')];
    portal := [versionLine];
    var renamed := Rename(header);
    if renamed.Err? {
      status := MissingColumn(renamed.error);
      return;
    }
    var columns := renamed.value;
    portal := [versionLine, Join(Take(columns, PortalWidth), '\t')];
    var resolved := ResolveColumns(columns);
    if resolved.Err? {
      status := MissingColumn(resolved.error);
      return;
    }
    var failure;
    analyst, portal, failure := WriteRecords(rows, resolved.value, isImpact, analyst, portal);
    status := if failure.Some? then RecordFailed(failure.value) else Completed;
  }

  /**
   * Every line written to the analyst output after its header splits back, at the tabs, into a record
   * of the input that every rule admits.
   */
  lemma AnalystLinesReadBack(lines: seq<string>, first: nat, c: Columns, isImpact: bool)
    ensures var rows := Records(lines, first);
      var out := JoinAll(Sift(rows, c, isImpact).analyst);
      forall j :: 0 <= j < |out| ==>
        Split(out[j], '\t') in rows && Admits(Split(out[j], '\t'), c, isImpact)
  {
    var rows := Records(lines, first);
    var a := Sift(rows, c, isImpact).analyst;
    SiftAnalystAdmitted(rows, c, isImpact);
    forall j | 0 <= j < |a|
      ensures Split(JoinAll(a)[j], '\t') == a[j]
    {
      assert a[j] in a;
      RecordReadBack(lines, first, a[j], c, isImpact);
    }
  }

  /** A record of the input that the rules admit, joined at tabs and split again, is itself. */
  lemma RecordReadBack(lines: seq<string>, first: nat, row: seq<string>, c: Columns, isImpact: bool)
    requires row in Records(lines, first) && Admits(row, c, isImpact)
    ensures Split(Join(row, '\t'), '\t') == row
  {
    assert c.mutationStatus < |row|;
    var i :| 0 <= i < |Records(lines, first)| && Records(lines, first)[i] == row;
    SplitJoin(row, '\t');
  }

  /** Writing one more row to an output appends one line. */
  lemma JoinAllAppend(rows: seq<seq<string>>, row: seq<string>)
    ensures JoinAll(rows + [row]) == JoinAll(rows) + [Join(row, '\t')]
  {
    assert (rows + [row])[..|rows|] == rows;
  }

  /** Writing one more record after `head` and the records already written. */
  lemma WriteAppend(head: seq<string>, rows: seq<seq<string>>, row: seq<string>)
    ensures head + JoinAll(rows + [row]) == (head + JoinAll(rows)) + [Join(row, '\t')]
  {
    JoinAllAppend(rows, row);
  }

  /**
   * Lines 36-67: the loop over the data records, appending to both outputs. It stops at the first
   * record that raises, with what was written before it.
   */
  method WriteRecords(rows: seq<seq<string>>, c: Columns, isImpact: bool,
                      analystHead: seq<string>, portalHead: seq<string>)
    returns (analyst: seq<string>, portal: seq<string>, failure: Option<RowError>)
    ensures var s := Sift(rows, c, isImpact);
      analyst == analystHead + JoinAll(s.analyst) && portal == portalHead + JoinAll(s.portal) &&
      failure == s.failure
  {
    ghost var done := Sifted([], [], None);
    analyst, portal := analystHead, portalHead;
    var i := 0;
    while i < |rows|
      invariant i <= |rows|
      invariant done == Sift(rows[..i], c, isImpact)
      invariant done.failure.None?
      invariant analyst == analystHead + JoinAll(done.analyst)
      invariant portal == portalHead + JoinAll(done.portal)
    {
      SiftSnoc(rows, i, c, isImpact);
      var f;
      analyst, portal, f := WriteRecord(rows[i], c, isImpact, analystHead, portalHead, done, analyst, portal);
      done := Step(done, rows[i], c, isImpact);
      i := i + 1;
      if f.Some? {
        SiftStopsAtFailure(rows, i, c, isImpact);
        return analyst, portal, f;
      }
    }
    assert rows[..i] == rows;
    failure := None;
  }

  /**
   * Lines 38-67 for one record: the outputs after it are those `Step` gives, and the error it
   * raised, if any, is the one `Step` records.
   */
  method WriteRecord(row: seq<string>, c: Columns, isImpact: bool, analystHead: seq<string>, portalHead: seq<string>,
                     ghost done: Sifted, analyst: seq<string>, portal: seq<string>)
    returns (analyst': seq<string>, portal': seq<string>, failure: Option<RowError>)
    requires done.failure.None?
    requires analyst == analystHead + JoinAll(done.analyst) && portal == portalHead + JoinAll(done.portal)
    ensures var next := Step(done, row, c, isImpact);
      analyst' == analystHead + JoinAll(next.analyst) && portal' == portalHead + JoinAll(next.portal) &&
      failure == next.failure
  {
    analyst', portal', failure := analyst, portal, None;
    match Classify(row, c, isImpact) {
      case Err(e) =>
        failure := Some(e);
      case Ok(Drop(_)) =>
      case Ok(Pass(d)) =>
        StepPass(done, row, c, isImpact, d);
        analyst' := analyst + [Join(row, '\t')];
        WriteAppend(analystHead, done.analyst, row);
        match PortalRule(row, c, d) {
          case Err(e) =>
            failure := Some(e);
          case Ok(toPortal) =>
            if toPortal {
              portal' := portal + [Join(Take(row, PortalWidth), '\t')];
              WriteAppend(portalHead, done.portal, Take(row, PortalWidth));
            }
        }
    }
  }

  /** A step only appends to the outputs, and adds a portal line only together with an analyst line. */
  lemma StepAppends(s: Sifted, row: seq<string>, c: Columns, isImpact: bool)
    ensures var r := Step(s, row, c, isImpact);
      s.analyst <= r.analyst && s.portal <= r.portal && |r.portal| - |s.portal| <= |r.analyst| - |s.analyst|
  {
  }

  /** A record that passes the cascade is written to the analyst output and, as the portal rule says, to the portal. */
  lemma StepPass(s: Sifted, row: seq<string>, c: Columns, isImpact: bool, d: nat)
    requires s.failure.None? && Classify(row, c, isImpact) == Ok(Pass(d))
    ensures Step(s, row, c, isImpact).analyst == s.analyst + [row]
    ensures PortalRule(row, c, d).Err? ==> Step(s, row, c, isImpact) == Sifted(s.analyst + [row], s.portal, Some(PortalRule(row, c, d).error))
    ensures PortalRule(row, c, d) == Ok(true) ==> Step(s, row, c, isImpact) == Sifted(s.analyst + [row], s.portal + [Take(row, PortalWidth)], None)
    ensures PortalRule(row, c, d) == Ok(false) ==> Step(s, row, c, isImpact) == Sifted(s.analyst + [row], s.portal, None)
  {
  }

  /** The loop's step: the records up to and including index `n` are those before it plus one `Step`. */
  lemma SiftSnoc(rows: seq<seq<string>>, n: nat, c: Columns, isImpact: bool)
    requires n < |rows|
    ensures Sift(rows[..n + 1], c, isImpact) == Step(Sift(rows[..n], c, isImpact), rows[n], c, isImpact)
  {
    assert rows[..n + 1][..n] == rows[..n];
  }
}
