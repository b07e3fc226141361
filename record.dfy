/**
 * The per-record decision of the MAF filter: the ordered, short-circuiting cascade of drop rules
 * and the portal's extra exclusions. A field past the end of a short row, a number that does not
 * parse and a zero depth are errors, as the exceptions they raise stop the whole run. Line numbers
 * in this module refer to `setup/bin/maf_filter.py`.
 */
module MafRecord {
  import opened Wrappers
  import opened Text
  import opened Numbers
  import opened Hgvs

  /** Positions of the columns the rules read, resolved once from the header. */
  datatype Columns = Columns(
    gene: nat, entrez: nat, position: nat, hgvsc: nat, mutationStatus: nat, consequence: nat,
    filter: nat, hotspot: nat, altCount: nat, depth: nat, callers: nat)

  /** The exception a record raises: `IndexError`, `ValueError`, `ZeroDivisionError`. */
  datatype RowError = FieldMissing(column: nat) | NotANumber(column: nat) | DivisionByZero

  /** Which rule of the cascade dropped a record. */
  datatype DropReason =
    | Uncalled          // Mutation_Status is "None"
    | FilterRejected    // FILTER is neither PASS nor common_variant
    | PindelOnly        // called by Pindel alone
    | NonCodingSplice   // a splice-region variant in a non-coding transcript
    | DeepIntronic      // a splice-region variant more than 3 bases into the intron
    | NotCoding         // neither an allowed consequence nor in the TERT promoter
    | BelowImpactCutoff // fails the IMPACT depth, allele-count or VAF cutoffs

  /** A record is dropped, or kept with the splice distance that the portal rule uses later. */
  datatype Verdict = Drop(reason: DropReason) | Pass(spliceDistance: nat)

  /** Consequence prefixes that keep a record. */
  const ConsequenceKeep: seq<string> := [
    "missense_", "stop_", "frameshift_", "splice_", "inframe_", "protein_altering_",
    "start_", "synonymous_", "coding_sequence_", "transcript_", "exon_", "initiator_codon_",
    "disruptive_inframe_", "conservative_missense_", "rare_amino_acid_", "mature_miRNA_", "TFBS_"]

  /** Consequence prefixes that keep a record out of the portal: silent changes. */
  const PortalSilent: seq<string> := ["synonymous_", "stop_retained_"]

  /** The TERT promoter window, both ends included. */
  const TertPromoterFirst: int := 1295141
  const TertPromoterLast: int := 1295340

  const ImpactMinDepth: int := 20
  const ImpactMinAltCount: int := 8
  const ImpactMinAltCountNonHotspot: int := 10

  /** `line[col]`: the field, or `IndexError` exactly when the row is too short. */
  function Field(row: seq<string>, col: nat): (r: Result<string, RowError>)
    ensures r.Ok? <==> col < |row|
    ensures r.Ok? ==> r.value == row[col]
    ensures r.Err? ==> r.error == FieldMissing(col)
  {
    if col < |row| then Ok(row[col]) else Err(FieldMissing(col))
  }

  /**
   * `int(line[col])`, also standing for `float(line[col])`: the parsed field, `IndexError` on a short
   * row, and `ValueError` on a field that is not a number.
   */
  function Number(row: seq<string>, col: nat): (r: Result<int, RowError>)
    ensures r.Ok? <==> IntAt(row, col).Some?
    ensures r.Ok? ==> IntAt(row, col) == Some(r.value)
    ensures r.Err? ==> r.error == if col < |row| then NotANumber(col) else FieldMissing(col)
  {
    var text :- Field(row, col);
    match ParseInt(text)
    case None => Err(NotANumber(col))
    case Some(n) => Ok(n)
  }

  /** The field read as an integer, when it is there and parses. */
  function IntAt(row: seq<string>, col: nat): Option<int> {
    if col < |row| then ParseInt(row[col]) else None
  }

  predicate IsSpliceRegion(csq: string) {
    StartsWith(csq, "splice_region_variant")
  }

  /** The splice distance read from an HGVSc field: 0 when the expression does not match. */
  function HgvscDistance(hgvsc: string): (d: nat)
    ensures ParseHgvsc(hgvsc).None? ==> d == 0
    ensures ParseHgvsc(hgvsc).Some? ==> d == SpliceDistance(ParseHgvsc(hgvsc).value)
  {
    match ParseHgvsc(hgvsc)
    case None => 0
    case Some(m) => SpliceDistance(m)
  }

  /** Tumour variant allele fraction: 0 for an empty depth, otherwise alt count over depth. */
  datatype Vaf = NoDepth | Fraction(alt: int, depth: int)

  ghost predicate ValidVaf(v: Vaf) {
    v.Fraction? ==> v.depth != 0
  }

  function VafValue(v: Vaf): real
    requires ValidVaf(v)
  {
    match v
    case NoDepth => 0.0
    case Fraction(alt, depth) => alt as real / depth as real
  }

  /** `tumor_vaf < p/q`, decided exactly by cross-multiplication. */
  function VafBelow(v: Vaf, p: nat, q: nat): (r: bool)
    requires ValidVaf(v) && q > 0
    ensures r <==> VafValue(v) < p as real / q as real
  {
    match v
    case NoDepth => 0 < p
    case Fraction(alt, depth) =>
      var r := if depth > 0 then alt * q < p * depth else alt * q > p * depth;
      assert r <==> VafValue(v) < p as real / q as real by {
        CrossMultiply(alt, depth, p, q);
      }
      r
  }

  lemma CrossMultiply(a: int, d: int, p: nat, q: nat)
    requires d != 0 && q > 0
    ensures d > 0 ==> (a as real / d as real < p as real / q as real <==> a * q < p * d)
    ensures d < 0 ==> (a as real / d as real < p as real / q as real <==> a * q > p * d)
  {
    var x := a as real / d as real;
    var y := p as real / q as real;
    assert x * d as real == a as real;
    assert y * q as real == p as real;
    if d > 0 {
      assert x < y <==> x * (d as real * q as real) < y * (d as real * q as real);
    } else {
      assert x < y <==> x * (d as real * q as real) > y * (d as real * q as real);
    }
  }

  /** Line 61: the VAF, computed for every record that reaches the output stage, whatever the mode. */
  function TumorVaf(row: seq<string>, c: Columns): (r: Result<Vaf, RowError>)
    ensures r.Ok? ==> ValidVaf(r.value)
    ensures r == Err(DivisionByZero) <==> VafDividesByZero(row, c)
    ensures r == Ok(NoDepth) <==> c.depth < |row| && row[c.depth] == ""
    ensures r.Ok? <==> VafReadable(row, c)
    ensures r.Ok? && r.value.Fraction? ==>
      IntAt(row, c.altCount) == Some(r.value.alt) && IntAt(row, c.depth) == Some(r.value.depth)
  {
    var depthText :- Field(row, c.depth);
    if depthText == "" then Ok(NoDepth)
    else
      var alt :- Number(row, c.altCount);
      var depth :- Number(row, c.depth);
      if depth == 0 then Err(DivisionByZero) else Ok(Fraction(alt, depth))
  }

  /**
   * Line 62: whether the IMPACT gate drops the record. A depth below 20 drops it before the allele
   * count or the hotspot field is read; the hotspot field is read only once the count and VAF have passed.
   */
  function FailsImpactCutoffs(row: seq<string>, c: Columns, vaf: Vaf): (r: Result<bool, RowError>)
    requires ValidVaf(vaf)
    requires vaf.NoDepth? ==> c.depth < |row| && row[c.depth] == ""
    requires vaf.Fraction? ==> IntAt(row, c.altCount) == Some(vaf.alt) && IntAt(row, c.depth) == Some(vaf.depth)
    ensures r == Ok(false) <==> MeetsImpactCutoffs(row, c)
    ensures r == Ok(true) <==> FailsCutoffs(row, c)
    ensures IntAt(row, c.depth).Some? && IntAt(row, c.depth).value < ImpactMinDepth ==> r == Ok(true)
    ensures r != Err(DivisionByZero)
  {
    var depth :- Number(row, c.depth);
    assert vaf == Fraction(vaf.alt, depth) by {
      if vaf.NoDepth? {
        ParseIntEmpty();
      }
    }
    if depth < ImpactMinDepth then Ok(true) else AltCountCutoffs(row, c, vaf)
  }

  /**
   * Line 62 once the depth has passed: the allele-count and VAF tests, in the source's order. The
   * count parsed again here is the one line 61 parsed, so only the hotspot read can still fail.
   */
  function AltCountCutoffs(row: seq<string>, c: Columns, vaf: Vaf): (r: Result<bool, RowError>)
    requires vaf.Fraction? && vaf.depth >= ImpactMinDepth
    requires IntAt(row, c.altCount) == Some(vaf.alt) && IntAt(row, c.depth) == Some(vaf.depth)
    ensures r == Ok(false) <==> MeetsImpactCutoffs(row, c)
    ensures r == Ok(true) <==> FailsCutoffs(row, c)
    ensures vaf.alt < ImpactMinAltCount || VafBelow(vaf, 1, 50) ==> r == Ok(true)
    ensures r.Err? <==> !(vaf.alt < ImpactMinAltCount || VafBelow(vaf, 1, 50)) && c.hotspot >= |row|
    ensures r.Err? ==> r.error == FieldMissing(c.hotspot)
  {
    var alt := vaf.alt;
    VafCutoffs(vaf);
    if alt < ImpactMinAltCount || VafBelow(vaf, 1, 50) then Ok(true)
    else
      var hotspot :- Field(row, c.hotspot);
      Ok(hotspot == "FALSE" && (alt < ImpactMinAltCountNonHotspot || VafBelow(vaf, 1, 20)))
  }

  /** An empty field is not a number. */
  lemma ParseIntEmpty()
    ensures ParseInt("") == None
  {
    assert Strip("", Whitespace) == "";
  }

  /** The two VAF thresholds of line 62, 0.02 and 0.05, as the fractions 1/50 and 1/20. */
  lemma VafCutoffs(vaf: Vaf)
    requires vaf.Fraction? && vaf.depth != 0
    ensures VafBelow(vaf, 1, 50) <==> vaf.alt as real / vaf.depth as real < 0.02
    ensures VafBelow(vaf, 1, 20) <==> vaf.alt as real / vaf.depth as real < 0.05
  {
  }

  /** Lines 44-54: the splice-region rule; a record it keeps carries its splice distance on. */
  function SpliceRule(row: seq<string>, c: Columns, csq: string): (r: Result<Verdict, RowError>)
    requires c.consequence < |row| && csq == row[c.consequence]
    ensures r.Ok? && r.value.Pass? <==>
      (IsSpliceRegion(csq) ==> !Contains(csq, "non_coding_") && c.hgvsc < |row| && HgvscDistance(row[c.hgvsc]) <= 3)
    ensures r.Ok? && r.value.Pass? ==> r.value.spliceDistance == RowSpliceDistance(row, c)
    ensures r == Ok(Drop(NonCodingSplice)) <==> SpliceNonCoding(row, c)
    ensures r == Ok(Drop(DeepIntronic)) <==> SpliceTooDeep(row, c)
    ensures r.Ok? && r.value.Drop? ==> r.value.reason == NonCodingSplice || r.value.reason == DeepIntronic
    ensures r.Err? <==> IsSpliceRegion(csq) && !Contains(csq, "non_coding_") && c.hgvsc >= |row|
    ensures r.Err? ==> r.error == FieldMissing(c.hgvsc)
  {
    if !IsSpliceRegion(csq) then Ok(Pass(0))
    else if Contains(csq, "non_coding_") then Ok(Drop(NonCodingSplice))
    else
      var hgvsc :- Field(row, c.hgvsc);
      var d := HgvscDistance(hgvsc);
      if d > 3 then Ok(Drop(DeepIntronic)) else Ok(Pass(d))
  }

  /**
   * Line 59: an allowed consequence prefix, or TERT within the promoter window. The gene is read only
   * when no prefix matches, and the position only for TERT.
   */
  function CodingRule(row: seq<string>, c: Columns, csq: string): (r: Result<bool, RowError>)
    ensures r == Ok(true) <==> StartsWithAny(ConsequenceKeep, csq) || InTertPromoter(row, c)
    ensures r == Ok(false) <==> !StartsWithAny(ConsequenceKeep, csq) && FailsTertRule(row, c)
    ensures r != Err(DivisionByZero)
  {
    if StartsWithAny(ConsequenceKeep, csq) then Ok(true)
    else
      var gene :- Field(row, c.gene);
      if gene != "TERT" then Ok(false)
      else
        var pos :- Number(row, c.position);
        Ok(InTertWindow(pos))
  }

  /** The splice distance the filter records for a row: 0 unless its consequence is a splice-region variant. */
  function RowSpliceDistance(row: seq<string>, c: Columns): nat {
    if c.consequence < |row| && IsSpliceRegion(row[c.consequence]) && c.hgvsc < |row|
    then HgvscDistance(row[c.hgvsc]) else 0
  }

  predicate InTertWindow(pos: int) {
    TertPromoterFirst <= pos <= TertPromoterLast
  }

  /** Line 59 once no prefix matched: the gene is read and is not TERT, or TERT outside the window. */
  predicate FailsTertRule(row: seq<string>, c: Columns) {
    c.gene < |row| &&
    (row[c.gene] != "TERT" || (IntAt(row, c.position).Some? && !InTertWindow(IntAt(row, c.position).value)))
  }

  predicate InTertPromoter(row: seq<string>, c: Columns) {
    c.gene < |row| && row[c.gene] == "TERT" &&
    match IntAt(row, c.position)
    case None => false
    case Some(pos) => InTertWindow(pos)
  }

  /** The IMPACT cutoffs as the source states them, with the VAF as a real number. */
  predicate MeetsImpactCutoffs(row: seq<string>, c: Columns) {
    match (IntAt(row, c.altCount), IntAt(row, c.depth))
    case (Some(alt), Some(depth)) =>
      depth >= ImpactMinDepth && alt >= ImpactMinAltCount &&
      alt as real / depth as real >= 0.02 &&
      c.hotspot < |row| &&
      (row[c.hotspot] == "FALSE" ==> alt >= ImpactMinAltCountNonHotspot && alt as real / depth as real >= 0.05)
    case _ => false
  }

  /**
   * Line 62, stated for each test in turn: the depth is below 20, or else the allele count is below 8
   * or the VAF below 0.02, or else the hotspot field is `FALSE` and the count is below 10 or the VAF
   * below 0.05. A test whose field is missing or does not parse raises instead of dropping.
   */
  predicate FailsCutoffs(row: seq<string>, c: Columns) {
    match IntAt(row, c.depth)
    case None => false
    case Some(depth) =>
      depth < ImpactMinDepth ||
      match IntAt(row, c.altCount)
      case None => false
      case Some(alt) =>
        alt < ImpactMinAltCount || alt as real / depth as real < 0.02 ||
        (c.hotspot < |row| && row[c.hotspot] == "FALSE" &&
         (alt < ImpactMinAltCountNonHotspot || alt as real / depth as real < 0.05))
  }

  /** Lines 38-42: the record is called, passed the false-positive filters, and is not Pindel's alone. */
  predicate PassesCallRules(row: seq<string>, c: Columns) {
    c.mutationStatus < |row| && row[c.mutationStatus] != "None" &&
    c.filter < |row| && (row[c.filter] == "PASS" || row[c.filter] == "common_variant") &&
    c.callers < |row| && row[c.callers] != "Pindel"
  }

  /** Lines 45-47: a splice-region variant of a non-coding transcript. */
  predicate SpliceNonCoding(row: seq<string>, c: Columns) {
    c.consequence < |row| && IsSpliceRegion(row[c.consequence]) && Contains(row[c.consequence], "non_coding_")
  }

  /** Lines 45-54: any other splice-region variant whose HGVSc places it more than 3 bases into the intron. */
  predicate SpliceTooDeep(row: seq<string>, c: Columns) {
    c.consequence < |row| && IsSpliceRegion(row[c.consequence]) && !Contains(row[c.consequence], "non_coding_") &&
    c.hgvsc < |row| && HgvscDistance(row[c.hgvsc]) > 3
  }

  /** Lines 44-54: the consequence is there, and the splice-region rule keeps the record. */
  predicate PassesSpliceRule(row: seq<string>, c: Columns) {
    c.consequence < |row| &&
    (IsSpliceRegion(row[c.consequence]) ==>
      !Contains(row[c.consequence], "non_coding_") && c.hgvsc < |row| && HgvscDistance(row[c.hgvsc]) <= 3)
  }

  /** Line 59: an allowed consequence, or a TERT promoter mutation. */
  predicate IsCoding(row: seq<string>, c: Columns) {
    c.consequence < |row| && (StartsWithAny(ConsequenceKeep, row[c.consequence]) || InTertPromoter(row, c))
  }

  /** Line 59: the consequence is read, no allowed prefix matches, and the TERT test fails. */
  predicate FailsCoding(row: seq<string>, c: Columns) {
    c.consequence < |row| && !StartsWithAny(ConsequenceKeep, row[c.consequence]) && FailsTertRule(row, c)
  }

  /** Line 61: the VAF can be computed, either because the depth is empty or because both counts parse and the depth is not 0. */
  predicate VafReadable(row: seq<string>, c: Columns) {
    c.depth < |row| &&
    (row[c.depth] != "" ==> IntAt(row, c.altCount).Some? && IntAt(row, c.depth).Some? && IntAt(row, c.depth) != Some(0))
  }

  /** Line 61 divides by zero: the depth is not empty, the allele count parses, and the depth reads as 0. */
  predicate VafDividesByZero(row: seq<string>, c: Columns) {
    c.depth < |row| && row[c.depth] != "" && IntAt(row, c.altCount).Some? && IntAt(row, c.depth) == Some(0)
  }

  /** Lines 61-63 keep a coding record: the VAF can be computed and, in IMPACT mode, the cutoffs are met. */
  predicate ImpactAdmits(row: seq<string>, c: Columns, isImpact: bool) {
    VafReadable(row, c) && (isImpact ==> MeetsImpactCutoffs(row, c))
  }

  /** Lines 61-63 drop a coding record: IMPACT mode, a computable VAF, and a failed cutoff. */
  predicate ImpactDrops(row: seq<string>, c: Columns, isImpact: bool) {
    isImpact && VafReadable(row, c) && FailsCutoffs(row, c)
  }

  /**
   * Every condition a record must meet to reach the analyst output, stated together rather than as a
   * cascade: each field a rule reads is there, and no rule drops the record.
   */
  predicate Admits(row: seq<string>, c: Columns, isImpact: bool) {
    PassesCallRules(row, c) && PassesSpliceRule(row, c) && IsCoding(row, c) && ImpactAdmits(row, c, isImpact)
  }

  /**
   * When each rule drops a record, stated declaratively: every rule before it lets the record through
   * and this rule's own test reads fields that are there and drops it.
   */
  predicate Drops(row: seq<string>, c: Columns, isImpact: bool, reason: DropReason) {
    match reason
    case Uncalled =>
      c.mutationStatus < |row| && row[c.mutationStatus] == "None"
    case FilterRejected =>
      c.mutationStatus < |row| && row[c.mutationStatus] != "None" &&
      c.filter < |row| && row[c.filter] != "PASS" && row[c.filter] != "common_variant"
    case PindelOnly =>
      c.mutationStatus < |row| && row[c.mutationStatus] != "None" &&
      c.filter < |row| && (row[c.filter] == "PASS" || row[c.filter] == "common_variant") &&
      c.callers < |row| && row[c.callers] == "Pindel"
    case NonCodingSplice =>
      PassesCallRules(row, c) && SpliceNonCoding(row, c)
    case DeepIntronic =>
      PassesCallRules(row, c) && SpliceTooDeep(row, c)
    case NotCoding =>
      PassesCallRules(row, c) && PassesSpliceRule(row, c) && FailsCoding(row, c)
    case BelowImpactCutoff =>
      PassesCallRules(row, c) && PassesSpliceRule(row, c) && IsCoding(row, c) && ImpactDrops(row, c, isImpact)
  }

  /** Line 61 raises `ZeroDivisionError`: a kept, coding record whose depth reads as 0, in either mode. */
  predicate DividesByZero(row: seq<string>, c: Columns) {
    PassesCallRules(row, c) && PassesSpliceRule(row, c) && IsCoding(row, c) && VafDividesByZero(row, c)
  }

  /**
   * Lines 38-63: the drop cascade, in the source's order, stopping at the first rule that drops.
   * Each outcome is tied to its declarative condition; any other record raises.
   */
  function Classify(row: seq<string>, c: Columns, isImpact: bool): (r: Result<Verdict, RowError>)
    ensures r == Ok(Drop(Uncalled)) <==> Drops(row, c, isImpact, Uncalled)
    ensures r == Ok(Drop(FilterRejected)) <==> Drops(row, c, isImpact, FilterRejected)
    ensures r == Ok(Drop(PindelOnly)) <==> Drops(row, c, isImpact, PindelOnly)
    ensures r == Ok(Drop(NonCodingSplice)) <==> Drops(row, c, isImpact, NonCodingSplice)
    ensures r == Ok(Drop(DeepIntronic)) <==> Drops(row, c, isImpact, DeepIntronic)
    ensures r == Ok(Drop(NotCoding)) <==> Drops(row, c, isImpact, NotCoding)
    ensures r == Ok(Drop(BelowImpactCutoff)) <==> Drops(row, c, isImpact, BelowImpactCutoff)
    ensures r.Ok? && r.value.Pass? <==> Admits(row, c, isImpact)
    ensures r.Ok? && r.value.Pass? ==> r.value.spliceDistance == RowSpliceDistance(row, c) <= 3
    ensures r == Err(DivisionByZero) <==> DividesByZero(row, c)
  {
    var status :- Field(row, c.mutationStatus);
    if status == "None" then Ok(Drop(Uncalled))
    else
      var verdict :- Field(row, c.filter);
      if verdict != "PASS" && verdict != "common_variant" then Ok(Drop(FilterRejected))
      else
        var callers :- Field(row, c.callers);
        if callers == "Pindel" then Ok(Drop(PindelOnly))
        else ClassifyCalled(row, c, isImpact)
  }

  /** Lines 43-63, for a record the caller and filter rules of lines 38-42 let through. */
  function ClassifyCalled(row: seq<string>, c: Columns, isImpact: bool): (r: Result<Verdict, RowError>)
    ensures r.Ok? && r.value.Drop? ==> !r.value.reason.Uncalled? && !r.value.reason.FilterRejected? && !r.value.reason.PindelOnly?
    ensures r == Ok(Drop(NonCodingSplice)) <==> SpliceNonCoding(row, c)
    ensures r == Ok(Drop(DeepIntronic)) <==> SpliceTooDeep(row, c)
    ensures r == Ok(Drop(NotCoding)) <==> PassesSpliceRule(row, c) && FailsCoding(row, c)
    ensures r == Ok(Drop(BelowImpactCutoff)) <==>
      PassesSpliceRule(row, c) && IsCoding(row, c) && ImpactDrops(row, c, isImpact)
    ensures r.Ok? && r.value.Pass? <==> PassesSpliceRule(row, c) && IsCoding(row, c) && ImpactAdmits(row, c, isImpact)
    ensures r.Ok? && r.value.Pass? ==> r.value.spliceDistance == RowSpliceDistance(row, c) <= 3
    ensures r == Err(DivisionByZero) <==> PassesSpliceRule(row, c) && IsCoding(row, c) && VafDividesByZero(row, c)
  {
    var csq :- Field(row, c.consequence);
    var splice :- SpliceRule(row, c, csq);
    if splice.Drop? then Ok(splice)
    else CodingStage(row, c, isImpact, splice.spliceDistance)
  }

  /** Lines 55-63, for a record the splice-region rule kept with distance `d`. */
  function CodingStage(row: seq<string>, c: Columns, isImpact: bool, d: nat): (r: Result<Verdict, RowError>)
    requires c.consequence < |row|
    ensures r.Ok? && r.value.Drop? ==> r.value.reason == NotCoding || r.value.reason == BelowImpactCutoff
    ensures r == Ok(Drop(NotCoding)) <==> FailsCoding(row, c)
    ensures r == Ok(Drop(BelowImpactCutoff)) <==> IsCoding(row, c) && ImpactDrops(row, c, isImpact)
    ensures r.Ok? && r.value.Pass? <==> IsCoding(row, c) && ImpactAdmits(row, c, isImpact)
    ensures r.Ok? && r.value.Pass? ==> r.value.spliceDistance == d
    ensures r == Err(DivisionByZero) <==> IsCoding(row, c) && VafDividesByZero(row, c)
  {
    var coding :- CodingRule(row, c, row[c.consequence]);
    if !coding then Ok(Drop(NotCoding))
    else ImpactStage(row, c, isImpact, d)
  }

  /** Lines 61-63: the VAF, then, in IMPACT mode only, the cutoffs; a record that passes keeps distance `d`. */
  function ImpactStage(row: seq<string>, c: Columns, isImpact: bool, d: nat): (r: Result<Verdict, RowError>)
    ensures r.Ok? ==> r.value == Pass(d) || r.value == Drop(BelowImpactCutoff)
    ensures r == Ok(Pass(d)) <==> ImpactAdmits(row, c, isImpact)
    ensures r == Ok(Drop(BelowImpactCutoff)) <==> ImpactDrops(row, c, isImpact)
    ensures r == Err(DivisionByZero) <==> VafDividesByZero(row, c)
  {
    var vaf :- TumorVaf(row, c);
    if !isImpact then Ok(Pass(d))
    else
      var fails :- FailsImpactCutoffs(row, c, vaf);
      if fails then Ok(Drop(BelowImpactCutoff)) else Ok(Pass(d))
  }

  /**
   * Line 66, for a record already written to the analyst output: whether it also goes to the portal.
   * The Entrez_Gene_Id test compares a string with the integer 0, which is never equal, so it excludes
   * nothing; reading the field can still fail on a short row.
   */
  function PortalRule(row: seq<string>, c: Columns, spliceDistance: nat): (r: Result<bool, RowError>)
    ensures r == Ok(true) <==>
      c.consequence < |row| && !StartsWithAny(PortalSilent, row[c.consequence]) &&
      c.entrez < |row| && spliceDistance <= 2
    ensures r == Ok(false) <==>
      c.consequence < |row| &&
      (StartsWithAny(PortalSilent, row[c.consequence]) || (c.entrez < |row| && spliceDistance > 2))
  {
    var csq :- Field(row, c.consequence);
    if StartsWithAny(PortalSilent, csq) then Ok(false)
    else
      var entrez :- Field(row, c.entrez);
      Ok(spliceDistance <= 2)
  }
}
