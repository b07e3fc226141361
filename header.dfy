/**
 * The header of the input MAF: skipping the leading comment lines, the portal's renamed and
 * truncated copy, and resolving the columns the record rules read. Line numbers in this module
 * refer to `setup/bin/maf_filter.py`.
 */
module MafHeader {
  import opened Wrappers
  import opened Text
  import opened MafRecord

  /** The characters `readline().strip('\r\n')` removes from both ends of a line. */
  const LineBreaks: set<char> := {'\r', '\n'}

  /** The portal output keeps this many leading columns. */
  const PortalWidth: nat := 45

  /**
   * The fields of input line `i` as the header loop reads it; past the end of the file `readline()`
   * returns the empty string, whose only field is empty.
   */
  function HeaderFields(lines: seq<string>, i: nat): (fs: seq<string>)
    ensures |fs| >= 1
    ensures i >= |lines| ==> fs == [""]
    ensures i < |lines| ==> Join(fs, '\t') == Strip(lines[i], LineBreaks)
  {
    if i < |lines| then
      JoinSplit(Strip(lines[i], LineBreaks), '\t');
      Split(Strip(lines[i], LineBreaks), '\t')
    else [""]
  }

  /** Line 15: a line is skipped while its first field starts with `#`, that is, while the line does. */
  predicate IsComment(lines: seq<string>, i: nat) {
    i < |lines| && CommentLine(lines[i])
  }

  /** A line whose text, without its line break, starts with `#`. */
  predicate CommentLine(line: string) {
    StartsWith(Strip(line, LineBreaks), "#")
  }

  /** The first tab-separated field of a line starts with `#` exactly when the line does. */
  lemma {:induction false} FirstFieldComment(t: string)
    ensures StartsWith(Split(t, '\t')[0], "#") <==> StartsWith(t, "#")
  {
    if t != [] {
      var rest := Split(t[1..], '\t');
      assert t[0] != '\t' ==> Split(t, '\t')[0] == [t[0]] + rest[0];
    }
  }

  /** The header loop's test on the fields it has read is the comment test on the line. */
  lemma HeaderFieldsComment(lines: seq<string>, i: nat)
    ensures StartsWith(HeaderFields(lines, i)[0], "#") <==> IsComment(lines, i)
  {
    if i < |lines| {
      FirstFieldComment(Strip(lines[i], LineBreaks));
    }
  }

  /** The comment test for every line of the input, in order. */
  function CommentFlags(lines: seq<string>): (flags: seq<bool>)
    ensures |flags| == |lines|
    ensures forall j :: 0 <= j < |lines| ==> flags[j] == IsComment(lines, j)
  {
    seq(|lines|, j requires 0 <= j < |lines| => IsComment(lines, j))
  }

  /** The first position at or after `i` whose flag is not set, or the length when there is none. */
  function FirstUnset(flags: seq<bool>, i: nat): (k: nat)
    requires i <= |flags|
    ensures i <= k <= |flags|
    ensures forall j :: i <= j < k ==> flags[j]
    ensures k < |flags| ==> !flags[k]
    decreases |flags| - i
  {
    if i < |flags| && flags[i] then FirstUnset(flags, i + 1) else i
  }

  /** The index of the header line: the first line at or after `i` that is not a comment. */
  function HeaderIndexFrom(lines: seq<string>, i: nat): (k: nat)
    requires i <= |lines|
    ensures i <= k <= |lines|
    ensures forall j :: i <= j < k ==> IsComment(lines, j)
    ensures !IsComment(lines, k)
  {
    FirstUnset(CommentFlags(lines), i)
  }

  /** Lines 13-16: the header is the first line that is not a comment, or the empty line past the end. */
  function HeaderIndex(lines: seq<string>): (k: nat)
    ensures k <= |lines|
    ensures forall j :: 0 <= j < k ==> IsComment(lines, j)
    ensures !IsComment(lines, k)
  {
    HeaderIndexFrom(lines, 0)
  }

  /** Line 10: `"# Versions: "` and the version string with every `_` shown as a space. */
  function VersionLine(version: string): (line: string)
    ensures StartsWith(line, "# Versions: ")
    ensures |line| == |"# Versions: "| + |version|
    ensures forall k :: 0 <= k < |version| ==>
      line[|"# Versions: "| + k] == if version[k] == '_' then ' ' else version[k]
  {
    "# Versions: " + ReplaceChar(version, '_', ' ')
  }

  /** `xs.index(x)`: the first position of `x`, or `None` where Python raises `ValueError`. */
  function IndexOf(xs: seq<string>, x: string): (r: Option<nat>)
    ensures r.Some? ==> r.value < |xs| && xs[r.value] == x && x !in xs[..r.value]
    ensures r.None? <==> x !in xs
  {
    if xs == [] then None
    else if xs[0] == x then
      assert xs[..0] == [];
      Some(0)
    else
      match IndexOf(xs[1..], x)
      case None => None
      case Some(i) =>
        assert xs[..i + 1] == [xs[0]] + xs[1..][..i];
        Some(i + 1)
  }

  /** `header.index(name)`, failing with the name of the missing column. */
  function Lookup(header: seq<string>, name: string): (r: Result<nat, string>)
    ensures r.Ok? ==> r.value < |header| && header[r.value] == name && name !in header[..r.value]
    ensures r.Err? <==> name !in header
    ensures r.Err? ==> r.error == name
  {
    match IndexOf(header, name)
    case None => Err(name)
    case Some(i) => Ok(i)
  }

  /** The columns the rules need, in the order lines 24-34 look them up. */
  const RequiredColumns: seq<string> := [
    "Hugo_Symbol", "Entrez_Gene_Id", "Start_Position", "HGVSc", "Mutation_Status", "Consequence",
    "FILTER", "hotspot_whitelist", "t_alt_count", "t_depth", "set"]

  /** `col` is the first position of `name` in the header. */
  predicate FirstAt(header: seq<string>, col: nat, name: string) {
    col < |header| && header[col] == name && name !in header[..col]
  }

  /**
   * Lines 24-34: each required column at its first occurrence, or else the name of a required column
   * that is missing. The lookups run in the source's order, so it is the first missing one, but the
   * contract states only that it is missing.
   */
  function ResolveColumns(header: seq<string>): (r: Result<Columns, string>)
    ensures r.Ok? <==> forall name :: name in RequiredColumns ==> name in header
    ensures r.Err? ==> r.error in RequiredColumns && r.error !in header
    ensures r.Ok? ==> var c := r.value;
      FirstAt(header, c.gene, "Hugo_Symbol") && FirstAt(header, c.entrez, "Entrez_Gene_Id") &&
      FirstAt(header, c.position, "Start_Position") && FirstAt(header, c.hgvsc, "HGVSc") &&
      FirstAt(header, c.mutationStatus, "Mutation_Status") && FirstAt(header, c.consequence, "Consequence") &&
      FirstAt(header, c.filter, "FILTER") && FirstAt(header, c.hotspot, "hotspot_whitelist") &&
      FirstAt(header, c.altCount, "t_alt_count") && FirstAt(header, c.depth, "t_depth") &&
      FirstAt(header, c.callers, "set")
  {
    var gene :- Lookup(header, "Hugo_Symbol");
    var entrez :- Lookup(header, "Entrez_Gene_Id");
    var position :- Lookup(header, "Start_Position");
    var hgvsc :- Lookup(header, "HGVSc");
    var status :- Lookup(header, "Mutation_Status");
    var csq :- Lookup(header, "Consequence");
    var filter :- Lookup(header, "FILTER");
    var hotspot :- Lookup(header, "hotspot_whitelist");
    var altCount :- Lookup(header, "t_alt_count");
    var depth :- Lookup(header, "t_depth");
    var callers :- Lookup(header, "set");
    Ok(Columns(gene, entrez, position, hgvsc, status, csq, filter, hotspot, altCount, depth, callers))
  }

  /** Line 22: the first `HGVSp_Short` renamed to `Amino_Acid_Change`. */
  function Rename(header: seq<string>): (r: Result<seq<string>, string>)
    ensures r.Err? <==> "HGVSp_Short" !in header
    ensures r.Err? ==> r.error == "HGVSp_Short"
    ensures r.Ok? ==> |r.value| == |header|
    ensures r.Ok? ==> forall k :: 0 <= k < |header| ==>
      r.value[k] == if FirstAt(header, k, "HGVSp_Short") then "Amino_Acid_Change" else header[k]
  {
    var i :- Lookup(header, "HGVSp_Short");
    Ok(header[i := "Amino_Acid_Change"])
  }

  /** Line 23: the portal's header, the renamed header cut to its first 45 names. */
  function PortalHeader(header: seq<string>): (r: Result<seq<string>, string>)
    ensures r.Err? <==> "HGVSp_Short" !in header
    ensures r.Ok? ==> |r.value| == if |header| <= PortalWidth then |header| else PortalWidth
    ensures r.Ok? ==> forall k :: 0 <= k < |r.value| ==>
      r.value[k] == if FirstAt(header, k, "HGVSp_Short") then "Amino_Acid_Change" else header[k]
  {
    var renamed :- Rename(header);
    Ok(Take(renamed, PortalWidth))
  }

  /**
   * Renaming `HGVSp_Short` does not move any required column: resolving against the renamed header,
   * as the source does, finds the same positions as resolving against the header as read.
   */
  lemma ResolveAfterRename(header: seq<string>, i: nat)
    requires FirstAt(header, i, "HGVSp_Short")
    ensures ResolveColumns(header[i := "Amino_Acid_Change"]) == ResolveColumns(header)
  {
    var renamed := header[i := "Amino_Acid_Change"];
    IndexOfUpdate(header, i, "Amino_Acid_Change", "Hugo_Symbol");
    IndexOfUpdate(header, i, "Amino_Acid_Change", "Entrez_Gene_Id");
    IndexOfUpdate(header, i, "Amino_Acid_Change", "Start_Position");
    IndexOfUpdate(header, i, "Amino_Acid_Change", "HGVSc");
    IndexOfUpdate(header, i, "Amino_Acid_Change", "Mutation_Status");
    IndexOfUpdate(header, i, "Amino_Acid_Change", "Consequence");
    IndexOfUpdate(header, i, "Amino_Acid_Change", "FILTER");
    IndexOfUpdate(header, i, "Amino_Acid_Change", "hotspot_whitelist");
    IndexOfUpdate(header, i, "Amino_Acid_Change", "t_alt_count");
    IndexOfUpdate(header, i, "Amino_Acid_Change", "t_depth");
    IndexOfUpdate(header, i, "Amino_Acid_Change", "set");
  }

  /** Overwriting an entry that is neither `x` nor becomes `x` leaves the first position of `x` unchanged. */
  lemma {:induction false} IndexOfUpdate(xs: seq<string>, i: nat, v: string, x: string)
    requires i < |xs| && xs[i] != x && v != x
    ensures IndexOf(xs[i := v], x) == IndexOf(xs, x)
  {
    var ys := xs[i := v];
    assert x in xs <==> x in ys by {
      forall y | y in xs && y == x ensures y in ys {
        var j :| 0 <= j < |xs| && xs[j] == y;
        assert ys[j] == y;
      }
      forall y | y in ys && y == x ensures y in xs {
        var j :| 0 <= j < |ys| && ys[j] == y;
        assert xs[j] == y;
      }
    }
    match IndexOf(xs, x)
    case None =>
    case Some(j) =>
      var r := IndexOf(ys, x);
      assert ys[j] == x;
      assert x !in ys[..j] by {
        assert forall k :: 0 <= k < j ==> ys[k] != x by {
          forall k | 0 <= k < j ensures ys[k] != x {
            assert xs[..j][k] == xs[k];
          }
        }
      }
      assert r.value == j;
  }
}
