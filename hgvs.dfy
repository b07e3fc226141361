/**
 * The splice-junction distance read off an HGVSc string, as the filter's regular expression
 * `[nc]\.\d+[-+](\d+)_\d+[-+](\d+)|[nc]\.\d+[-+](\d+)` finds it with `re.match`: anchored at the
 * start of the string only, the range form tried before the single-position form. The expression
 * is the one on line 49 of `setup/bin/maf_filter.py`.
 */
module Hgvs {
  import opened Wrappers
  import opened Numbers

  /** One intronic position such as `123+2`: an exonic base, the direction, and the distance into the intron. */
  datatype Anchor = Anchor(base: string, sign: char, offset: string)

  /** What the expression matched: `c.123+2` or `c.123+2_124-1`, with the reference kind `c` or `n`. */
  datatype HgvscMatch =
    | Single(kind: char, at: Anchor)
    | Range(kind: char, from: Anchor, to: Anchor)

  predicate ValidAnchor(a: Anchor) {
    |a.base| >= 1 && AllDigits(a.base) && (a.sign == '+' || a.sign == '-') &&
    |a.offset| >= 1 && AllDigits(a.offset)
  }

  predicate ValidMatch(m: HgvscMatch) {
    (m.kind == 'c' || m.kind == 'n') &&
    match m
    case Single(_, at) => ValidAnchor(at)
    case Range(_, from, to) => ValidAnchor(from) && ValidAnchor(to)
  }

  function RenderAnchor(a: Anchor): string {
    a.base + [a.sign] + a.offset
  }

  /** The text a match stands for. */
  function Render(m: HgvscMatch): string {
    match m
    case Single(kind, at) => [kind, '.'] + RenderAnchor(at)
    case Range(kind, from, to) => [kind, '.'] + RenderAnchor(from) + "_" + RenderAnchor(to)
  }

  /** For indels, the distance to the closer splice junction; the digits are read as `int()` would. */
  function SpliceDistance(m: HgvscMatch): (d: nat)
    requires ValidMatch(m)
    ensures m.Single? ==> d == DigitsValue(m.at.offset)
    ensures m.Range? ==> d <= DigitsValue(m.from.offset) && d <= DigitsValue(m.to.offset)
    ensures m.Range? ==> d == DigitsValue(m.from.offset) || d == DigitsValue(m.to.offset)
  {
    match m
    case Single(_, at) => DigitsValue(at.offset)
    case Range(_, from, to) =>
      var d1, d2 := DigitsValue(from.offset), DigitsValue(to.offset);
      if d1 <= d2 then d1 else d2
  }

  /** `\d+`, greedy: the longest run of digits at the front of `s`, and what follows it. */
  function DigitPrefix(s: string): (r: (string, string))
    ensures r.0 + r.1 == s
    ensures AllDigits(r.0)
    ensures r.1 == [] || !IsDigit(r.1[0])
  {
    if s != [] && IsDigit(s[0]) then
      var (d, rest) := DigitPrefix(s[1..]);
      assert [s[0]] + d + rest == s;
      ([s[0]] + d, rest)
    else ([], s)
  }

  /** `\d+[-+]\d+` at the front of `s`: the anchor it spells and the text after it. */
  function AnchorPrefix(s: string): (r: Option<(Anchor, string)>)
    ensures r.Some? ==> ValidAnchor(r.value.0) && RenderAnchor(r.value.0) + r.value.1 == s
    ensures r.Some? ==> r.value.1 == [] || !IsDigit(r.value.1[0])
  {
    var (base, rest) := DigitPrefix(s);
    if base == [] || rest == [] || (rest[0] != '+' && rest[0] != '-') then None
    else
      var (offset, tail) := DigitPrefix(rest[1..]);
      if offset == [] then None
      else
        assert rest == [rest[0]] + offset + tail;
        Some((Anchor(base, rest[0], offset), tail))
  }

  /**
   * `re.match` of the splice expression: the match and the unmatched remainder of the string.
   * The remainder never starts with a digit, since every digit run in the expression is greedy.
   */
  function MatchHgvsc(s: string): (r: Option<(HgvscMatch, string)>)
    ensures r.Some? ==> ValidMatch(r.value.0) && Render(r.value.0) + r.value.1 == s
    ensures r.Some? ==> r.value.1 == [] || !IsDigit(r.value.1[0])
  {
    if |s| < 2 || (s[0] != 'c' && s[0] != 'n') || s[1] != '.' then None
    else
      match AnchorPrefix(s[2..])
      case None => None
      case Some((a, rest)) =>
        assert s == [s[0], '.'] + (RenderAnchor(a) + rest) by {
          assert s == s[..2] + s[2..] && s[..2] == [s[0], '.'];
        }
        Some(MatchAfterFirst(s[0], a, rest))
  }

  /** After the first anchor: the range form when `_` and a second anchor follow, else the single form. */
  function MatchAfterFirst(kind: char, a: Anchor, rest: string): (r: (HgvscMatch, string))
    requires (kind == 'c' || kind == 'n') && ValidAnchor(a)
    requires rest == [] || !IsDigit(rest[0])
    ensures ValidMatch(r.0) && Render(r.0) + r.1 == [kind, '.'] + (RenderAnchor(a) + rest)
    ensures r.1 == [] || !IsDigit(r.1[0])
  {
    if rest != [] && rest[0] == '_' && AnchorPrefix(rest[1..]).Some? then
      var (b, tail) := AnchorPrefix(rest[1..]).value;
      assert rest == "_" + (RenderAnchor(b) + tail) by {
        assert rest == [rest[0]] + rest[1..];
      }
      RangeRender(kind, a, b, tail);
      (Range(kind, a, b), tail)
    else
      (Single(kind, a), rest)
  }

  lemma RangeRender(kind: char, a: Anchor, b: Anchor, t: string)
    ensures Render(Range(kind, a, b)) + t == [kind, '.'] + (RenderAnchor(a) + ("_" + (RenderAnchor(b) + t)))
  {
  }

  /** The HGVSc match, or `None` when `re.match` returns `None`. */
  function ParseHgvsc(s: string): (r: Option<HgvscMatch>)
    ensures r.Some? ==> ValidMatch(r.value) && Render(r.value) <= s
    ensures r.Some? ==> |Render(r.value)| == |s| || !IsDigit(s[|Render(r.value)|])
  {
    match MatchHgvsc(s)
    case None => None
    case Some((m, rest)) =>
      assert s[|Render(m)|..] == rest;
      Some(m)
  }

  /** A run of digits followed by a non-digit is split off exactly. */
  lemma {:induction false} DigitPrefixOf(d: string, t: string)
    requires AllDigits(d)
    requires t == [] || !IsDigit(t[0])
    ensures DigitPrefix(d + t) == (d, t)
  {
    if d != [] {
      assert (d + t)[1..] == d[1..] + t;
      DigitPrefixOf(d[1..], t);
      assert [d[0]] + d[1..] == d;
    } else {
      assert d + t == t;
    }
  }

  /** An anchor spelled out and followed by a non-digit is read back as itself. */
  lemma {:induction false} AnchorPrefixOf(a: Anchor, t: string)
    requires ValidAnchor(a)
    requires t == [] || !IsDigit(t[0])
    ensures AnchorPrefix(RenderAnchor(a) + t) == Some((a, t))
  {
    var rest := [a.sign] + a.offset + t;
    assert RenderAnchor(a) + t == a.base + rest;
    DigitPrefixOf(a.base, rest);
    assert rest[1..] == a.offset + t;
    DigitPrefixOf(a.offset, t);
  }

  /**
   * Every well-formed match, followed by text that does not continue its last digit run, is found
   * again by the parser. A single position is found again unless `_` and a second position follow it,
   * since the range form is tried first.
   */
  lemma {:induction false} ParseHgvscRender(m: HgvscMatch, tail: string)
    requires ValidMatch(m)
    requires tail == [] || !IsDigit(tail[0])
    requires m.Single? ==> tail == [] || tail[0] != '_' || AnchorPrefix(tail[1..]).None?
    ensures ParseHgvsc(Render(m) + tail) == Some(m)
  {
    if m.Single? {
      MatchSingleRender(m.kind, m.at, tail);
    } else {
      MatchRangeRender(m.kind, m.from, m.to, tail);
    }
  }

  lemma {:induction false} MatchSingleRender(kind: char, a: Anchor, tail: string)
    requires (kind == 'c' || kind == 'n') && ValidAnchor(a)
    requires tail == [] || (!IsDigit(tail[0]) && (tail[0] != '_' || AnchorPrefix(tail[1..]).None?))
    ensures MatchHgvsc(Render(Single(kind, a)) + tail) == Some((Single(kind, a), tail))
  {
    var s := Render(Single(kind, a)) + tail;
    assert s[2..] == RenderAnchor(a) + tail;
    AnchorPrefixOf(a, tail);
  }

  lemma {:induction false} MatchRangeRender(kind: char, a: Anchor, b: Anchor, tail: string)
    requires (kind == 'c' || kind == 'n') && ValidAnchor(a) && ValidAnchor(b)
    requires tail == [] || !IsDigit(tail[0])
    ensures MatchHgvsc(Render(Range(kind, a, b)) + tail) == Some((Range(kind, a, b), tail))
  {
    var s := Render(Range(kind, a, b)) + tail;
    var rest := "_" + (RenderAnchor(b) + tail);
    RangeRender(kind, a, b, tail);
    assert s[2..] == RenderAnchor(a) + rest;
    AnchorPrefixOf(a, rest);
    assert rest[1..] == RenderAnchor(b) + tail;
    AnchorPrefixOf(b, tail);
  }

  /** The worked example: a deletion from `+2` of one intron to `-1` of the next is 1 base from a junction. */
  lemma SpliceDistanceExample()
    ensures ParseHgvsc("c.123+2_124-1").Some?
    ensures SpliceDistance(ParseHgvsc("c.123+2_124-1").value) == 1
  {
    var m := Range('c', Anchor("123", '+', "2"), Anchor("124", '-', "1"));
    assert Render(m) + "" == "c.123+2_124-1";
    ParseHgvscRender(m, "");
  }

  /**
   * A single position followed by `_` but no second position, as in the deletion `c.1235-3_1235del`:
   * the range form fails at `del`, and the single form gives distance 3.
   */
  lemma SpliceDistanceSingleExample()
    ensures ParseHgvsc("c.1235-3_1235del").Some?
    ensures SpliceDistance(ParseHgvsc("c.1235-3_1235del").value) == 3
  {
    var m := Single('c', Anchor("1235", '-', "3"));
    var tail := "_1235del";
    assert ValidAnchor(m.at) by { assert AllDigits("1235") && AllDigits("3"); }
    NoAnchorBeforeDel(tail);
    ParseHgvscRender(m, tail);
    SingleExampleRender();
  }

  /** After the `_` of `_1235del` no position starts: no sign follows the digits `1235`. */
  lemma NoAnchorBeforeDel(tail: string)
    requires tail == "_1235del"
    ensures tail != [] && !IsDigit(tail[0]) && tail[0] == '_'
    ensures AnchorPrefix(tail[1..]).None?
  {
    assert tail[1..] == "1235" + "del";
    DigitPrefixOf("1235", "del");
  }

  lemma SingleExampleRender()
    ensures Render(Single('c', Anchor("1235", '-', "3"))) + "_1235del" == "c.1235-3_1235del"
  {
  }
}
