/** The text side of mapping Wisconsin election reporting units to wards:
    reading the ward numbers out of a reporting-unit label, normalising them
    to `Ward n` / `Wards a,b,...`, and building ward FIPS codes. The regular
    expressions of the Python code are written out here as scanners over the
    label. */
module WardMapping {
  import opened Wrappers
  import opened Text

  // ---------------------------------------------------------------------------
  // Scanning runs of characters

  /** The end of the run of digits starting at `i` (`\d*` from `i`). */
  function DigitRunEnd(s: string, i: nat): (j: nat)
    requires i <= |s|
    ensures i <= j <= |s|
    ensures forall k :: i <= k < j ==> IsDigit(s[k])
    ensures j < |s| ==> !IsDigit(s[j])
    decreases |s| - i
  {
    if i < |s| && IsDigit(s[i]) then DigitRunEnd(s, i + 1) else i
  }

  /** The end of the run of whitespace starting at `i` (`\s*` from `i`). */
  function SpaceRunEnd(s: string, i: nat): (j: nat)
    requires i <= |s|
    ensures i <= j <= |s|
    ensures forall k :: i <= k < j ==> IsSpace(s[k])
    ensures j < |s| ==> !IsSpace(s[j])
    decreases |s| - i
  {
    if i < |s| && IsSpace(s[i]) then SpaceRunEnd(s, i + 1) else i
  }

  /** The position of the first digit, or the length when there is none. */
  function FirstDigit(s: string): (p: nat)
    ensures p <= |s|
    ensures forall k :: 0 <= k < p ==> !IsDigit(s[k])
    ensures p < |s| ==> IsDigit(s[p])
  {
    if s == [] then 0
    else if IsDigit(s[0]) then 0
    else 1 + FirstDigit(s[1..])
  }

  /** The digit run is determined by where it stops. */
  lemma {:induction false} DigitRunEndAt(s: string, i: nat, j: nat)
    requires i <= j <= |s|
    requires forall k :: i <= k < j ==> IsDigit(s[k])
    requires j < |s| ==> !IsDigit(s[j])
    ensures DigitRunEnd(s, i) == j
    decreases j - i
  {
    if i < j {
      DigitRunEndAt(s, i + 1, j);
    }
  }

  lemma {:induction false} FirstDigitAt(s: string, p: nat)
    requires p <= |s|
    requires forall k :: 0 <= k < p ==> !IsDigit(s[k])
    requires p < |s| ==> IsDigit(s[p])
    ensures FirstDigit(s) == p
  {
    if p > 0 {
      FirstDigitAt(s[1..], p - 1);
    }
  }

  /** Python's `$` without MULTILINE: the end of the text, or just before a
      final newline. */
  predicate AtEnd(s: string, k: nat)
  {
    k == |s| || (k == |s| - 1 && s[k] == '\n')
  }

  // ---------------------------------------------------------------------------
  // `extract_numbers`

  /** A match of `\d+-\d+|\d+`: a range or a single number. */
  datatype Token = Range(lo: nat, hi: nat) | Lone(n: nat)

  /** `re.findall(r'\d+-\d+|\d+', s)` from position `i`, each match converted
      with `int`. */
  function Tokens(s: string, i: nat): seq<Token>
    requires i <= |s|
    decreases |s| - i
  {
    if i == |s| then []
    else if !IsDigit(s[i]) then Tokens(s, i + 1)
    else
      var j := DigitRunEnd(s, i);
      assert AllDigits(s[i..j]);
      if j + 1 < |s| && s[j] == '-' && IsDigit(s[j + 1]) then
        var k := DigitRunEnd(s, j + 1);
        assert AllDigits(s[j + 1..k]);
        [Range(DigitsValue(s[i..j]), DigitsValue(s[j + 1..k]))] + Tokens(s, k)
      else [Lone(DigitsValue(s[i..j]))] + Tokens(s, j)
  }

  /** `range(lo, hi + 1)` */
  function Interval(lo: nat, hi: nat): (r: seq<nat>)
    ensures |r| == if lo <= hi then hi - lo + 1 else 0
    ensures forall k :: 0 <= k < |r| ==> r[k] == lo + k
  {
    seq(if lo <= hi then hi - lo + 1 else 0, k requires k >= 0 => lo + k)
  }

  function TokenNumbers(t: Token): seq<nat>
  {
    match t
    case Range(lo, hi) => Interval(lo, hi)
    case Lone(n) => [n]
  }

  /** The numbers of the tokens, each range expanded, in order. */
  function Numbers(ts: seq<Token>): seq<nat>
  {
    if ts == [] then [] else Numbers(ts[..|ts| - 1]) + TokenNumbers(ts[|ts| - 1])
  }

  /** `','.join(map(str, ns))` */
  function NumberList(ns: seq<nat>): string
  {
    Join(seq(|ns|, k requires 0 <= k < |ns| => NatToStr(ns[k])), ",")
  }

  /** What `extract_numbers` returns: the comma list of the numbers, or
      `None` when there are none. */
  function ExtractedNumbers(text: string): Option<string>
  {
    var ns := Numbers(Tokens(text, 0));
    if ns == [] then None else Some(NumberList(ns))
  }

  /** `extract_numbers`, with its loop over the matches. */
  method ExtractNumbers(text: string) returns (r: Option<string>)
    ensures r == ExtractedNumbers(text)
  {
    var parts := Tokens(text, 0);
    var numbers: seq<nat> := [];
    var i := 0;
    while i < |parts|
      invariant 0 <= i <= |parts|
      invariant numbers == Numbers(parts[..i])
    {
      assert parts[..i + 1][..i] == parts[..i];
      match parts[i] {
        case Range(lo, hi) => numbers := numbers + Interval(lo, hi);
        case Lone(n) => numbers := numbers + [n];
      }
      i := i + 1;
    }
    assert parts[..|parts|] == parts;
    r := if numbers == [] then None else Some(NumberList(numbers));
  }

  /** Text without digits has no matches. */
  lemma {:induction false} TokensWithoutDigits(s: string, i: nat)
    requires i <= |s|
    requires forall k :: i <= k < |s| ==> !IsDigit(s[k])
    ensures Tokens(s, i) == []
    decreases |s| - i
  {
    if i < |s| {
      TokensWithoutDigits(s, i + 1);
    }
  }

  /** Skipping a stretch without digits does not change the matches. */
  lemma {:induction false} TokensSkip(s: string, i: nat, j: nat)
    requires i <= j <= |s|
    requires forall k :: i <= k < j ==> !IsDigit(s[k])
    ensures Tokens(s, i) == Tokens(s, j)
    decreases j - i
  {
    if i < j {
      TokensSkip(s, i + 1, j);
    }
  }

  /** `extract_numbers` gives `None` for text without digits. */
  lemma NoDigitsNoNumbers(text: string)
    requires forall k :: 0 <= k < |text| ==> !IsDigit(text[k])
    ensures ExtractedNumbers(text) == None
  {
    TokensWithoutDigits(text, 0);
  }

  /** A range written backwards expands to nothing, so text with digits can
      still give `None`. */
  lemma BackwardRangeNoNumbers()
    ensures ExtractedNumbers("Ward 5-3") == None
  {
    var s := "Ward 5-3";
    TokensSkip(s, 0, 5);
    DigitRunEndAt(s, 5, 6);
    DigitRunEndAt(s, 7, 8);
    assert s[5..6] == "5" && s[7..8] == "3";
    assert Tokens(s, 5) == [Range(5, 3)];
    assert [Range(5, 3)][..0] == [];
  }

  // ---------------------------------------------------------------------------
  // `ProcessReportingUnitString`

  /** A stretch `s[start..end]` of the label. */
  datatype Span = Span(start: nat, end: nat)

  /** The stretch is a non-empty run of digits inside `s`. */
  predicate DigitSpan(s: string, sp: Span)
  {
    sp.start < sp.end <= |s| && forall k :: sp.start <= k < sp.end ==> IsDigit(s[k])
  }

  /** `int(...)` of a run of digits. */
  function SpanValue(s: string, sp: Span): nat
    requires DigitSpan(s, sp)
  {
    assert AllDigits(s[sp.start..sp.end]);
    DigitsValue(s[sp.start..sp.end])
  }

  /** A match at `i` of `(\d+)\s*<sep>\s*(\d+$)`: the spans of its two
      groups. */
  function PairAt(s: string, i: nat, sep: char): (r: Option<(Span, Span)>)
    requires i <= |s|
    ensures r.Some? ==> r.value.0.start == i && DigitSpan(s, r.value.0) && DigitSpan(s, r.value.1)
    ensures r.Some? ==> r.value.0.end < r.value.1.start && AtEnd(s, r.value.1.end)
  {
    if i < |s| && IsDigit(s[i]) then
      var j := DigitRunEnd(s, i);
      var k := SpaceRunEnd(s, j);
      if k < |s| && s[k] == sep then
        var m := SpaceRunEnd(s, k + 1);
        if m < |s| && IsDigit(s[m]) then
          var e := DigitRunEnd(s, m);
          if AtEnd(s, e) then Some((Span(i, j), Span(m, e))) else None
        else None
      else None
    else None
  }

  /** A match at `i` of `(\d+$)`. */
  function SingleAt(s: string, i: nat): (r: Option<Span>)
    requires i <= |s|
    ensures r.Some? ==> r.value.start == i && DigitSpan(s, r.value) && AtEnd(s, r.value.end)
  {
    if i < |s| && IsDigit(s[i]) && AtEnd(s, DigitRunEnd(s, i)) then Some(Span(i, DigitRunEnd(s, i)))
    else None
  }

  /** `re.search` of `(\d+)\s*<sep>\s*(\d+$)` from `i`: the leftmost match. */
  function SearchPair(s: string, i: nat, sep: char): (r: Option<(Span, Span)>)
    requires i <= |s|
    ensures r.Some? ==> i <= r.value.0.start <= |s| && r == PairAt(s, r.value.0.start, sep)
    ensures r.None? ==> forall k :: i <= k <= |s| ==> PairAt(s, k, sep).None?
    decreases |s| - i
  {
    if i == |s| then None
    else if PairAt(s, i, sep).Some? then PairAt(s, i, sep)
    else SearchPair(s, i + 1, sep)
  }

  /** `re.search` of `(\d+$)` from `i`: the leftmost match. */
  function SearchSingle(s: string, i: nat): (r: Option<Span>)
    requires i <= |s|
    ensures r.Some? ==> i <= r.value.start <= |s| && r == SingleAt(s, r.value.start)
    ensures r.None? ==> forall k :: i <= k <= |s| ==> SingleAt(s, k).None?
    decreases |s| - i
  {
    if i == |s| then None
    else if SingleAt(s, i).Some? then SingleAt(s, i)
    else SearchSingle(s, i + 1)
  }

  /** The end of `(?:,\d+)*` from `j`. */
  function CommaListEnd(s: string, j: nat): (e: nat)
    requires j <= |s|
    ensures j <= e <= |s|
    ensures e == j || IsDigit(s[e - 1])
    ensures forall k :: j <= k < e ==> IsDigit(s[k]) || s[k] == ','
    decreases |s| - j
  {
    if j + 1 < |s| && s[j] == ',' && IsDigit(s[j + 1]) then CommaListEnd(s, DigitRunEnd(s, j + 1)) else j
  }

  /** `s[i] == a` and `s[j] == b` with no newline between them: a match of
      `a.*b` (a `.` does not match a newline). */
  predicate LineSpan(s: string, i: int, j: int, a: char, b: char)
  {
    0 <= i < j < |s| && s[i] == a && s[j] == b && forall k :: i < k < j ==> s[k] != '\n'
  }

  /** `re.search(r"(,.*-)|(-.*,)", s)` finds a match. */
  predicate HasCommaHyphen(s: string)
  {
    || (exists i, j | 0 <= i < j < |s| :: LineSpan(s, i, j, ',', '-'))
    || (exists i, j | 0 <= i < j < |s| :: LineSpan(s, i, j, '-', ','))
  }

  /** The `type` of a reporting unit (the source spells the range kind
      `hypen`). */
  datatype UnitType = Hyphen | Single | Amp | Comma | CommaHyphen | Unmatched

  /** The dict `{"type": ..., "data": ...}`. */
  datatype ReportingUnit = ReportingUnit(kind: UnitType, data: string)

  predicate IsTotals(ward: string)
  {
    ward == "County Totals:" || ward == "Office Totals:"
  }

  /** The `type`/`data` for a label the comma-hyphen pattern missed: the
      search of `^\D+` followed by one of the `hypen`, `single`, `amp` and
      `comma` groups, tried in that order; no match is `unmatched`. */
  function MatchUnit(ward: string): ReportingUnit
  {
    var p := FirstDigit(ward);
    if p == 0 || p == |ward| then ReportingUnit(Unmatched, ward)
    else MatchAfterPrefix(ward, p)
  }

  /** The four alternatives of the search, tried after the non-digit prefix
      `ward[..p]`. */
  function MatchAfterPrefix(ward: string, p: nat): ReportingUnit
    requires p < |ward|
  {
    if PairAt(ward, p, '-').Some? then ReportingUnit(Hyphen, ward[p..PairAt(ward, p, '-').value.1.end])
    else if SingleAt(ward, p).Some? then ReportingUnit(Single, ward[p..SingleAt(ward, p).value.end])
    else if PairAt(ward, p, '&').Some? then ReportingUnit(Amp, ward[p..PairAt(ward, p, '&').value.1.end])
    else ReportingUnit(Comma, ward[p..CommaListEnd(ward, DigitRunEnd(ward, p))])
  }

  /** `ProcessReportingUnitString`: the totals rows give `None`; a label with
      a comma and a hyphen on one line has its numbers extracted (and raises
      when there are none); any other label goes to `MatchUnit`. */
  function ProcessReportingUnitString(ward: string): (r: Result<Option<ReportingUnit>>)
    ensures r == Ok(None) <==> IsTotals(ward)
    ensures r.Err? <==> !IsTotals(ward) && HasCommaHyphen(ward) && ExtractedNumbers(ward) == None
  {
    if IsTotals(ward) then Ok(None)
    else if HasCommaHyphen(ward) then
      match ExtractedNumbers(ward)
      case Some(numbers) => Ok(Some(ReportingUnit(CommaHyphen, numbers)))
      case None => Err(RaisedException(""))
    else Ok(Some(MatchUnit(ward)))
  }

  // ---------------------------------------------------------------------------
  // `ConvertWardFormat`

  /** `re.search(r'(\d+)((?:\s*),(?:\s*)*)', s)` finds a match: a digit,
      then whitespace, then a comma. */
  predicate DigitsThenComma(s: string)
  {
    exists i, k :: 0 <= i < k < |s| && IsDigit(s[i]) && s[k] == ',' && forall t :: i < t < k ==> IsSpace(s[t])
  }

  /** The converter's answer, or the exception it raises. */
  function Converted(converter: string -> Result<string>, reportingUnit: string): Result<Option<string>>
  {
    match converter(reportingUnit)
    case Ok(v) => Ok(Some(v))
    case Err(e) => Err(e)
  }

  /** `ConvertWardFormat(row, converter)`: `unit` is the parsed `type`/`data`
      (`None` for a totals row, which no branch handles) and `reportingUnit`
      the row's original label. A failed search raises AttributeError, which
      hands the label to `converter`; a failed `hypen` search returns
      `None`. */
  function ConvertWardFormat(unit: Option<ReportingUnit>, reportingUnit: string,
                             converter: string -> Result<string>): (r: Result<Option<string>>)
    ensures unit.None? ==> r == Ok(None)
    ensures unit.Some? && unit.value.kind == Unmatched ==> r == Converted(converter, reportingUnit)
    ensures unit.Some? && unit.value.kind == Hyphen && SearchPair(unit.value.data, 0, '-').None? ==> r == Ok(None)
    ensures unit.Some? && unit.value.kind == Single && SearchSingle(unit.value.data, 0).None? ==>
              r == Converted(converter, reportingUnit)
    ensures unit.Some? && unit.value.kind == Amp && SearchPair(unit.value.data, 0, '&').None? ==>
              r == Converted(converter, reportingUnit)
    ensures unit.Some? && unit.value.kind in {Comma, CommaHyphen} && !DigitsThenComma(unit.value.data) ==>
              r == Converted(converter, reportingUnit)
    ensures r.Ok? && r.value.Some? && (unit.Some? ==> unit.value.kind != Unmatched) &&
            converter(reportingUnit) != Ok(r.value.value) ==>
              "Ward" <= r.value.value
  {
    match unit
    case None => Ok(None)
    case Some(u) =>
      match u.kind
      case Hyphen =>
        (match SearchPair(u.data, 0, '-')
         case None => Ok(None)
         case Some((a, b)) => Ok(Some("Wards " + NumberList(Interval(SpanValue(u.data, a), SpanValue(u.data, b))))))
      case Comma => if DigitsThenComma(u.data) then Ok(Some("Wards " + u.data)) else Converted(converter, reportingUnit)
      case Single =>
        (match SearchSingle(u.data, 0)
         case None => Converted(converter, reportingUnit)
         case Some(a) => Ok(Some("Ward " + NatToStr(SpanValue(u.data, a)))))
      case Amp =>
        (match SearchPair(u.data, 0, '&')
         case None => Converted(converter, reportingUnit)
         case Some((a, b)) => Ok(Some("Wards " + NatToStr(SpanValue(u.data, a)) + "," + NatToStr(SpanValue(u.data, b)))))
      case CommaHyphen => if DigitsThenComma(u.data) then Ok(Some("Wards " + u.data)) else Converted(converter, reportingUnit)
      case Unmatched => Converted(converter, reportingUnit)
  }

  // ---------------------------------------------------------------------------
  // What the recogniser and the converter make of well-formed labels

  /** The text has no digits. */
  predicate NoDigits(s: string)
  {
    forall k :: 0 <= k < |s| ==> !IsDigit(s[k])
  }

  /** `NoDigits` from position `i` on, checked character by character. */
  predicate DigitFreeFrom(s: string, i: nat)
    decreases |s| - i
  {
    i >= |s| || (!IsDigit(s[i]) && DigitFreeFrom(s, i + 1))
  }

  lemma {:induction false} DigitFreeNoDigits(s: string, i: nat)
    requires DigitFreeFrom(s, i)
    ensures forall k :: i <= k < |s| ==> !IsDigit(s[k])
    decreases |s| - i
  {
    if i < |s| {
      DigitFreeNoDigits(s, i + 1);
    }
  }

  lemma TotalsHaveNoDigits()
    ensures NoDigits("County Totals:") && NoDigits("Office Totals:")
  {
    var county, office := "County Totals:", "Office Totals:";
    assert DigitFreeFrom(county, 0) by {
      assert DigitFreeFrom(county, 7);
    }
    DigitFreeNoDigits(county, 0);
    assert DigitFreeFrom(office, 0) by {
      assert DigitFreeFrom(office, 7);
    }
    DigitFreeNoDigits(office, 0);
  }

  /** A label made of a non-digit prefix and text starting with a digit is
      not a totals row, and its first digit is where that text starts. */
  lemma PrefixedLabel(p: string, t: string)
    requires p != [] && NoDigits(p)
    requires t != [] && IsDigit(t[0])
    ensures !IsTotals(p + t)
    ensures FirstDigit(p + t) == |p|
  {
    var w := p + t;
    assert w[|p|] == t[0];
    TotalsHaveNoDigits();
    FirstDigitAt(w, |p|);
  }

  /** A run of digits followed by one separator and a run of digits to the
      end: the separator's pattern matches there and no other does. */
  lemma {:induction false} PairShape(s: string, i: nat, d1: string, c: char, d2: string)
    requires i <= |s| && s[i..] == d1 + [c] + d2
    requires d1 != [] && AllDigits(d1) && d2 != [] && AllDigits(d2)
    requires !IsDigit(c) && !IsSpace(c)
    ensures DigitRunEnd(s, i) == i + |d1|
    ensures PairAt(s, i, c) == Some((Span(i, i + |d1|), Span(i + |d1| + 1, |s|)))
    ensures s[i..i + |d1|] == d1 && s[i + |d1| + 1..] == d2
    ensures forall x :: PairAt(s, i, x).Some? ==> x == c
    ensures SingleAt(s, i).None?
  {
    var j := i + |d1|;
    assert forall k :: i <= k < j ==> s[k] == d1[k - i];
    assert s[j] == c;
    DigitRunEndAt(s, i, j);
    assert forall k :: j + 1 <= k < |s| ==> s[k] == d2[k - j - 1];
    DigitRunEndAt(s, j + 1, |s|);
    assert s[i..j] == s[i..][..|d1|];
    assert s[j + 1..] == s[i..][|d1| + 1..];
  }

  /** A run of digits to the end: `single` matches there and no pair does. */
  lemma SingleShape(s: string, i: nat, d: string)
    requires i <= |s| && s[i..] == d
    requires d != [] && AllDigits(d)
    ensures SingleAt(s, i) == Some(Span(i, |s|))
    ensures forall x :: PairAt(s, i, x).None?
  {
    assert forall k :: i <= k < |s| ==> s[k] == d[k - i];
    DigitRunEndAt(s, i, |s|);
  }

  /** A label without commas has no comma-hyphen match. */
  lemma NoCommaNoMatch(s: string)
    requires ',' !in s
    ensures !HasCommaHyphen(s)
  {
    assert forall k :: 0 <= k < |s| ==> s[k] != ',';
  }

  /** A label without hyphens has no comma-hyphen match. */
  lemma NoHyphenNoMatch(s: string)
    requires '-' !in s
    ensures !HasCommaHyphen(s)
  {
    assert forall k :: 0 <= k < |s| ==> s[k] != '-';
  }

  /** The recogniser on a label the comma-hyphen pattern misses, with a
      non-digit prefix `p` and text `t` starting with a digit. */
  lemma PrefixedUnit(p: string, t: string)
    requires p != [] && NoDigits(p)
    requires t != [] && IsDigit(t[0])
    requires !HasCommaHyphen(p + t)
    ensures ProcessReportingUnitString(p + t) == Ok(Some(MatchAfterPrefix(p + t, |p|)))
  {
    PrefixedLabel(p, t);
  }

  /** `foo 7` is the single ward `7`. */
  lemma SingleLabel(p: string, d: string)
    requires p != [] && NoDigits(p) && ',' !in p
    requires d != [] && AllDigits(d)
    ensures ProcessReportingUnitString(p + d) == Ok(Some(ReportingUnit(Single, d)))
  {
    var w := p + d;
    NoCommaNoMatch(w);
    PrefixedUnit(p, d);
    assert w[|p|..] == d;
    SingleShape(w, |p|, d);
    assert w[|p|..|w|] == d;
  }

  /** A single ward becomes `Ward n`, without leading zeros. */
  lemma SingleConverted(d: string, reportingUnit: string, converter: string -> Result<string>)
    requires d != [] && AllDigits(d)
    ensures ConvertWardFormat(Some(ReportingUnit(Single, d)), reportingUnit, converter)
         == Ok(Some("Ward " + NatToStr(DigitsValue(d))))
  {
    assert d[0..] == d;
    SingleShape(d, 0, d);
    assert SearchSingle(d, 0) == Some(Span(0, |d|));
    assert d[0..|d|] == d;
  }

  /** After the prefix, `d1 c d2` to the end, where `c` is the first
      character after the digits, is the range, pair or list it looks like. */
  lemma PairAfterPrefix(w: string, i: nat, d1: string, c: char, d2: string)
    requires i <= |w| && w[i..] == d1 + [c] + d2
    requires d1 != [] && AllDigits(d1) && d2 != [] && AllDigits(d2)
    requires !IsDigit(c) && !IsSpace(c)
    ensures i < |w|
    ensures c == '-' ==> MatchAfterPrefix(w, i) == ReportingUnit(Hyphen, d1 + [c] + d2)
    ensures c == '&' ==> MatchAfterPrefix(w, i) == ReportingUnit(Amp, d1 + [c] + d2)
    ensures c == ',' ==> MatchAfterPrefix(w, i) == ReportingUnit(Comma, d1 + [c] + d2)
  {
    var t := d1 + [c] + d2;
    PairShape(w, i, d1, c, d2);
    assert w[i..|w|] == t;
    if c == '&' {
      assert PairAt(w, i, '-').None? && SingleAt(w, i).None?;
    } else if c == ',' {
      assert PairAt(w, i, '-').None? && SingleAt(w, i).None? && PairAt(w, i, '&').None?;
      var j := i + |d1|;
      assert CommaListEnd(w, |w|) == |w|;
      assert CommaListEnd(w, j) == |w|;
    }
  }

  /** A label without hyphens has no comma-hyphen match. */
  lemma NoHyphenInLabel(p: string, t: string)
    requires '-' !in p && '-' !in t
    ensures !HasCommaHyphen(p + t)
  {
    var w := p + t;
    forall k | 0 <= k < |w| ensures w[k] != '-' {
      if k < |p| { assert w[k] == p[k] && p[k] in p; } else { assert w[k] == t[k - |p|] && t[k - |p|] in t; }
    }
    assert '-' !in w;
    NoHyphenNoMatch(w);
  }

  /** `foo 1-3` is the range `1-3`; `foo 1&2` the pair `1&2`; `foo 1,2` the
      list `1,2`. */
  lemma HyphenLabel(p: string, d1: string, d2: string)
    requires p != [] && NoDigits(p) && ',' !in p
    requires d1 != [] && AllDigits(d1) && d2 != [] && AllDigits(d2)
    ensures ProcessReportingUnitString(p + d1 + "-" + d2) == Ok(Some(ReportingUnit(Hyphen, d1 + "-" + d2)))
  {
    var w := p + d1 + "-" + d2;
    assert ',' !in w by {
      assert forall k :: 0 <= k < |w| ==> w[k] != ',' by {
        forall k | 0 <= k < |w| ensures w[k] != ',' {
          if k < |p| { assert w[k] == p[k] && p[k] in p; }
        }
      }
    }
    NoCommaNoMatch(w);
    var t := d1 + "-" + d2;
    assert w == p + t;
    PrefixedUnit(p, t);
    assert w[|p|..] == t;
    PairAfterPrefix(w, |p|, d1, '-', d2);
  }

  lemma AmpLabel(p: string, d1: string, d2: string)
    requires p != [] && NoDigits(p) && ',' !in p
    requires d1 != [] && AllDigits(d1) && d2 != [] && AllDigits(d2)
    ensures ProcessReportingUnitString(p + d1 + "&" + d2) == Ok(Some(ReportingUnit(Amp, d1 + "&" + d2)))
  {
    var w := p + d1 + "&" + d2;
    assert ',' !in w by {
      assert forall k :: 0 <= k < |w| ==> w[k] != ',' by {
        forall k | 0 <= k < |w| ensures w[k] != ',' {
          if k < |p| { assert w[k] == p[k] && p[k] in p; }
        }
      }
    }
    NoCommaNoMatch(w);
    var t := d1 + "&" + d2;
    assert w == p + t;
    PrefixedUnit(p, t);
    assert w[|p|..] == t;
    PairAfterPrefix(w, |p|, d1, '&', d2);
  }

  lemma CommaLabel(p: string, d1: string, d2: string)
    requires p != [] && NoDigits(p) && '-' !in p
    requires d1 != [] && AllDigits(d1) && d2 != [] && AllDigits(d2)
    ensures ProcessReportingUnitString(p + d1 + "," + d2) == Ok(Some(ReportingUnit(Comma, d1 + "," + d2)))
  {
    var t := d1 + "," + d2;
    assert '-' !in t by {
      assert forall k :: 0 <= k < |t| ==> t[k] != '-';
    }
    NoHyphenInLabel(p, t);
    var w := p + t;
    assert p + d1 + "," + d2 == w;
    PrefixedUnit(p, t);
    assert w[|p|..] == t;
    PairAfterPrefix(w, |p|, d1, ',', d2);
  }

  /** A range becomes `Wards` and the comma list of its numbers (no numbers
      when it runs backwards). */
  lemma HyphenConverted(d1: string, d2: string, reportingUnit: string, converter: string -> Result<string>)
    requires d1 != [] && AllDigits(d1) && d2 != [] && AllDigits(d2)
    ensures ConvertWardFormat(Some(ReportingUnit(Hyphen, d1 + "-" + d2)), reportingUnit, converter)
         == Ok(Some("Wards " + NumberList(Interval(DigitsValue(d1), DigitsValue(d2)))))
  {
    assert "-" == ['-'];
    PairValues(d1, '-', d2);
  }

  /** In `d1 c d2` the pair search finds the two digit runs, whose values
      are those of `d1` and `d2`. */
  lemma PairValues(d1: string, c: char, d2: string)
    requires d1 != [] && AllDigits(d1) && d2 != [] && AllDigits(d2)
    requires !IsDigit(c) && !IsSpace(c)
    ensures var t := d1 + [c] + d2;
            && SearchPair(t, 0, c) == Some((Span(0, |d1|), Span(|d1| + 1, |t|)))
            && SpanValue(t, Span(0, |d1|)) == DigitsValue(d1)
            && SpanValue(t, Span(|d1| + 1, |t|)) == DigitsValue(d2)
  {
    var t := d1 + [c] + d2;
    assert t[0..] == t;
    PairShape(t, 0, d1, c, d2);
    var a, b := Span(0, |d1|), Span(|d1| + 1, |t|);
    assert SearchPair(t, 0, c) == Some((a, b));
    assert SpanValue(t, a) == DigitsValue(d1) by { assert t[0..|d1|] == d1; }
    assert SpanValue(t, b) == DigitsValue(d2) by { assert t[|d1| + 1..|t|] == d2; }
  }

  /** A pair becomes `Wards a,b`, without leading zeros. */
  lemma AmpConverted(d1: string, d2: string, reportingUnit: string, converter: string -> Result<string>)
    requires d1 != [] && AllDigits(d1) && d2 != [] && AllDigits(d2)
    ensures ConvertWardFormat(Some(ReportingUnit(Amp, d1 + "&" + d2)), reportingUnit, converter)
         == Ok(Some("Wards " + NatToStr(DigitsValue(d1)) + "," + NatToStr(DigitsValue(d2))))
  {
    assert "&" == ['&'];
    PairValues(d1, '&', d2);
  }

  /** A list (or extracted numbers) with a digit before a comma is kept as
      written after `Wards `; without one the label goes to the converter. */
  lemma ListConverted(kind: UnitType, data: string, reportingUnit: string, converter: string -> Result<string>)
    requires kind == Comma || kind == CommaHyphen
    ensures DigitsThenComma(data) ==>
              ConvertWardFormat(Some(ReportingUnit(kind, data)), reportingUnit, converter) == Ok(Some("Wards " + data))
    ensures !DigitsThenComma(data) ==>
              ConvertWardFormat(Some(ReportingUnit(kind, data)), reportingUnit, converter) == Converted(converter, reportingUnit)
  {
  }

  /** `d1,d2` has a digit before a comma. */
  lemma ListHasDigitComma(d1: string, d2: string)
    requires d1 != [] && AllDigits(d1)
    ensures DigitsThenComma(d1 + "," + d2)
  {
    var t := d1 + "," + d2;
    assert IsDigit(t[|d1| - 1]) && t[|d1|] == ',';
  }

  /** A label without digits is `unmatched` and goes to the converter,
      unless it has a comma and a hyphen on one line: then there are no
      numbers to extract and it raises. */
  lemma NoDigitLabel(ward: string, converter: string -> Result<string>)
    requires NoDigits(ward) && !IsTotals(ward)
    ensures HasCommaHyphen(ward) ==> ProcessReportingUnitString(ward).Err?
    ensures !HasCommaHyphen(ward) ==> ProcessReportingUnitString(ward) == Ok(Some(ReportingUnit(Unmatched, ward)))
    ensures !HasCommaHyphen(ward) ==>
              ConvertWardFormat(Some(ReportingUnit(Unmatched, ward)), ward, converter) == Converted(converter, ward)
  {
    NoDigitsNoNumbers(ward);
  }

  /** A run of digits, a hyphen and another run of digits is one range. */
  lemma TokensRangeAt(s: string, i: nat, j: nat, k: nat)
    requires i < j && j + 1 < k <= |s| && s[j] == '-'
    requires forall t :: i <= t < j ==> IsDigit(s[t])
    requires forall t :: j + 1 <= t < k ==> IsDigit(s[t])
    requires k < |s| ==> !IsDigit(s[k])
    ensures AllDigits(s[i..j]) && AllDigits(s[j + 1..k])
    ensures Tokens(s, i) == [Range(DigitsValue(s[i..j]), DigitsValue(s[j + 1..k]))] + Tokens(s, k)
  {
    DigitRunEndAt(s, i, j);
    DigitRunEndAt(s, j + 1, k);
    TokensRangeStep(s, i, j, k);
  }

  lemma TokensRangeStep(s: string, i: nat, j: nat, k: nat)
    requires i < j && j + 1 < k <= |s| && s[j] == '-'
    requires DigitRunEnd(s, i) == j && DigitRunEnd(s, j + 1) == k
    ensures AllDigits(s[i..j]) && AllDigits(s[j + 1..k])
    ensures Tokens(s, i) == [Range(DigitsValue(s[i..j]), DigitsValue(s[j + 1..k]))] + Tokens(s, k)
  {
    assert IsDigit(s[i]) && IsDigit(s[j + 1]);
  }

  /** A run of digits not followed by a hyphen is one number. */
  lemma TokensLoneAt(s: string, i: nat, j: nat)
    requires i < j <= |s|
    requires forall t :: i <= t < j ==> IsDigit(s[t])
    requires j < |s| ==> !IsDigit(s[j]) && s[j] != '-'
    ensures AllDigits(s[i..j])
    ensures Tokens(s, i) == [Lone(DigitsValue(s[i..j]))] + Tokens(s, j)
  {
    DigitRunEndAt(s, i, j);
  }

  /** `','.join` of a list puts the first number before the rest. */
  lemma NumberListCons(n: nat, ns: seq<nat>)
    requires ns != []
    ensures NumberList([n] + ns) == NatToStr(n) + "," + NumberList(ns)
  {
    var strs := seq(|ns|, k requires 0 <= k < |ns| => NatToStr(ns[k]));
    var all := seq(|ns| + 1, k requires 0 <= k < |ns| + 1 => NatToStr(([n] + ns)[k]));
    assert all == [NatToStr(n)] + strs;
    JoinCons(NatToStr(n), strs, ",");
  }

  /** The matches of the docstring's example. */
  lemma TokensExample(s: string)
    requires s == "foo bar bazz 1-3,5-7,9"
    ensures Tokens(s, 0) == [Range(1, 3), Range(5, 7), Lone(9)]
  {
    TokensExampleNumbers(s);
    ExamplePrefix(s);
    TokensSkip(s, 0, 13);
  }

  /** A one-character slice holding a digit has that digit's value. */
  lemma OneDigitValue(s: string, i: nat)
    requires i < |s| && IsDigit(s[i])
    ensures AllDigits(s[i..i + 1]) && DigitsValue(s[i..i + 1]) == DigitValue(s[i])
  {
    var t := s[i..i + 1];
    assert t[..0] == [] && t[0] == s[i];
  }

  /** The three matches of the docstring's example. */
  lemma TokensExampleNumbers(s: string)
    requires s == "foo bar bazz 1-3,5-7,9"
    ensures Tokens(s, 13) == [Range(1, 3), Range(5, 7), Lone(9)]
  {
    TokensExampleTail(s);
    TokensExampleFirst(s);
    assert s[16] == ',';
    TokensSkip(s, 16, 17);
  }

  /** The last match of the docstring's example. */
  lemma TokensExampleLast(s: string)
    requires s == "foo bar bazz 1-3,5-7,9"
    ensures Tokens(s, 21) == [Lone(9)]
  {
    assert s[21] == '9';
    OneDigitValue(s, 21);
    TokensLoneAt(s, 21, 22);
  }

  /** The first match of the docstring's example. */
  lemma TokensExampleFirst(s: string)
    requires s == "foo bar bazz 1-3,5-7,9"
    ensures Tokens(s, 13) == [Range(1, 3)] + Tokens(s, 16)
  {
    assert s[13] == '1' && s[14] == '-' && s[15] == '3' && s[16] == ',';
    OneDigitValue(s, 13);
    OneDigitValue(s, 15);
    TokensRangeAt(s, 13, 14, 16);
  }

  /** The last two matches of the docstring's example. */
  lemma TokensExampleTail(s: string)
    requires s == "foo bar bazz 1-3,5-7,9"
    ensures Tokens(s, 17) == [Range(5, 7), Lone(9)]
  {
    TokensExampleLast(s);
    assert s[17] == '5' && s[18] == '-' && s[19] == '7' && s[20] == ',';
    OneDigitValue(s, 17);
    OneDigitValue(s, 19);
    TokensRangeAt(s, 17, 18, 20);
    TokensSkip(s, 20, 21);
  }

  /** The words before the numbers of the docstring's example. */
  lemma ExamplePrefix(s: string)
    requires s == "foo bar bazz 1-3,5-7,9"
    ensures forall k :: 0 <= k < 13 ==> !IsDigit(s[k])
  {
    var p := "foo bar bazz ";
    assert DigitFreeFrom(p, 0) by {
      assert DigitFreeFrom(p, 7);
    }
    DigitFreeNoDigits(p, 0);
    assert forall k :: 0 <= k < 13 ==> s[k] == p[k];
  }

  /** The example of the source's own docstring: ranges are expanded and
      single numbers kept, in order. */
  lemma ExtractNumbersExample(text: string)
    requires text == "foo bar bazz 1-3,5-7,9"
    ensures ExtractedNumbers(text) == Some("1,2,3,5,6,7,9")
  {
    TokensExample(text);
    var ts := [Range(1, 3), Range(5, 7), Lone(9)];
    var ns := [1, 2, 3, 5, 6, 7, 9];
    assert Numbers(ts) == ns by {
      assert Interval(1, 3) == [1, 2, 3] && Interval(5, 7) == [5, 6, 7];
      assert ts[..2][..1] == [Range(1, 3)] && ts[..2][..1][..0] == [];
      assert Numbers(ts[..2][..1]) == [1, 2, 3];
      assert Numbers(ts[..2]) == [1, 2, 3, 5, 6, 7];
    }
    NumberListExample(ns);
  }

  lemma NumberListExample(ns: seq<nat>)
    requires ns == [1, 2, 3, 5, 6, 7, 9]
    ensures NumberList(ns) == "1,2,3,5,6,7,9"
  {
    assert NatToStr(1) == "1" && NatToStr(2) == "2" && NatToStr(3) == "3" && NatToStr(5) == "5";
    assert NatToStr(6) == "6" && NatToStr(7) == "7" && NatToStr(9) == "9";
    var l9: seq<nat> := [9];
    assert NumberList(l9) == "9";
    var l7 := [7] + l9;
    NumberListCons(7, l9);
    var l6 := [6] + l7;
    NumberListCons(6, l7);
    var l5 := [5] + l6;
    NumberListCons(5, l6);
    var l3 := [3] + l5;
    NumberListCons(3, l5);
    var l2 := [2] + l3;
    NumberListCons(2, l3);
    NumberListCons(1, l2);
    assert [1] + l2 == ns;
  }

  /** The docstring's example is a comma-hyphen label and becomes
      `Wards 1,2,3,5,6,7,9`. */
  lemma CommaHyphenExample(ward: string, converter: string -> Result<string>)
    requires ward == "foo bar bazz 1-3,5-7,9"
    ensures ProcessReportingUnitString(ward) == Ok(Some(ReportingUnit(CommaHyphen, "1,2,3,5,6,7,9")))
    ensures ConvertWardFormat(Some(ReportingUnit(CommaHyphen, "1,2,3,5,6,7,9")), ward, converter)
         == Ok(Some("Wards " + "1,2,3,5,6,7,9"))
  {
    assert !IsTotals(ward) by {
      assert |ward| == 22;
    }
    assert HasCommaHyphen(ward) by {
      assert LineSpan(ward, 14, 16, '-', ',');
    }
    ExtractNumbersExample(ward);
    var data := "1,2,3,5,6,7,9";
    assert IsDigit(data[0]) && data[1] == ',';
    assert DigitsThenComma(data);
    ListConverted(CommaHyphen, "1,2,3,5,6,7,9", ward, converter);
  }

  /** A list with a digit before its first comma is kept as written. */
  lemma CommaConverted(d1: string, d2: string, reportingUnit: string, converter: string -> Result<string>)
    requires d1 != [] && AllDigits(d1)
    ensures ConvertWardFormat(Some(ReportingUnit(Comma, d1 + "," + d2)), reportingUnit, converter)
         == Ok(Some("Wards " + d1 + "," + d2))
  {
    ListHasDigitComma(d1, d2);
    ListConverted(Comma, d1 + "," + d2, reportingUnit, converter);
    assert "Wards " + (d1 + "," + d2) == "Wards " + d1 + "," + d2;
  }

  // ---------------------------------------------------------------------------
  // `ConvertRow` and `ConvertWardStrings`: the label split at `Ward`

  /** Where a Python slice bound `i` falls in `s`: a negative bound counts
      from the end; both are clamped to the text. */
  function SliceIndex(s: string, i: int): (k: nat)
    ensures k <= |s|
  {
    if i < 0 then (if |s| + i < 0 then 0 else |s| + i) else if i > |s| then |s| else i
  }

  /** `pos = row.find('Ward')` used as a slice bound: the first `Ward`, or,
      when there is none, `-1`, which cuts before the last character. */
  function WardSplit(row: string): (k: nat)
    ensures k <= |row|
    ensures Contains(row, "Ward") ==> OccursAt(row, "Ward", k) && forall j :: 0 <= j < k ==> !OccursAt(row, "Ward", j)
    ensures !Contains(row, "Ward") ==> k == if row == [] then 0 else |row| - 1
  {
    SliceIndex(row, Find(row, "Ward"))
  }

  /** `ConvertRow`: the municipality name, the label before `Ward`,
      stripped. */
  function ConvertRow(row: string): (name: string)
    ensures name == Strip(row[..WardSplit(row)])
  {
    Strip(row[..SliceIndex(row, Find(row, "Ward"))])
  }

  /** `ConvertWardStrings`: the label from `Ward` on, looked up in the ward
      mapping; a suffix the mapping lacks raises. */
  function ConvertWardStrings(wardMappings: map<string, string>, row: string): (r: Result<string>)
    ensures r.Ok? <==> row[WardSplit(row)..] in wardMappings
    ensures r.Ok? ==> r.value == wardMappings[row[WardSplit(row)..]]
  {
    var subrow := row[SliceIndex(row, Find(row, "Ward"))..];
    if subrow in wardMappings then Ok(wardMappings[subrow]) else Err(RaisedException("not in dictionary"))
  }

  /** A label `name Ward...` whose name has no `Ward` in it: the name is the
      municipality and the rest is the key looked up in the mapping. */
  lemma LabelSplit(name: string, wards: string, wardMappings: map<string, string>)
    requires !Contains(name, "Ward")
    requires |wards| >= 4 && wards[..4] == "Ward"
    ensures ConvertRow(name + " " + wards) == Strip(name)
    ensures ConvertWardStrings(wardMappings, name + " " + wards)
         == if wards in wardMappings then Ok(wardMappings[wards]) else Err(RaisedException("not in dictionary"))
  {
    var row := name + " " + wards;
    var n := |name|;
    assert row[n] == ' ';
    assert OccursAt(row, "Ward", n + 1) by {
      assert row[n + 1..n + 5] == wards[..4];
    }
    forall j | 0 <= j < n + 1 ensures !OccursAt(row, "Ward", j) {
      if j + 4 <= n {
        if OccursAt(row, "Ward", j) {
          assert row[j..j + 4] == name[j..j + 4];
          ContainsAt(name, "Ward", j);
        }
      } else if j + 4 <= |row| {
        assert row[j..j + 4][n - j] == ' ' != "Ward"[n - j];
      }
    }
    assert Find(row, "Ward") == n + 1;
    assert row[..n + 1] == name + " ";
    StripTrailingSpace(name);
    assert row[n + 1..] == wards;
  }

  /** `ConvertRow` as written: a label without `Ward` loses its last
      character, since `find` gives -1 and `row[:-1]` drops it. */
  lemma ConvertRowWithoutWard(row: string)
    requires row != [] && !Contains(row, "Ward")
    ensures ConvertRow(row) == Strip(row[..|row| - 1])
    ensures ConvertWardStrings(map[], row).Err?
  {
  }

  /** The label `Adams` gives the name `Adam`. */
  lemma ConvertRowDropsLetter(row: string)
    requires row == "Adams"
    ensures ConvertRow(row) == "Adam"
  {
    assert !OccursAt(row, "Ward", 0) by { assert row[0] != 'W'; }
    assert !OccursAt(row, "Ward", 1) by { assert row[1] != 'W'; }
    assert Find(row, "Ward") == -1;
    assert row[..4] == "Adam";
    StripNoSpace("Adam");
  }

  /** `ConvertRow` as evidently intended: the whole label when it has no
      `Ward`. */
  function MunicipalityName(row: string): (name: string)
  {
    if Contains(row, "Ward") then Strip(row[..Find(row, "Ward")]) else Strip(row)
  }

  /** The intended name agrees with `ConvertRow` whenever the label has a
      `Ward`, and keeps a label without one whole. */
  lemma MunicipalityNameAgrees(row: string)
    ensures Contains(row, "Ward") ==> MunicipalityName(row) == ConvertRow(row)
    ensures !Contains(row, "Ward") ==> MunicipalityName(row) == Strip(row)
  {
    if Contains(row, "Ward") {
      assert Find(row, "Ward") >= 0;
    }
  }

  // ---------------------------------------------------------------------------
  // County and municipality names

  /** `TitleCaseReportingCounty`: the two names with a space or a period are
      spelled out; any other has its words joined by `_` and is title-cased. */
  function TitleCaseReportingCounty(cnty: string): (r: string)
  {
    if cnty == "La Crosse" || cnty == "LA CROSSE" then "La_Crosse"
    else if cnty == "St. Croix" || cnty == "ST.CROIX" then "St_Croix"
    else Title(Join(Words(cnty), "_"))
  }

  lemma {:induction false} JoinWithoutSpaces(parts: seq<string>, sep: string)
    requires forall i :: 0 <= i < |parts| ==> forall k :: 0 <= k < |parts[i]| ==> !IsSpace(parts[i][k])
    requires forall k :: 0 <= k < |sep| ==> !IsSpace(sep[k])
    ensures forall k :: 0 <= k < |Join(parts, sep)| ==> !IsSpace(Join(parts, sep)[k])
    decreases |parts|
  {
    if |parts| > 1 {
      JoinWithoutSpaces(parts[1..], sep);
      var j := Join(parts[1..], sep);
      var all := parts[0] + sep + j;
      assert forall k :: 0 <= k < |all| ==>
        all[k] == (if k < |parts[0]| then parts[0][k] else if k < |parts[0]| + |sep| then sep[k - |parts[0]|] else j[k - |parts[0]| - |sep|]);
    }
  }

  /** The two spelled-out names have no whitespace. */
  lemma SpecialCountyWithoutSpaces(s: string)
    requires s == "La_Crosse" || s == "St_Croix"
    ensures forall k :: 0 <= k < |s| ==> !IsSpace(s[k])
  {
    assert forall k :: 0 <= k < |s| ==> s[k] == '_' || IsLetter(s[k]);
  }

  /** The county name has no whitespace left. */
  lemma CountyWithoutSpaces(cnty: string)
    ensures forall k :: 0 <= k < |TitleCaseReportingCounty(cnty)| ==> !IsSpace(TitleCaseReportingCounty(cnty)[k])
  {
    var r := TitleCaseReportingCounty(cnty);
    if r == "La_Crosse" || r == "St_Croix" {
      SpecialCountyWithoutSpaces(r);
    } else {
      var j := Join(Words(cnty), "_");
      JoinWithoutSpaces(Words(cnty), "_");
      TitleShape(j);
    }
  }

  /** The spelled-out names are normalised already. */
  lemma LaCrosseFixed(s: string)
    requires s == "La_Crosse"
    ensures TitleCaseReportingCounty(s) == s
  {
    assert s != "La Crosse" && s != "LA CROSSE" && s != "St. Croix" && s != "ST.CROIX" by {
      assert s[2] == '_';
    }
    SpecialCountyWithoutSpaces(s);
    WordsSingle(s);
    assert Join([s], "_") == s;
    TitleLaCrosse(s);
  }

  lemma TitleLaCrosse(s: string)
    requires s == "La_Crosse"
    ensures Title(s) == s
  {
    TitleChars(s);
    var t := Title(s);
    assert t[0] == 'L' && t[1] == 'a' && t[2] == '_' && t[3] == 'C' && t[4] == 'r';
    assert t[5] == 'o' && t[6] == 's' && t[7] == 's' && t[8] == 'e';
    assert forall i :: 0 <= i < |s| ==> t[i] == s[i];
  }

  lemma StCroixFixed(s: string)
    requires s == "St_Croix"
    ensures TitleCaseReportingCounty(s) == s
  {
    assert s != "La Crosse" && s != "LA CROSSE" && s != "St. Croix" && s != "ST.CROIX" by {
      assert s[2] == '_';
    }
    SpecialCountyWithoutSpaces(s);
    WordsSingle(s);
    assert Join([s], "_") == s;
    TitleStCroix(s);
  }

  lemma TitleStCroix(s: string)
    requires s == "St_Croix"
    ensures Title(s) == s
  {
    TitleChars(s);
    var t := Title(s);
    assert t[0] == 'S' && t[1] == 't' && t[2] == '_' && t[3] == 'C';
    assert t[4] == 'r' && t[5] == 'o' && t[6] == 'i' && t[7] == 'x';
    assert forall i :: 0 <= i < |s| ==> t[i] == s[i];
  }

  /** A title-cased name never starts with two capitals. */
  lemma TitleSecondLower(s: string)
    ensures |Title(s)| >= 2 && IsLetter(Title(s)[0]) && IsLetter(Title(s)[1]) ==> !IsUpper(Title(s)[1])
  {
    TitleShape(s);
  }

  /** Normalising a county name twice gives the same name. */
  lemma CountyIdempotent(cnty: string)
    ensures TitleCaseReportingCounty(TitleCaseReportingCounty(cnty)) == TitleCaseReportingCounty(cnty)
  {
    var r := TitleCaseReportingCounty(cnty);
    if r == "La_Crosse" {
      LaCrosseFixed(r);
    } else if r == "St_Croix" {
      StCroixFixed(r);
    } else {
      var j := Join(Words(cnty), "_");
      CountyWithoutSpaces(cnty);
      TitleIdempotent(j);
      TitleSecondLower(j);
      assert r != "ST.CROIX";
      assert r != "La Crosse" && r != "LA CROSSE" && r != "St. Croix" by {
        assert |r| < 8 || IsSpace(r[2]) || IsSpace(r[3]) || !IsSpace(r[2]);
      }
      if r == [] {
        assert Words(r) == [];
      } else {
        WordsSingle(r);
      }
    }
  }

  /** `TitleCaseReportingMcd`: the designation for the CTV code followed by
      the title-cased name; any other code raises. */
  function TitleCaseReportingMcd(ctv: string, mcdName: string): (r: Result<string>)
    ensures r.Ok? <==> ctv == "C" || ctv == "T" || ctv == "V"
    ensures ctv == "C" ==> r == Ok("City of " + Title(mcdName))
    ensures ctv == "T" ==> r == Ok("Town of " + Title(mcdName))
    ensures ctv == "V" ==> r == Ok("Village of " + Title(mcdName))
    ensures r.Err? ==> r.error == RaisedException("Unexpected CTV option")
  {
    if ctv == "C" then Ok("City of " + Title(mcdName))
    else if ctv == "T" then Ok("Town of " + Title(mcdName))
    else if ctv == "V" then Ok("Village of " + Title(mcdName))
    else Err(RaisedException("Unexpected CTV option"))
  }

  /** The designation tells the CTV code apart and the rest of the text is
      the title-cased name: two municipalities get the same designation
      text only when their codes and title-cased names agree. */
  lemma TitleCaseReportingMcdInjective(ctv1: string, name1: string, ctv2: string, name2: string)
    requires TitleCaseReportingMcd(ctv1, name1).Ok? && TitleCaseReportingMcd(ctv2, name2).Ok?
    requires TitleCaseReportingMcd(ctv1, name1) == TitleCaseReportingMcd(ctv2, name2)
    ensures ctv1 == ctv2 && Title(name1) == Title(name2)
  {
    var d1 := if ctv1 == "C" then "City of " else if ctv1 == "T" then "Town of " else "Village of ";
    var d2 := if ctv2 == "C" then "City of " else if ctv2 == "T" then "Town of " else "Village of ";
    var r := TitleCaseReportingMcd(ctv1, name1).value;
    assert r == d1 + Title(name1) && r == d2 + Title(name2);
    assert r[0] == d1[0] && r[0] == d2[0];
    assert ctv1 == ctv2;
    assert Title(name1) == r[|d1|..] == Title(name2);
  }

  // ---------------------------------------------------------------------------
  // FIPS codes

  /** `partial_fips`: the county FIPS code followed by the county
      subdivision code as a number zero-padded to 5 places; a code that is
      not a number raises ValueError. */
  function PartialFips(cntyFips: string, cousubfp: string): (r: Result<string>)
  {
    match ParseInt(cousubfp)
    case None => Err(ValueError(cousubfp))
    case Some(n) => Ok(cntyFips + ZFill(IntToStr(n), 5))
  }

  /** A subdivision code read as a number comes back as five digits of the
      same value after the county code (more digits when it needs them). */
  lemma PartialFipsDigits(cntyFips: string, n: nat)
    ensures PartialFips(cntyFips, NatToStr(n)).Ok?
    ensures var code := PartialFips(cntyFips, NatToStr(n)).value;
            && |code| >= |cntyFips| + 5 && code[..|cntyFips|] == cntyFips
            && AllDigits(code[|cntyFips|..]) && DigitsValue(code[|cntyFips|..]) == n
            && (n < 100000 ==> |code| == |cntyFips| + 5)
  {
    ParseIntToStr(n);
    assert IntToStr(n) == NatToStr(n);
    var z := ZFill(NatToStr(n), 5);
    ZFillDigits(NatToStr(n), 5);
    NatToStrValue(n);
    var code := cntyFips + z;
    assert code[..|cntyFips|] == cntyFips && code[|cntyFips|..] == z;
    if n < 100000 {
      assert Pow10(5) == 100000;
      NatToStrFits(n, 5);
    }
  }

  /** A ward's FIPS code: the municipality code and the ward padded to four
      places with zeros. */
  function WardFips(mcdFips: string, ward: string): string
  {
    mcdFips + RJust(ward, 4, '0')
  }

  /** The wards of a `Wards` value: the comma list after the word when the
      value is exactly two words, else the whole value. */
  function WardList(wards: string): (ws: seq<string>)
    ensures |ws| >= 1
  {
    var words := Words(wards);
    if |words| == 2 then Split(words[1], ',') else [wards]
  }

  /** What `ExpandFips` returns: the `|`-joined FIPS codes of the wards, or
      `None` when there are no wards or no municipality code. */
  function ExpandedFips(wards: Option<string>, mcdFips: string): (r: Option<string>)
    ensures r.None? <==> !Truthy(wards) || mcdFips == "0"
  {
    if Truthy(wards) && mcdFips != "0" then
      var ws := WardList(wards.value);
      Some(Join(seq(|ws|, i requires 0 <= i < |ws| => WardFips(mcdFips, ws[i])), "|"))
    else None
  }

  /** `ExpandFips`, with the loop of its list comprehension. */
  method ExpandFips(wards: Option<string>, mcdFips: string) returns (r: Option<string>)
    ensures r == ExpandedFips(wards, mcdFips)
  {
    if Truthy(wards) && mcdFips != "0" {
      var wardlist := WardList(wards.value);
      var fipslist: seq<string> := [];
      var i := 0;
      while i < |wardlist|
        invariant 0 <= i <= |wardlist|
        invariant |fipslist| == i
        invariant forall k :: 0 <= k < i ==> fipslist[k] == WardFips(mcdFips, wardlist[k])
      {
        fipslist := fipslist + [WardFips(mcdFips, wardlist[i])];
        i := i + 1;
      }
      assert fipslist == seq(|wardlist|, k requires 0 <= k < |wardlist| => WardFips(mcdFips, wardlist[k]));
      r := Some(Join(fipslist, "|"));
    } else {
      r := None;
    }
  }

  /** `Wards a,b,...` expands to one code per ward, in order: splitting the
      result at `|` gives back each ward's code. */
  lemma ExpandFipsCodes(mcdFips: string, ws: seq<string>)
    requires mcdFips != "0" && '|' !in mcdFips
    requires |ws| >= 1
    requires forall i :: 0 <= i < |ws| ==> ws[i] != [] && ',' !in ws[i] && '|' !in ws[i]
    requires forall i :: 0 <= i < |ws| ==> forall k :: 0 <= k < |ws[i]| ==> !IsSpace(ws[i][k])
    ensures ExpandedFips(Some("Wards " + Join(ws, ",")), mcdFips).Some?
    ensures Split(ExpandedFips(Some("Wards " + Join(ws, ",")), mcdFips).value, '|')
         == seq(|ws|, i requires 0 <= i < |ws| => WardFips(mcdFips, ws[i]))
  {
    var list := Join(ws, ",");
    JoinWithoutSpaces(ws, ",");
    assert list != [] by {
      JoinNonEmpty(ws, ",");
    }
    var all := "Wards " + list;
    assert all == "Wards" + " " + list;
    WordsPair("Wards", list);
    SplitJoin(ws, ',');
    assert WardList(all) == ws;
    var codes := seq(|ws|, i requires 0 <= i < |ws| => WardFips(mcdFips, ws[i]));
    forall i | 0 <= i < |codes| ensures '|' !in codes[i] {
      var pad := RJust(ws[i], 4, '0');
      assert '|' !in pad by {
        assert forall k :: 0 <= k < |pad| ==> pad[k] == '0' || pad[k] in ws[i];
      }
      assert forall k :: 0 <= k < |codes[i]| ==> codes[i][k] in mcdFips || codes[i][k] in pad;
    }
    SplitJoin(codes, '|');
  }

  lemma {:induction false} JoinNonEmpty(parts: seq<string>, sep: string)
    requires |parts| >= 1 && parts[0] != []
    ensures Join(parts, sep) != []
  {
    if |parts| > 1 {
      assert |Join(parts, sep)| >= |parts[0]|;
    }
  }

  /** A ward of at most four digits gets a four-digit code of the same
      value. */
  lemma WardFipsDigits(mcdFips: string, ward: string)
    requires AllDigits(ward) && |ward| <= 4
    ensures var code := WardFips(mcdFips, ward);
            && |code| == |mcdFips| + 4 && code[..|mcdFips|] == mcdFips
            && AllDigits(code[|mcdFips|..]) && DigitsValue(code[|mcdFips|..]) == DigitsValue(ward)
  {
    var pad := RJust(ward, 4, '0');
    var code := mcdFips + pad;
    assert code[..|mcdFips|] == mcdFips && code[|mcdFips|..] == pad;
    if |ward| < 4 {
      LeadingZerosValue(4 - |ward|, ward);
    }
  }

  // ---------------------------------------------------------------------------
  // `compute_ward`

  /** `compute_ward`: the last space-separated field (the only one, when
      there is one) zero-filled to four places. */
  function ComputeWard(ward: string): string
  {
    var lst := Split(ward, ' ');
    if |lst| == 1 then ZFill(lst[0], 4) else ZFill(lst[|lst| - 1], 4)
  }

  /** For fields joined by blanks the ward is the last field, zero-filled:
      a number keeps its value and gets at least four digits. */
  lemma ComputeWardLastField(fields: seq<string>)
    requires |fields| >= 1 && forall i :: 0 <= i < |fields| ==> ' ' !in fields[i]
    ensures ComputeWard(Join(fields, " ")) == ZFill(fields[|fields| - 1], 4)
    ensures AllDigits(fields[|fields| - 1]) ==>
              var w := ComputeWard(Join(fields, " "));
              |w| >= 4 && AllDigits(w) && DigitsValue(w) == DigitsValue(fields[|fields| - 1])
  {
    var last := fields[|fields| - 1];
    var j := Join(fields, " ");
    assert Split(j, ' ') == fields by {
      assert " " == [' '];
      SplitJoin(fields, ' ');
    }
    assert ComputeWard(j) == ZFill(last, 4);
    if AllDigits(last) {
      ZFillDigits(last, 4);
    }
  }
}
