/** The helpers of `empowerJSONhelpers.py` that differ from those of
    `edatools.py`: its phone clean-up does not strip and does not drop a
    `+`, and its `InsertDataAtLabel` appends the column and moves it on a
    copy of the column list. Its date-time range, blank tests and
    `InsertDataAtIndex` are the same code as in `edatools.py` and are the
    members of `EdaTools`. */
module JsonHelpers {
  import opened Wrappers
  import opened Text
  import opened EdaTools

  /** The clean-up before the phone library: while longer than ten
      characters, drop a leading `1`, then cut to ten characters when it
      ends in `0`. */
  function PhoneCandidate(s: string): (r: string)
  {
    var q := if |s| > 10 && s[0] == '1' then s[1..] else s;
    if |q| > 10 && q[|q| - 1] == '0' then q[..10] else q
  }

  /** `ParsePhoneUS(phone_number)`: numbers, `'None'`, `'nan'` and blank
      strings give `''`; `None` fails the type assertion; any other string
      is cleaned up, unstripped, and handed to the phone library
      (`formatPhone`: parse with region US and national format, `''` when
      it cannot parse). */
  function ParsePhoneUS(v: Value, formatPhone: string -> string): (r: Result<string>)
    ensures r.Err? <==> v.NoneValue?
    ensures v.Num? || (v.Str? && (v.s == "None" || v.s == "nan" || IsBlank(v))) ==> r == Ok("")
    ensures v.Str? && v.s != "None" && v.s != "nan" && !IsBlank(v) ==> r == Ok(formatPhone(PhoneCandidate(v.s)))
  {
    match v
    case Num => Ok("")
    case NoneValue => Err(AssertionError)
    case Str(s) =>
      if s == "None" || s == "nan" || IsBlank(v) then Ok("")
      else Ok(formatPhone(PhoneCandidate(s)))
  }

  /** Apart from the leading `+`, both clean-ups treat the text they get
      alike (the one in `edatools.py` gets it stripped). */
  lemma PhoneCandidatesAgree(s: string)
    requires |s| <= 10 || s[0] != '+'
    ensures PhoneCandidate(s) == EdaTools.PhoneCandidate(s)
  {
  }

  /** A `+1` number keeps its `+1` here, where `edatools.py` drops it. */
  lemma PlusOneKept(d: string)
    requires |d| == 10 && d[9] != '0'
    ensures PhoneCandidate("+1" + d) == "+1" + d
    ensures EdaTools.PhoneCandidate("+1" + d) == d
  {
    EdaTools.PhoneCountryCode(d);
    var t := "+1" + d;
    assert t[0] == '+' && t[|t| - 1] == d[9];
  }

  /** A ten-character number, with or without the leading `1`, reaches the
      library as those ten characters. */
  lemma PhoneCountryCode(d: string)
    requires |d| == 10
    ensures PhoneCandidate(d) == d
    ensures PhoneCandidate("1" + d) == d
  {
    assert ("1" + d)[1..] == d;
  }

  /** `list.insert(i, x)` for `i >= 0`: past the end it appends. */
  function ListInsert(cols: seq<string>, i: nat, c: string): (r: seq<string>)
  {
    if i >= |cols| then cols + [c] else InsertAt(cols, i, c)
  }

  /** `InsertDataAtLabel(df, new_label, next_to_label, data)`: sets the new
      column on `df` (appended when new), then returns the frame selected by
      a copy of the column list whose last name is moved to one past
      `next_to_label`; a missing `next_to_label` is the ValueError of
      `list.index`, raised after `df` has the column. */
  method InsertDataAtLabel(df: Frame, newLabel: string, nextTo: string) returns (r: Result<seq<string>>)
    requires df.Valid()
    modifies df
    ensures df.Valid()
    ensures df.columns == if newLabel in old(df.columns) then old(df.columns) else old(df.columns) + [newLabel]
    ensures nextTo !in df.columns ==> r == Err(ValueError(nextTo + " is not in list"))
    ensures nextTo in df.columns ==>
              r == Ok(ListInsert(df.columns[..|df.columns| - 1], IndexOf(df.columns, nextTo) + 1, df.columns[|df.columns| - 1]))
  {
    df.SetColumn(newLabel);
    var col := df.columns;
    if nextTo !in col {
      r := Err(ValueError(nextTo + " is not in list"));
      return;
    }
    var ndx := IndexOf(col, nextTo) + 1;
    var last := col[|col| - 1];
    col := col[..|col| - 1];
    r := Ok(ListInsert(col, ndx, last));
  }

  /** For a new column next to an existing one, the returned order is the
      old order with the new column immediately right of `next_to_label`. */
  lemma InsertNextToNew(cols: seq<string>, newLabel: string, nextTo: string)
    requires Distinct(cols) && nextTo in cols && newLabel !in cols
    ensures var all := cols + [newLabel];
            ListInsert(all[..|all| - 1], IndexOf(all, nextTo) + 1, all[|all| - 1]) == InsertAt(cols, IndexOf(cols, nextTo) + 1, newLabel)
    ensures var r := InsertAt(cols, IndexOf(cols, nextTo) + 1, newLabel);
            && |r| == |cols| + 1 && IndexOf(r, newLabel) == IndexOf(r, nextTo) + 1
            && RemoveAt(r, IndexOf(r, newLabel)) == cols
  {
    var all := cols + [newLabel];
    assert all[..|all| - 1] == cols;
    var i := IndexOf(cols, nextTo);
    assert IndexOf(all, nextTo) == i by {
      assert all[i] == nextTo;
      assert forall j :: 0 <= j < i ==> all[j] == cols[j];
      IndexOfAt(all, nextTo, i);
    }
    InsertAtIndexOf(cols, i + 1, newLabel, i);
    var r := InsertAt(cols, i + 1, newLabel);
    assert |r| == |cols| + 1 && RemoveAt(r, i + 1) == cols by { InsertAtShape(cols, i + 1, newLabel); }
  }

  /** The first place of a name, from a witness place with no earlier one. */
  lemma IndexOfAt(cols: seq<string>, c: string, i: nat)
    requires i < |cols| && cols[i] == c && forall j :: 0 <= j < i ==> cols[j] != c
    ensures IndexOf(cols, c) == i
  {
  }

  /** When `new_label` is already a column nothing is appended, so the
      column that happens to be last is the one moved: it lands immediately
      right of `next_to_label`, and the other columns keep their order. */
  lemma InsertExistingMovesLast(cols: seq<string>, nextTo: string)
    requires Distinct(cols) && nextTo in cols && nextTo != cols[|cols| - 1]
    ensures var init, last := cols[..|cols| - 1], cols[|cols| - 1];
            var r := ListInsert(init, IndexOf(cols, nextTo) + 1, last);
            && |r| == |cols| && IndexOf(r, last) == IndexOf(r, nextTo) + 1
            && RemoveAt(r, IndexOf(r, last)) == init
  {
    var init, last := cols[..|cols| - 1], cols[|cols| - 1];
    var i := IndexOf(cols, nextTo);
    assert Distinct(init) && last !in init && i < |init| && init[i] == nextTo by {
      assert cols == init + [last];
    }
    if i + 1 < |init| {
      var r := InsertAt(init, i + 1, last);
      assert IndexOf(r, last) == i + 1 && IndexOf(r, nextTo) == i by {
        InsertAtIndexOf(init, i + 1, last, i);
      }
      assert |r| == |cols| && RemoveAt(r, i + 1) == init by {
        InsertAtShape(init, i + 1, last);
      }
    } else {
      assert ListInsert(init, i + 1, last) == cols;
      assert IndexOf(cols, last) == |cols| - 1 by {
        DistinctIndex(cols, |cols| - 1);
      }
      assert RemoveAt(cols, |cols| - 1) == init;
    }
  }
}
