/** The small helpers of `edatools.py`: half-open date-time ranges, blank
    tests over a cell that is a number, a string or None, the clean-up a
    phone number gets before the phone library sees it, and the edits of a
    data frame's column order. A frame is modelled by its column names
    only; the column data plays no part in any of these edits. */
module EdaTools {
  import opened Wrappers
  import opened Text

  // ---------------------------------------------------------------------------
  // Date-time ranges

  /** A naive `datetime` to the second. */
  datatype DateTime = DateTime(year: nat, month: nat, day: nat, hour: nat, minute: nat, second: nat)
  {
    /** The field values a `datetime` accepts (any day up to 31). */
    predicate Valid()
    {
      1 <= year <= 9999 && 1 <= month <= 12 && 1 <= day <= 31 && hour < 24 && minute < 60 && second < 60
    }
  }

  /** `a < b` on date-times: the first field that differs decides. */
  predicate Before(a: DateTime, b: DateTime)
  {
    a.year < b.year || (a.year == b.year &&
    (a.month < b.month || (a.month == b.month &&
    (a.day < b.day || (a.day == b.day &&
    (a.hour < b.hour || (a.hour == b.hour &&
    (a.minute < b.minute || (a.minute == b.minute && a.second < b.second)))))))))
  }

  /** `<` on date-times is a strict total order. */
  lemma BeforeOrder(a: DateTime, b: DateTime, c: DateTime)
    ensures !Before(a, a)
    ensures Before(a, b) && Before(b, c) ==> Before(a, c)
    ensures a == b || Before(a, b) || Before(b, a)
    ensures !(Before(a, b) && Before(b, a))
  {
  }

  /** `str(n)` padded with zeros to `width` places, as `%02d` and `%04d`. */
  function Padded(n: nat, width: nat): string
  {
    ZFill(NatToStr(n), width)
  }

  /** `str(dt)`: `YYYY-MM-DD HH:MM:SS`. */
  function DateTimeString(dt: DateTime): string
  {
    Padded(dt.year, 4) + "-" + Padded(dt.month, 2) + "-" + Padded(dt.day, 2) + " "
      + Padded(dt.hour, 2) + ":" + Padded(dt.minute, 2) + ":" + Padded(dt.second, 2)
  }

  lemma PaddedLength(n: nat, width: nat)
    requires 1 <= width && n < Pow10(width)
    ensures |Padded(n, width)| == width
  {
    NatToStrFits(n, width);
  }

  /** Every valid date-time is written with 19 characters. */
  lemma DateTimeStringLength(dt: DateTime)
    requires dt.Valid()
    ensures |DateTimeString(dt)| == 19
  {
    assert Pow10(2) == 100;
    assert Pow10(4) == 10000;
    PaddedLength(dt.year, 4);
    PaddedLength(dt.month, 2);
    PaddedLength(dt.day, 2);
    PaddedLength(dt.hour, 2);
    PaddedLength(dt.minute, 2);
    PaddedLength(dt.second, 2);
  }

  /** `DatetimeRange(dt1, dt2)`: the two ends of a half-open range. */
  datatype DatetimeRange = DatetimeRange(start: DateTime, end: DateTime)
  {
    /** `dt in range`: `dt1 <= dt < dt2`. */
    predicate Contains(dt: DateTime)
    {
      !Before(dt, start) && Before(dt, end)
    }

    /** `range.print()`: `[dt1 - dt2)`. */
    function Print(): string
    {
      "[" + DateTimeString(start) + " - " + DateTimeString(end) + ")"
    }
  }

  /** The start belongs to a non-empty range and the end never does; a range
      whose end is not after its start holds nothing. */
  lemma RangeEnds(r: DatetimeRange, dt: DateTime)
    ensures r.Contains(r.start) <==> Before(r.start, r.end)
    ensures !r.Contains(r.end)
    ensures !Before(r.start, r.end) ==> !r.Contains(dt)
  {
    BeforeOrder(r.start, r.start, r.start);
    BeforeOrder(r.end, r.end, r.end);
    BeforeOrder(dt, r.start, r.end);
    BeforeOrder(r.start, dt, r.end);
    BeforeOrder(r.start, r.end, dt);
  }

  /** Two adjacent ranges `[a - b)` and `[b - c)` split `[a - c)`: every
      date-time of the whole lies in exactly one of them. */
  lemma AdjacentRanges(a: DateTime, b: DateTime, c: DateTime, dt: DateTime)
    requires !Before(b, a) && !Before(c, b)
    ensures DatetimeRange(a, c).Contains(dt) <==> DatetimeRange(a, b).Contains(dt) || DatetimeRange(b, c).Contains(dt)
    ensures !(DatetimeRange(a, b).Contains(dt) && DatetimeRange(b, c).Contains(dt))
  {
    BeforeOrder(dt, b, c);
    BeforeOrder(dt, a, b);
    BeforeOrder(a, b, dt);
    BeforeOrder(b, dt, c);
    BeforeOrder(dt, b, a);
    BeforeOrder(a, dt, b);
  }

  /** The printed range holds both ends, each as written by `str`. */
  lemma PrintParts(r: DatetimeRange)
    requires r.start.Valid() && r.end.Valid()
    ensures |r.Print()| == 43
    ensures r.Print()[0] == '[' && r.Print()[20..23] == " - " && r.Print()[42] == ')'
    ensures r.Print()[1..20] == DateTimeString(r.start) && r.Print()[23..42] == DateTimeString(r.end)
  {
    DateTimeStringLength(r.start);
    DateTimeStringLength(r.end);
    BracketParts(DateTimeString(r.start), DateTimeString(r.end));
  }

  lemma BracketParts(a: string, b: string)
    requires |a| == 19 && |b| == 19
    ensures var p := "[" + a + " - " + b + ")";
            && |p| == 43 && p[0] == '[' && p[20..23] == " - " && p[42] == ')'
            && p[1..20] == a && p[23..42] == b
  {
    var p := "[" + a + " - " + b + ")";
    assert forall k :: 0 <= k < 19 ==> p[1 + k] == a[k] && p[23 + k] == b[k];
  }

  // ---------------------------------------------------------------------------
  // Blank cells

  /** A cell as these helpers meet it: an `int` or `float` (its value plays
      no part), a `str`, or `None`. */
  datatype Value = Num | Str(s: string) | NoneValue

  /** `IsBlank`: true for any number; else `not s or s.isspace()`. */
  predicate IsBlank(v: Value)
  {
    match v
    case Num => true
    case Str(s) => s == [] || IsSpaceStr(s)
    case NoneValue => true
  }

  /** `IsNotBlank`: false for any number; else `s and not s.isspace()`. */
  predicate IsNotBlank(v: Value)
  {
    match v
    case Num => false
    case Str(s) => s != [] && !IsSpaceStr(s)
    case NoneValue => false
  }

  lemma {:induction false} TrimStartEmpty(s: string)
    ensures TrimStart(s) == [] <==> forall i :: 0 <= i < |s| ==> IsSpace(s[i])
    decreases |s|
  {
    if s != [] {
      TrimStartEmpty(s[1..]);
      if IsSpace(s[0]) {
        assert forall i :: 1 <= i < |s| ==> s[i] == s[1..][i - 1];
      }
    }
  }

  /** A string is blank exactly when nothing is left of it once stripped;
      `IsNotBlank` is its negation on strings, and numbers and `None` are
      blank and never not-blank. */
  lemma BlankMeansStripsToEmpty(v: Value)
    ensures v.Str? ==> (IsBlank(v) <==> Strip(v.s) == [])
    ensures v.Str? ==> (IsNotBlank(v) <==> !IsBlank(v))
    ensures !v.Str? ==> IsBlank(v) && !IsNotBlank(v)
  {
    if v.Str? {
      TrimStartEmpty(v.s);
      var t := TrimStart(v.s);
      if t != [] {
        assert !IsSpace(t[0]);
        assert TrimEnd(t) != [];
      }
    }
  }

  // ---------------------------------------------------------------------------
  // Phone numbers

  /** The clean-up of a stripped number before it is parsed: while it is
      longer than ten characters, drop a leading `+`, then a leading `1`,
      then cut it to ten characters when it ends in `0`. */
  function PhoneCandidate(s: string): (r: string)
  {
    var p := if |s| > 10 && s[0] == '+' then s[1..] else s;
    var q := if |p| > 10 && p[0] == '1' then p[1..] else p;
    if |q| > 10 && q[|q| - 1] == '0' then q[..10] else q
  }

  /** `ParsePhoneUS(phone_number)`: numbers, `'None'`, `'nan'` and blank
      strings give `''`; `None` fails the type assertion; any other string
      is stripped, cleaned up and handed to the phone library, which is the
      parameter `formatPhone` (it parses with region US, formats, and gives
      `''` for what it cannot parse). */
  function ParsePhoneUS(v: Value, formatPhone: string -> string): (r: Result<string>)
    ensures r.Err? <==> v.NoneValue?
    ensures v.Num? || (v.Str? && (v.s == "None" || v.s == "nan" || IsBlank(v))) ==> r == Ok("")
    ensures v.Str? && v.s != "None" && v.s != "nan" && !IsBlank(v) ==> r == Ok(formatPhone(PhoneCandidate(Strip(v.s))))
  {
    match v
    case Num => Ok("")
    case NoneValue => Err(AssertionError)
    case Str(s) =>
      if s == "None" || s == "nan" || IsBlank(v) then Ok("")
      else Ok(formatPhone(PhoneCandidate(Strip(s))))
  }

  /** What the library sees is a piece of the stripped number: at most two
      leading characters dropped, and nothing dropped at all from a number
      of at most ten characters. */
  lemma PhoneCandidatePiece(s: string)
    ensures exists i, j :: 0 <= i <= 2 && i <= j <= |s| && PhoneCandidate(s) == s[i..j]
    ensures |s| <= 10 ==> PhoneCandidate(s) == s
    ensures |PhoneCandidate(s)| <= |s|
  {
    var p := if |s| > 10 && s[0] == '+' then s[1..] else s;
    var i1 := if |s| > 10 && s[0] == '+' then 1 else 0;
    assert p == s[i1..];
    var q := if |p| > 10 && p[0] == '1' then p[1..] else p;
    var i2 := if |p| > 10 && p[0] == '1' then i1 + 1 else i1;
    assert q == s[i2..];
    if |q| > 10 && q[|q| - 1] == '0' {
      assert PhoneCandidate(s) == s[i2..i2 + 10];
    } else {
      assert PhoneCandidate(s) == s[i2..|s|];
    }
  }

  /** A ten-digit number comes out bare whether it is written plain, with
      the country code `1`, or with `+1`. */
  lemma PhoneCountryCode(d: string)
    requires |d| == 10
    ensures PhoneCandidate(d) == d
    ensures PhoneCandidate("1" + d) == d
    ensures PhoneCandidate("+1" + d) == d
  {
    assert ("1" + d)[1..] == d;
    assert ("+1" + d)[1..] == "1" + d;
  }

  /** A number longer than ten characters that ends in `0` after the prefix
      is dropped is cut to its first ten characters. */
  lemma PhoneTrailingZero(d: string)
    requires |d| == 10 && d[0] != '+' && d[0] != '1'
    ensures PhoneCandidate(d + "0") == d
  {
    assert (d + "0")[..10] == d;
  }

  // ---------------------------------------------------------------------------
  // Column order

  /** No column name appears twice. */
  predicate Distinct(cols: seq<string>)
  {
    forall i, j :: 0 <= i < j < |cols| ==> cols[i] != cols[j]
  }

  /** `list(cols).index(c)`: where `c` first appears. */
  function IndexOf(cols: seq<string>, c: string): (i: nat)
    requires c in cols
    ensures i < |cols| && cols[i] == c
    ensures forall j :: 0 <= j < i ==> cols[j] != c
  {
    if cols[0] == c then 0 else 1 + IndexOf(cols[1..], c)
  }

  function InsertAt(cols: seq<string>, i: nat, c: string): (r: seq<string>)
    requires i <= |cols|
  {
    cols[..i] + [c] + cols[i..]
  }

  function RemoveAt(cols: seq<string>, i: nat): (r: seq<string>)
    requires i < |cols|
  {
    cols[..i] + cols[i + 1..]
  }

  /** Inserting a name puts it at the given place, keeps the others in
      order, and removing it again gives the columns back. */
  lemma InsertAtShape(cols: seq<string>, i: nat, c: string)
    requires i <= |cols| && Distinct(cols) && c !in cols
    ensures |InsertAt(cols, i, c)| == |cols| + 1
    ensures Distinct(InsertAt(cols, i, c))
    ensures IndexOf(InsertAt(cols, i, c), c) == i
    ensures RemoveAt(InsertAt(cols, i, c), i) == cols
    ensures forall d :: d in InsertAt(cols, i, c) <==> d in cols || d == c
  {
    var r := InsertAt(cols, i, c);
    assert forall k :: 0 <= k < |r| ==> r[k] == if k < i then cols[k] else if k == i then c else cols[k - 1];
    assert r[..i] == cols[..i] && r[i + 1..] == cols[i..];
  }

  /** Removing a name keeps the others in order and drops only that name. */
  lemma RemoveAtShape(cols: seq<string>, i: nat)
    requires i < |cols| && Distinct(cols)
    ensures |RemoveAt(cols, i)| == |cols| - 1
    ensures Distinct(RemoveAt(cols, i))
    ensures forall d :: d in RemoveAt(cols, i) <==> d in cols && d != cols[i]
    ensures InsertAt(RemoveAt(cols, i), i, cols[i]) == cols
  {
    var r := RemoveAt(cols, i);
    assert forall k :: 0 <= k < |r| ==> r[k] == if k < i then cols[k] else cols[k + 1];
    assert r[..i] == cols[..i] && r[i..] == cols[i + 1..];
    forall d | d in cols && d != cols[i] ensures d in r {
      var k :| 0 <= k < |cols| && cols[k] == d;
      assert r[if k < i then k else k - 1] == d;
    }
  }

  /** A data frame as far as its column order goes. */
  class Frame {
    var columns: seq<string>

    /** pandas keeps column names distinct here: `insert` refuses a
        duplicate and the other edits only move names. */
    predicate Valid()
      reads this
    {
      Distinct(columns)
    }

    constructor(columns: seq<string>)
      requires Distinct(columns)
      ensures this.columns == columns && Valid()
    {
      this.columns := columns;
    }

    /** `df.insert(loc, name, data)`: a name already present is a
        ValueError and a place outside `0..len(columns)` an IndexError,
        both leaving the frame as it was. */
    method Insert(loc: int, name: string) returns (err: Option<Error>)
      requires Valid()
      modifies this
      ensures Valid()
      ensures name in old(columns) ==> err == Some(ValueError("cannot insert " + name + ", already exists")) && columns == old(columns)
      ensures name !in old(columns) && !(0 <= loc <= |old(columns)|) ==> err == Some(IndexError) && columns == old(columns)
      ensures name !in old(columns) && 0 <= loc <= |old(columns)| ==> err == None && columns == InsertAt(old(columns), loc, name)
    {
      if name in columns {
        err := Some(ValueError("cannot insert " + name + ", already exists"));
      } else if !(0 <= loc <= |columns|) {
        err := Some(IndexError);
      } else {
        InsertAtShape(columns, loc, name);
        columns := InsertAt(columns, loc, name);
        err := None;
      }
    }

    /** `df.pop(name)`: takes the column out; a missing name is a KeyError. */
    method Pop(name: string) returns (r: Result<string>)
      requires Valid()
      modifies this
      ensures Valid()
      ensures name !in old(columns) ==> r == Err(KeyError(name)) && columns == old(columns)
      ensures name in old(columns) ==> r == Ok(name) && columns == RemoveAt(old(columns), IndexOf(old(columns), name))
    {
      if name !in columns {
        r := Err(KeyError(name));
      } else {
        RemoveAtShape(columns, IndexOf(columns, name));
        columns := RemoveAt(columns, IndexOf(columns, name));
        r := Ok(name);
      }
    }

    /** `df[name] = data`: a new name is added as the last column; an
        existing one keeps its place. */
    method SetColumn(name: string)
      requires Valid()
      modifies this
      ensures Valid()
      ensures columns == if name in old(columns) then old(columns) else old(columns) + [name]
    {
      if name !in columns {
        columns := columns + [name];
      }
    }
  }

  /** `InsertDataAtIndex(df, index, name, data)`: `df.insert` at `index`. */
  method InsertDataAtIndex(df: Frame, index: int, name: string) returns (err: Option<Error>)
    requires df.Valid()
    modifies df
    ensures df.Valid()
    ensures err == None <==> name !in old(df.columns) && 0 <= index <= |old(df.columns)|
    ensures err == None ==> df.columns == InsertAt(old(df.columns), index, name)
    ensures err != None ==> df.columns == old(df.columns)
  {
    err := df.Insert(index, name);
  }

  /** `InsertDataAtLabel(df, new_label, next_to_label, data, insert_after)`:
      inserts at one past `next_to_label` when `insert_after`, else at one
      before it; a missing `next_to_label` is the ValueError of
      `list.index`. */
  method InsertDataAtLabel(df: Frame, newLabel: string, nextTo: string, insertAfter: bool) returns (err: Option<Error>)
    requires df.Valid()
    modifies df
    ensures df.Valid()
    ensures nextTo !in old(df.columns) ==> err == Some(ValueError(nextTo + " is not in list")) && df.columns == old(df.columns)
    ensures nextTo in old(df.columns) ==>
              var ndx := IndexOf(old(df.columns), nextTo) + (if insertAfter then 1 else -1);
              && (err == None <==> newLabel !in old(df.columns) && 0 <= ndx)
              && (err == None ==> df.columns == InsertAt(old(df.columns), ndx, newLabel))
              && (err != None ==> df.columns == old(df.columns))
  {
    if nextTo !in df.columns {
      err := Some(ValueError(nextTo + " is not in list"));
      return;
    }
    var ndx;
    if insertAfter {
      ndx := IndexOf(df.columns, nextTo) + 1;
    } else {
      ndx := IndexOf(df.columns, nextTo) - 1;
    }
    err := df.Insert(ndx, newLabel);
  }

  /** Inserting after a column puts the new one immediately to its right;
      inserting "before" puts it one further left, so that the column that
      was before `next_to_label` now sits between them. */
  lemma InsertNextTo(cols: seq<string>, newLabel: string, nextTo: string)
    requires Distinct(cols) && nextTo in cols && newLabel !in cols
    ensures var after := InsertAt(cols, IndexOf(cols, nextTo) + 1, newLabel);
            IndexOf(after, newLabel) == IndexOf(after, nextTo) + 1
    ensures IndexOf(cols, nextTo) >= 1 ==>
              var before := InsertAt(cols, IndexOf(cols, nextTo) - 1, newLabel);
              IndexOf(before, nextTo) == IndexOf(before, newLabel) + 2
  {
    var i := IndexOf(cols, nextTo);
    InsertAtIndexOf(cols, i + 1, newLabel, i);
    if i >= 1 {
      InsertAtIndexOf(cols, i - 1, newLabel, i);
    }
  }

  /** Inserting at the place of `next_to_label` itself, rather than one
      left of it, puts the new column immediately to its left, as the
      function's description promises. */
  lemma InsertBeforeAdjacent(cols: seq<string>, newLabel: string, nextTo: string)
    requires Distinct(cols) && nextTo in cols && newLabel !in cols
    ensures var before := InsertAt(cols, IndexOf(cols, nextTo), newLabel);
            IndexOf(before, nextTo) == IndexOf(before, newLabel) + 1
            && RemoveAt(before, IndexOf(before, newLabel)) == cols
  {
    var i := IndexOf(cols, nextTo);
    InsertAtIndexOf(cols, i, newLabel, i);
    InsertAtShape(cols, i, newLabel);
  }

  /** After an insert at `p` the new name is found at `p`, and an old name
      at `k` is found at `k`, or at `k + 1` when it was at or past `p`. */
  lemma InsertAtIndexOf(cols: seq<string>, p: nat, c: string, k: nat)
    requires p <= |cols| && Distinct(cols) && c !in cols && k < |cols|
    ensures IndexOf(InsertAt(cols, p, c), c) == p
    ensures IndexOf(InsertAt(cols, p, c), cols[k]) == if k < p then k else k + 1
  {
    var r := InsertAt(cols, p, c);
    assert Distinct(r) by { InsertAtShape(cols, p, c); }
    var m := if k < p then k else k + 1;
    assert r[p] == c && r[m] == cols[k];
    DistinctIndex(r, p);
    DistinctIndex(r, m);
  }

  /** In distinct columns the name at a place is found at that place. */
  lemma DistinctIndex(cols: seq<string>, i: nat)
    requires Distinct(cols) && i < |cols|
    ensures IndexOf(cols, cols[i]) == i
  {
  }

  /** `ColumnMove(df, col_name, new_index)`: pops the column and inserts it
      at `new_index`; a place the shorter frame does not have is an
      IndexError raised after the pop, so the column is lost. */
  method ColumnMove(df: Frame, col: string, newIndex: int) returns (err: Option<Error>)
    requires df.Valid()
    modifies df
    ensures df.Valid()
    ensures col !in old(df.columns) ==> err == Some(KeyError(col)) && df.columns == old(df.columns)
    ensures col in old(df.columns) ==>
              var rest := RemoveAt(old(df.columns), IndexOf(old(df.columns), col));
              && (0 <= newIndex <= |rest| ==> err == None && df.columns == InsertAt(rest, newIndex, col))
              && (!(0 <= newIndex <= |rest|) ==> err == Some(IndexError) && df.columns == rest)
  {
    var popped := df.Pop(col);
    if popped.Err? {
      err := Some(popped.error);
      return;
    }
    ghost var rest := df.columns;
    assert col !in rest;
    err := df.Insert(newIndex, popped.value);
  }

  /** A moved column ends at its new place, the frame keeps its length, and
      the other columns keep their order. */
  lemma MoveShape(cols: seq<string>, col: string, newIndex: nat)
    requires Distinct(cols) && col in cols && newIndex < |cols|
    ensures var moved := InsertAt(RemoveAt(cols, IndexOf(cols, col)), newIndex, col);
            && |moved| == |cols| && IndexOf(moved, col) == newIndex
            && RemoveAt(moved, newIndex) == RemoveAt(cols, IndexOf(cols, col))
            && Distinct(moved)
  {
    var rest := RemoveAt(cols, IndexOf(cols, col));
    RemoveAtShape(cols, IndexOf(cols, col));
    InsertAtShape(rest, newIndex, col);
  }

  /** `ColumnMoveToEnd(df, col_name)`: pops the column and adds it back as
      the last one. */
  method ColumnMoveToEnd(df: Frame, col: string) returns (err: Option<Error>)
    requires df.Valid()
    modifies df
    ensures df.Valid()
    ensures col !in old(df.columns) ==> err == Some(KeyError(col)) && df.columns == old(df.columns)
    ensures col in old(df.columns) ==> err == None && df.columns == RemoveAt(old(df.columns), IndexOf(old(df.columns), col)) + [col]
  {
    var popped := df.Pop(col);
    if popped.Err? {
      err := Some(popped.error);
      return;
    }
    assert col !in df.columns;
    df.SetColumn(popped.value);
    err := None;
  }

  /** After the move the column is last, and without it the frame reads as
      before without it. */
  lemma MoveToEndShape(cols: seq<string>, col: string)
    requires Distinct(cols) && col in cols
    ensures var moved := RemoveAt(cols, IndexOf(cols, col)) + [col];
            && |moved| == |cols| && moved[|moved| - 1] == col && Distinct(moved)
            && RemoveAt(moved, |moved| - 1) == RemoveAt(cols, IndexOf(cols, col))
  {
    var rest := RemoveAt(cols, IndexOf(cols, col));
    assert |rest| == |cols| - 1 && Distinct(rest) && col !in rest by {
      RemoveAtShape(cols, IndexOf(cols, col));
    }
    var moved := rest + [col];
    assert moved[..|moved| - 1] == rest;
    assert Distinct(moved) by {
      forall a, b | 0 <= a < b < |moved| ensures moved[a] != moved[b] {
        if b == |rest| {
          assert moved[a] == rest[a];
        } else {
          assert moved[a] == rest[a] && moved[b] == rest[b];
        }
      }
    }
  }

  /** The column list of `ColumnSwap`: `col1` where `col2` was and the
      other way round. */
  function Swapped(cols: seq<string>, col1: string, col2: string): (r: seq<string>)
  {
    seq(|cols|, i requires 0 <= i < |cols| => if cols[i] == col2 then col1 else if cols[i] == col1 then col2 else cols[i])
  }

  /** `ColumnSwap(df, col1, col2)`: the frame selected by the swapped list;
      selecting a name the frame lacks is a KeyError, which happens when just
      one of the two is present. */
  function ColumnSwap(cols: seq<string>, col1: string, col2: string): (r: Result<seq<string>>)
    ensures r.Ok? <==> (col1 in cols <==> col2 in cols)
    ensures r.Ok? ==> |r.value| == |cols|
    ensures r.Ok? ==> forall i :: 0 <= i < |cols| && cols[i] == col1 ==> r.value[i] == col2
    ensures r.Ok? ==> forall i :: 0 <= i < |cols| && cols[i] == col2 ==> r.value[i] == col1
    ensures r.Ok? ==> forall i :: 0 <= i < |cols| && cols[i] != col1 && cols[i] != col2 ==> r.value[i] == cols[i]
  {
    var sw := Swapped(cols, col1, col2);
    if col2 in cols && col1 !in cols then Err(KeyError(col1))
    else if col1 in cols && col2 !in cols then Err(KeyError(col2))
    else
      assert forall i :: 0 <= i < |sw| ==> sw[i] in cols;
      Ok(sw)
  }

  /** Swapping twice gives the original order back. */
  lemma SwapTwice(cols: seq<string>, col1: string, col2: string)
    requires ColumnSwap(cols, col1, col2).Ok?
    ensures ColumnSwap(ColumnSwap(cols, col1, col2).value, col1, col2) == Ok(cols)
  {
    var once := ColumnSwap(cols, col1, col2).value;
    assert col1 in once <==> col2 in once by {
      if col1 in cols {
        var i :| 0 <= i < |cols| && cols[i] == col1;
        var j :| 0 <= j < |cols| && cols[j] == col2;
        assert once[i] == col2 && once[j] == col1;
      } else {
        assert col1 !in once && col2 !in once;
      }
    }
    assert ColumnSwap(once, col1, col2).Ok?;
    var twice := ColumnSwap(once, col1, col2).value;
    assert forall i :: 0 <= i < |cols| ==> twice[i] == cols[i];
    assert twice == cols;
  }

  /** Swapping keeps the columns distinct and holds the same names. */
  lemma SwapPermutes(cols: seq<string>, col1: string, col2: string)
    requires Distinct(cols) && ColumnSwap(cols, col1, col2).Ok?
    ensures Distinct(ColumnSwap(cols, col1, col2).value)
    ensures forall d :: d in ColumnSwap(cols, col1, col2).value <==> d in cols
  {
    var sw := ColumnSwap(cols, col1, col2).value;
    forall d | d in cols ensures d in sw {
      var i :| 0 <= i < |cols| && cols[i] == d;
      if d == col1 {
        var j :| 0 <= j < |cols| && cols[j] == col2;
        assert sw[j] == d;
      } else if d == col2 {
        var j :| 0 <= j < |cols| && cols[j] == col1;
        assert sw[j] == d;
      } else {
        assert sw[i] == d;
      }
    }
  }
}
