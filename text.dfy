/** The parts of Python's `str` that the modelled code relies on: character
    classes, `lower`, `title`, `strip`, `split`, `join`, `find`, `in`, `zfill`,
    `rjust`, and conversion between integers and decimal text. Only the ASCII
    behaviour of these operations is modelled. */
module Text {
  import opened Wrappers

  // ---------------------------------------------------------------------------
  // Character classes

  predicate IsDigit(c: char) { '0' <= c <= '9' }
  predicate IsUpper(c: char) { 'A' <= c <= 'Z' }
  predicate IsLower(c: char) { 'a' <= c <= 'z' }
  predicate IsLetter(c: char) { IsUpper(c) || IsLower(c) }
  predicate IsAlnum(c: char) { IsLetter(c) || IsDigit(c) }

  /** Python's whitespace in the ASCII range: space, \t \n \v \f \r and the
      four separators \x1c..\x1f. */
  predicate IsSpace(c: char)
  {
    c == ' ' || ('\t' <= c <= '\r') || ('\U{1c}' <= c <= '\U{1f}')
  }

  predicate AllDigits(s: string) { forall i :: 0 <= i < |s| ==> IsDigit(s[i]) }

  function Lower(c: char): (r: char)
    ensures !IsUpper(r)
    ensures IsLetter(c) <==> IsLetter(r)
    ensures IsDigit(c) <==> IsDigit(r)
  {
    if IsUpper(c) then (c as int + 32) as char else c
  }

  function Upper(c: char): (r: char)
    ensures !IsLower(r)
    ensures IsLetter(c) <==> IsLetter(r)
  {
    if IsLower(c) then (c as int - 32) as char else c
  }

  /** `s.lower()` */
  function LowerStr(s: string): (r: string)
    ensures |r| == |s|
    ensures forall i :: 0 <= i < |s| ==> r[i] == Lower(s[i])
  {
    seq(|s|, i requires 0 <= i < |s| => Lower(s[i]))
  }

  /** `"".join(filter(str.isalnum, s))` */
  function KeepAlnum(s: string): (r: string)
    ensures forall i :: 0 <= i < |r| ==> IsAlnum(r[i])
    ensures |r| <= |s|
  {
    if s == [] then []
    else (if IsAlnum(s[0]) then [s[0]] else []) + KeepAlnum(s[1..])
  }

  /** `"".join(filter(str.isalnum, s)).lower()`: the normal form under which
      answers and option labels are compared. */
  function AlnumLower(s: string): (r: string)
    ensures forall i :: 0 <= i < |r| ==> IsAlnum(r[i]) && !IsUpper(r[i])
  {
    LowerStr(KeepAlnum(s))
  }

  // ---------------------------------------------------------------------------
  // Searching

  /** `p` occurs in `s` starting at index `j`. */
  predicate OccursAt(s: string, p: string, j: int)
  {
    0 <= j && j + |p| <= |s| && s[j..j + |p|] == p
  }

  /** `s.find(p, i)`: the first index at or after `i` where `p` occurs, or -1. */
  function FindFrom(s: string, p: string, i: nat): (r: int)
    requires i <= |s|
    ensures r == -1 || (i <= r && OccursAt(s, p, r))
    ensures forall j :: i <= j && (r == -1 || j < r) ==> !OccursAt(s, p, j)
    decreases |s| - i
  {
    if i + |p| > |s| then -1
    else if s[i..i + |p|] == p then i
    else FindFrom(s, p, i + 1)
  }

  /** `s.find(p)` */
  function Find(s: string, p: string): (r: int)
    ensures r == -1 || OccursAt(s, p, r)
    ensures forall j :: 0 <= j && (r == -1 || j < r) ==> !OccursAt(s, p, j)
  {
    FindFrom(s, p, 0)
  }

  /** `p in s` for strings */
  predicate Contains(s: string, p: string)
  {
    Find(s, p) >= 0
  }

  lemma ContainsAt(s: string, p: string, j: int)
    requires OccursAt(s, p, j)
    ensures Contains(s, p)
  {
  }

  // ---------------------------------------------------------------------------
  // Whitespace

  function TrimStart(s: string): (r: string)
    ensures |r| <= |s|
    ensures r == s[|s| - |r|..]
    ensures r == [] || !IsSpace(r[0])
    ensures forall i :: 0 <= i < |s| - |r| ==> IsSpace(s[i])
  {
    if s != [] && IsSpace(s[0]) then TrimStart(s[1..]) else s
  }

  function TrimEnd(s: string): (r: string)
    ensures |r| <= |s|
    ensures r == s[..|r|]
    ensures r == [] || !IsSpace(r[|r| - 1])
    ensures forall i :: |r| <= i < |s| ==> IsSpace(s[i])
  {
    if s != [] && IsSpace(s[|s| - 1]) then TrimEnd(s[..|s| - 1]) else s
  }

  /** `s.strip()` */
  function Strip(s: string): (r: string)
    ensures r == [] || (!IsSpace(r[0]) && !IsSpace(r[|r| - 1]))
    ensures |r| <= |s|
  {
    TrimEnd(TrimStart(s))
  }

  lemma {:induction false} TrimStartAppendSpace(s: string)
    ensures TrimStart(s + " ") == if TrimStart(s) == [] then [] else TrimStart(s) + " "
    decreases |s|
  {
    var t := s + " ";
    if s == [] {
      assert t == " " && t[1..] == [];
      assert TrimStart(t) == TrimStart(t[1..]);
    } else if IsSpace(s[0]) {
      assert t[0] == s[0] && t[1..] == s[1..] + " ";
      assert TrimStart(t) == TrimStart(s[1..] + " ");
      assert TrimStart(s) == TrimStart(s[1..]);
      TrimStartAppendSpace(s[1..]);
    } else {
      assert t[0] == s[0];
      assert TrimStart(t) == t && TrimStart(s) == s;
    }
  }

  /** A trailing blank does not change the stripped text. */
  lemma StripTrailingSpace(s: string)
    ensures Strip(s + " ") == Strip(s)
  {
    TrimStartAppendSpace(s);
    var t := TrimStart(s);
    if t != [] {
      assert (t + " ")[..|t|] == t;
    }
  }

  /** `s.isspace()`: non-empty and whitespace only. */
  predicate IsSpaceStr(s: string)
  {
    s != [] && forall i :: 0 <= i < |s| ==> IsSpace(s[i])
  }

  lemma StripNoSpace(s: string)
    requires forall i :: 0 <= i < |s| ==> !IsSpace(s[i])
    ensures Strip(s) == s
  {
  }

  /** Python truthiness of an optional string: present and not empty. */
  predicate Truthy(s: Option<string>) { s.Some? && s.value != "" }

  // ---------------------------------------------------------------------------
  // Splitting and joining

  /** `s.split(sep)` for a one-character separator: keeps empty fields. */
  function Split(s: string, sep: char): (r: seq<string>)
    ensures |r| >= 1
    ensures forall i :: 0 <= i < |r| ==> sep !in r[i]
    decreases |s|
  {
    if s == [] then [""]
    else
      var rest := Split(s[1..], sep);
      if s[0] == sep then [""] + rest
      else [[s[0]] + rest[0]] + rest[1..]
  }

  /** `sep.join(parts)` */
  function Join(parts: seq<string>, sep: string): string
  {
    if |parts| == 0 then ""
    else if |parts| == 1 then parts[0]
    else parts[0] + sep + Join(parts[1..], sep)
  }

  lemma JoinCons(p: string, rest: seq<string>, sep: string)
    requires |rest| >= 1
    ensures Join([p] + rest, sep) == p + sep + Join(rest, sep)
  {
    assert ([p] + rest)[1..] == rest;
  }

  lemma {:induction false} JoinAppend(a: seq<string>, b: seq<string>, sep: string)
    requires |a| >= 1 && |b| >= 1
    ensures Join(a + b, sep) == Join(a, sep) + sep + Join(b, sep)
    decreases |a|
  {
    if |a| == 1 {
      assert a + b == [a[0]] + b;
      JoinCons(a[0], b, sep);
    } else {
      JoinAppend(a[1..], b, sep);
      assert a + b == [a[0]] + (a[1..] + b);
      JoinCons(a[0], a[1..] + b, sep);
      assert a == [a[0]] + a[1..];
      JoinCons(a[0], a[1..], sep);
    }
  }

  /** Joining the fields of a split with the same separator restores the text. */
  lemma {:induction false} JoinSplit(s: string, sep: char)
    ensures Join(Split(s, sep), [sep]) == s
    decreases |s|
  {
    if s != [] {
      var rest := Split(s[1..], sep);
      JoinSplit(s[1..], sep);
      if s[0] == sep {
        JoinCons("", rest, [sep]);
        assert s == [sep] + s[1..];
      } else if |rest| == 1 {
        assert Split(s, sep) == [[s[0]] + rest[0]];
        assert s == [s[0]] + s[1..];
      } else {
        var tail := rest[1..];
        assert rest == [rest[0]] + tail;
        JoinCons(rest[0], tail, [sep]);
        JoinCons([s[0]] + rest[0], tail, [sep]);
        assert s == [s[0]] + s[1..];
      }
    }
  }

  lemma {:induction false} SplitPrefix(p: string, t: string, sep: char)
    requires sep !in p
    ensures Split(p + t, sep) == [p + Split(t, sep)[0]] + Split(t, sep)[1..]
    decreases |p|
  {
    if p != [] {
      assert (p + t)[1..] == p[1..] + t;
      assert p[0] != sep by { assert p[0] in p; }
      SplitPrefix(p[1..], t, sep);
      assert [p[0]] + (p[1..] + Split(t, sep)[0]) == p + Split(t, sep)[0];
    } else {
      var r := Split(t, sep);
      assert p + t == t && p + r[0] == r[0];
      assert r == [r[0]] + r[1..];
    }
  }

  /** Splitting a join restores the fields when no field holds the separator. */
  lemma {:induction false} SplitJoin(parts: seq<string>, sep: char)
    requires |parts| >= 1
    requires forall i :: 0 <= i < |parts| ==> sep !in parts[i]
    ensures Split(Join(parts, [sep]), sep) == parts
    decreases |parts|
  {
    SplitPrefix(parts[0], "", sep);
    assert parts[0] + "" == parts[0];
    if |parts| > 1 {
      var tail := parts[1..];
      SplitJoin(tail, sep);
      JoinCons(parts[0], tail, [sep]);
      var j := Join(tail, [sep]);
      assert Join(parts, [sep]) == parts[0] + ([sep] + j);
      SplitPrefix(parts[0], [sep] + j, sep);
      assert ([sep] + j)[1..] == j;
      assert Split([sep] + j, sep) == [""] + tail;
      assert parts == [parts[0]] + tail;
    }
  }

  /** The longest prefix without whitespace. */
  function WordPrefix(s: string): (w: string)
    ensures |w| <= |s|
    ensures s != [] && !IsSpace(s[0]) ==> |w| >= 1
    ensures w == s[..|w|]
    ensures forall i :: 0 <= i < |w| ==> !IsSpace(w[i])
    ensures |w| < |s| ==> IsSpace(s[|w|])
  {
    if s == [] || IsSpace(s[0]) then [] else [s[0]] + WordPrefix(s[1..])
  }

  lemma {:induction false} WordPrefixAll(s: string)
    requires forall i :: 0 <= i < |s| ==> !IsSpace(s[i])
    ensures WordPrefix(s) == s
    decreases |s|
  {
    if s != [] {
      WordPrefixAll(s[1..]);
    }
  }

  lemma {:induction false} WordPrefixBefore(a: string, t: string)
    requires forall i :: 0 <= i < |a| ==> !IsSpace(a[i])
    requires t != [] && IsSpace(t[0])
    ensures WordPrefix(a + t) == a
    decreases |a|
  {
    if a != [] {
      assert (a + t)[1..] == a[1..] + t;
      WordPrefixBefore(a[1..], t);
    }
  }

  /** `s.split()` with no argument: maximal runs of non-whitespace. */
  function Words(s: string): (ws: seq<string>)
    ensures forall i :: 0 <= i < |ws| ==> ws[i] != [] && forall k :: 0 <= k < |ws[i]| ==> !IsSpace(ws[i][k])
    decreases |s|
  {
    if s == [] then []
    else if IsSpace(s[0]) then Words(s[1..])
    else
      var w := WordPrefix(s);
      [w] + Words(s[|w|..])
  }

  /** A text without whitespace is one word. */
  lemma WordsSingle(s: string)
    requires s != [] && forall i :: 0 <= i < |s| ==> !IsSpace(s[i])
    ensures Words(s) == [s]
  {
    WordPrefixAll(s);
    assert s[|s|..] == [];
  }

  /** Two words with one blank between them split into those two words. */
  lemma WordsPair(a: string, b: string)
    requires a != [] && forall i :: 0 <= i < |a| ==> !IsSpace(a[i])
    requires b != [] && forall i :: 0 <= i < |b| ==> !IsSpace(b[i])
    ensures Words(a + " " + b) == [a, b]
  {
    var s := a + " " + b;
    assert s == a + (" " + b);
    WordPrefixBefore(a, " " + b);
    assert s[|a|..] == " " + b;
    assert (" " + b)[1..] == b;
    WordsSingle(b);
  }

  // ---------------------------------------------------------------------------
  // Title case

  /** The case a letter takes in `s.title()`: lower after a letter, upper
      otherwise; other characters are kept. */
  function TitleChar(c: char, afterCased: bool): (r: char)
    ensures IsLetter(r) <==> IsLetter(c)
    ensures !IsLetter(c) ==> r == c
    ensures IsLetter(c) ==> (IsUpper(r) <==> !afterCased)
  {
    if !IsLetter(c) then c else if afterCased then Lower(c) else Upper(c)
  }

  function TitleFrom(s: string, afterCased: bool): (r: string)
    ensures |r| == |s|
    ensures forall i :: 0 <= i < |s| ==> (IsLetter(r[i]) <==> IsLetter(s[i]))
  {
    if s == [] then []
    else [TitleChar(s[0], afterCased)] + TitleFrom(s[1..], IsLetter(s[0]))
  }

  /** `s.title()`: a letter is upper-cased when it does not follow a letter
      and lower-cased when it does; other characters are unchanged. */
  function Title(s: string): (r: string)
    ensures |r| == |s|
  {
    TitleFrom(s, false)
  }

  lemma {:induction false} TitleFromChars(s: string, b: bool)
    ensures forall i :: 0 <= i < |s| ==> TitleFrom(s, b)[i] == TitleChar(s[i], if i == 0 then b else IsLetter(s[i - 1]))
    decreases |s|
  {
    if s != [] {
      TitleFromChars(s[1..], IsLetter(s[0]));
      var r := TitleFrom(s, b);
      assert forall i :: 1 <= i < |s| ==> r[i] == TitleFrom(s[1..], IsLetter(s[0]))[i - 1] && s[i] == s[1..][i - 1];
    }
  }

  /** Each character of `s.title()` is decided by the character and the one
      before it: a letter is lower case after a letter and upper case
      elsewhere, and any other character is kept. */
  lemma TitleChars(s: string)
    ensures forall i :: 0 <= i < |s| ==> Title(s)[i] == TitleChar(s[i], i > 0 && IsLetter(s[i - 1]))
  {
    TitleFromChars(s, false);
    var r := TitleFrom(s, false);
    assert Title(s) == r;
    forall i | 0 <= i < |s| ensures r[i] == TitleChar(s[i], i > 0 && IsLetter(s[i - 1])) {
      assert r[i] == TitleChar(s[i], if i == 0 then false else IsLetter(s[i - 1]));
    }
  }

  /** Title-casing changes only letters, and a letter that follows a letter
      is never upper case. */
  lemma TitleShape(s: string)
    ensures forall i :: 0 <= i < |s| && !IsLetter(s[i]) ==> Title(s)[i] == s[i]
    ensures forall i :: 1 <= i < |s| && IsLetter(s[i - 1]) && IsLetter(s[i]) ==> !IsUpper(Title(s)[i])
  {
    TitleChars(s);
    forall i | 0 <= i < |s| && !IsLetter(s[i]) ensures Title(s)[i] == s[i] {
      assert Title(s)[i] == TitleChar(s[i], i > 0 && IsLetter(s[i - 1]));
    }
    forall i | 1 <= i < |s| && IsLetter(s[i - 1]) && IsLetter(s[i]) ensures !IsUpper(Title(s)[i]) {
      assert Title(s)[i] == TitleChar(s[i], true);
    }
  }

  lemma {:induction false} TitleFromIdempotent(s: string, b: bool)
    ensures TitleFrom(TitleFrom(s, b), b) == TitleFrom(s, b)
    decreases |s|
  {
    if s != [] {
      var t := TitleFrom(s, b);
      TitleFromIdempotent(s[1..], IsLetter(s[0]));
      assert t[1..] == TitleFrom(s[1..], IsLetter(s[0]));
      assert IsLetter(t[0]) == IsLetter(s[0]);
    }
  }

  /** Title-casing is idempotent. */
  lemma TitleIdempotent(s: string)
    ensures Title(Title(s)) == Title(s)
  {
    TitleFromIdempotent(s, false);
  }

  // ---------------------------------------------------------------------------
  // Decimal numbers

  function DigitChar(d: nat): (c: char)
    requires d < 10
    ensures IsDigit(c)
  {
    ('0' as int + d) as char
  }

  function DigitValue(c: char): (d: nat)
    requires IsDigit(c)
    ensures d < 10
  {
    c as int - '0' as int
  }

  /** `str(n)` for a natural number. */
  function NatToStr(n: nat): (r: string)
    ensures |r| >= 1 && AllDigits(r)
    ensures r[0] == '0' ==> n == 0 && |r| == 1
    decreases n
  {
    if n < 10 then [DigitChar(n)] else NatToStr(n / 10) + [DigitChar(n % 10)]
  }

  /** `str(i)` for any integer. */
  function IntToStr(i: int): (r: string)
    ensures |r| >= 1
  {
    if i < 0 then "-" + NatToStr(-i) else NatToStr(i)
  }

  /** The value of a string of decimal digits, leading zeros allowed. */
  function DigitsValue(s: string): nat
    requires AllDigits(s)
  {
    if s == [] then 0 else DigitsValue(s[..|s| - 1]) * 10 + DigitValue(s[|s| - 1])
  }

  /** Reading back the decimal text of a number gives the number. */
  lemma {:induction false} NatToStrValue(n: nat)
    ensures DigitsValue(NatToStr(n)) == n
    decreases n
  {
    if n >= 10 {
      NatToStrValue(n / 10);
      var s := NatToStr(n);
      assert s[..|s| - 1] == NatToStr(n / 10);
    }
  }

  /** `10 ** k` */
  function Pow10(k: nat): nat
  {
    if k == 0 then 1 else 10 * Pow10(k - 1)
  }

  /** A number below `10 ** k` has at most `k` digits. */
  lemma {:induction false} NatToStrFits(n: nat, k: nat)
    requires 1 <= k && n < Pow10(k)
    ensures |NatToStr(n)| <= k
    decreases k
  {
    if n >= 10 {
      NatToStrFits(n / 10, k - 1);
    }
  }

  /** `int(s)` for text: surrounding whitespace, an optional sign and at
      least one digit; anything else is a ValueError (None here). */
  function ParseInt(s: string): Option<int>
  {
    var t := Strip(s);
    if t != [] && (t[0] == '+' || t[0] == '-') then
      if |t| > 1 && AllDigits(t[1..]) then
        var v: int := DigitsValue(t[1..]);
        Some(if t[0] == '-' then -v else v)
      else None
    else if t != [] && AllDigits(t) then Some(DigitsValue(t))
    else None
  }

  /** `int(str(i)) == i` */
  lemma ParseIntToStr(i: int)
    ensures ParseInt(IntToStr(i)) == Some(i)
  {
    var s := IntToStr(i);
    var n: nat := if i < 0 then -i else i;
    NatToStrValue(n);
    StripNoSpace(s);
    if i < 0 {
      assert s[1..] == NatToStr(n);
    }
  }

  // ---------------------------------------------------------------------------
  // Padding

  function Repeat(c: char, n: nat): (r: string)
    ensures |r| == n
    ensures forall i :: 0 <= i < n ==> r[i] == c
  {
    seq(n, _ => c)
  }

  /** `s.rjust(width, fill)` */
  function RJust(s: string, width: int, fill: char): (r: string)
    ensures |s| >= width ==> r == s
    ensures |s| < width ==> |r| == width && r == Repeat(fill, width - |s|) + s
  {
    if |s| >= width then s else Repeat(fill, width - |s|) + s
  }

  /** `s.zfill(width)`: zeros go after a leading sign. */
  function ZFill(s: string, width: int): (r: string)
    ensures |r| == if |s| >= width then |s| else width
  {
    if |s| >= width then s
    else if s != [] && (s[0] == '+' || s[0] == '-') then [s[0]] + Repeat('0', width - |s|) + s[1..]
    else Repeat('0', width - |s|) + s
  }

  lemma {:induction false} LeadingZerosValue(k: nat, s: string)
    requires AllDigits(s)
    ensures AllDigits(Repeat('0', k) + s)
    ensures DigitsValue(Repeat('0', k) + s) == DigitsValue(s)
    decreases |s|
  {
    var z := Repeat('0', k) + s;
    if s == [] {
      assert z == Repeat('0', k);
      ZerosValue(k);
    } else {
      LeadingZerosValue(k, s[..|s| - 1]);
      assert z[..|z| - 1] == Repeat('0', k) + s[..|s| - 1];
    }
  }

  lemma {:induction false} ZerosValue(k: nat)
    ensures DigitsValue(Repeat('0', k)) == 0
    decreases k
  {
    if k > 0 {
      ZerosValue(k - 1);
      assert Repeat('0', k)[..k - 1] == Repeat('0', k - 1);
    }
  }

  /** Zero-filling a digit string keeps it a digit string of the same value. */
  lemma ZFillDigits(s: string, width: int)
    requires AllDigits(s)
    ensures AllDigits(ZFill(s, width)) && DigitsValue(ZFill(s, width)) == DigitsValue(s)
  {
    if |s| < width {
      assert s == [] || IsDigit(s[0]);
      LeadingZerosValue(width - |s|, s);
    }
  }
}
