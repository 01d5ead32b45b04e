/** `ValidateEmail` of `emailtools.py`: `re.match` of the pattern
    `^[a-zA-Z0-9._%+-]+@[a-zA-Z0-9.-]+\.[a-zA-Z]{2,}$`, written out as a
    recogniser. Python's `$` also matches just before a final newline, so
    an address followed by one `\n` is accepted; the model keeps that. */
module Email {
  import opened Text

  /** `[a-zA-Z0-9._%+-]` */
  predicate LocalChar(c: char)
  {
    IsAlnum(c) || c == '.' || c == '_' || c == '%' || c == '+' || c == '-'
  }

  /** `[a-zA-Z0-9.-]` */
  predicate DomainChar(c: char)
  {
    IsAlnum(c) || c == '.' || c == '-'
  }

  /** Every character of `s[lo..hi]` is in the class. */
  predicate LocalFrom(s: string, lo: int, hi: int)
    requires 0 <= lo && hi <= |s|
  {
    forall j :: lo <= j < hi ==> LocalChar(s[j])
  }

  predicate DomainFrom(s: string, lo: int, hi: int)
    requires 0 <= lo && hi <= |s|
  {
    forall j :: lo <= j < hi ==> DomainChar(s[j])
  }

  predicate LettersFrom(s: string, lo: int, hi: int)
    requires 0 <= lo && hi <= |s|
  {
    forall j :: lo <= j < hi ==> IsLetter(s[j])
  }

  /** Where `c` first occurs in `s` at or after `i`, or -1. */
  function FirstIndexFrom(s: string, c: char, i: nat): (r: int)
    requires i <= |s|
    ensures r == -1 || (i <= r < |s| && s[r] == c)
    ensures forall j :: i <= j < |s| && (r == -1 || j < r) ==> s[j] != c
    decreases |s| - i
  {
    if i == |s| then -1
    else if s[i] == c then i
    else FirstIndexFrom(s, c, i + 1)
  }

  /** Where `c` last occurs in `s` before `n`, or -1. */
  function LastIndexBelow(s: string, c: char, n: nat): (r: int)
    requires n <= |s|
    ensures -1 <= r < n
    ensures r >= 0 ==> s[r] == c
    ensures forall j :: r < j < n ==> s[j] != c
  {
    if n == 0 then -1
    else if s[n - 1] == c then n - 1
    else LastIndexBelow(s, c, n - 1)
  }

  /** The pattern matched against the whole of `s`: a local part up to the
      first `@`, then a domain whose last `.` is not its first character
      and is followed by at least two letters. */
  predicate FullMatch(s: string)
  {
    var at := FirstIndexFrom(s, '@', 0);
    var dot := LastIndexBelow(s, '.', |s|);
    at >= 1 && LocalFrom(s, 0, at) && DomainFrom(s, at + 1, |s|) &&
    dot > at + 1 && |s| - dot - 1 >= 2 && LettersFrom(s, dot + 1, |s|)
  }

  /** The pattern read as a grammar: `local @ domain . tld`. */
  ghost predicate IsAddress(s: string)
  {
    exists i, k :: 0 < i && i + 1 < k && k + 2 < |s| &&
      LocalFrom(s, 0, i) && s[i] == '@' && DomainFrom(s, i + 1, k) && s[k] == '.' && LettersFrom(s, k + 1, |s|)
  }

  /** `ValidateEmail(email)`: the pattern matches all of the text, or all
      but a final newline. */
  predicate ValidateEmail(email: string)
  {
    FullMatch(email) || (|email| > 0 && email[|email| - 1] == '\n' && FullMatch(email[..|email| - 1]))
  }

  /** The recogniser accepts exactly the strings of the grammar. */
  lemma FullMatchIsAddress(s: string)
    ensures FullMatch(s) <==> IsAddress(s)
  {
    if FullMatch(s) {
      var i := FirstIndexFrom(s, '@', 0);
      var k := LastIndexBelow(s, '.', |s|);
      assert DomainFrom(s, i + 1, k);
    }
    if IsAddress(s) {
      var i, k :| 0 < i && i + 1 < k && k + 2 < |s| &&
        LocalFrom(s, 0, i) && s[i] == '@' && DomainFrom(s, i + 1, k) && s[k] == '.' && LettersFrom(s, k + 1, |s|);
      assert FirstIndexFrom(s, '@', 0) == i;
      assert LastIndexBelow(s, '.', |s|) == k;
      assert DomainFrom(s, i + 1, |s|) by {
        forall j | i + 1 <= j < |s| ensures DomainChar(s[j]) {
          if j > k {
            assert IsLetter(s[j]);
          }
        }
      }
    }
  }

  /** An accepted address has exactly one `@`: the local part and the
      domain cannot hold one. */
  lemma OneAt(email: string)
    requires ValidateEmail(email)
    ensures exists i :: 0 < i < |email| && email[i] == '@' && forall j :: 0 <= j < |email| && j != i ==> email[j] != '@'
  {
    var s := if FullMatch(email) then email else email[..|email| - 1];
    var i := FirstIndexFrom(s, '@', 0);
    forall j | 0 <= j < |email| && j != i ensures email[j] != '@' {
      if j < i {
        assert LocalChar(s[j]);
      } else if j < |s| {
        assert DomainChar(s[j]);
      }
    }
    assert email[i] == '@';
  }

  /** Every character of an accepted address is one the pattern allows,
      except a single final newline: any space, non-ASCII letter or other
      character anywhere else rejects it. */
  lemma AllowedChars(email: string)
    requires ValidateEmail(email)
    ensures forall j :: 0 <= j < |email| ==>
              LocalChar(email[j]) || email[j] == '@' || (j == |email| - 1 && email[j] == '\n')
  {
    var s := if FullMatch(email) then email else email[..|email| - 1];
    var i := FirstIndexFrom(s, '@', 0);
    forall j | 0 <= j < |email| ensures LocalChar(email[j]) || email[j] == '@' || (j == |email| - 1 && email[j] == '\n') {
      if j < i {
        assert LocalChar(s[j]);
      } else if i < j < |s| {
        assert DomainChar(s[j]);
      }
    }
  }

  /** One trailing newline is accepted and changes nothing; a second one
      is not. */
  lemma TrailingNewline(s: string)
    ensures ValidateEmail(s + "\n") <==> FullMatch(s)
    ensures !ValidateEmail(s + "\n\n")
  {
    var s1 := s + "\n";
    assert s1[..|s1| - 1] == s;
    NoNewline(s1);
    var s2 := s + "\n\n";
    assert s2[..|s2| - 1] == s1;
    NoNewline(s2);
  }

  /** The recogniser never accepts a string that ends in a newline. */
  lemma NoNewline(s: string)
    requires |s| > 0 && s[|s| - 1] == '\n'
    ensures !FullMatch(s)
  {
  }

  /** `"a@b.cc"` is accepted, `"a@b.c"` (a one-letter ending) and `"@b.cc"`
      (no local part) are not. */
  lemma Examples(good: string, short: string, noLocal: string)
    requires good == "a@b.cc" && short == "a@b.c" && noLocal == "@b.cc"
    ensures ValidateEmail(good)
    ensures !ValidateEmail(short)
    ensures !ValidateEmail(noLocal)
  {
    FullMatchIsAddress(good);
    assert 0 < 1 && 1 + 1 < 3 && 3 + 2 < |good| && LocalFrom(good, 0, 1) && good[1] == '@'
      && DomainFrom(good, 2, 3) && good[3] == '.' && LettersFrom(good, 4, |good|);
    assert LastIndexBelow(short, '.', 5) == 3;
    assert FirstIndexFrom(noLocal, '@', 0) == 0;
  }
}
