/** The contact-quality classifier used by the unmatched-contacts report: it
    sorts a contact into at most one of six buckets (matched to the VAN,
    missing phone, bad first name, bad last name, non-ASCII first name,
    non-ASCII last name). */
module EmpowerCommon {
  import opened Wrappers
  import opened Text
  import opened EmpowerContacts

  const BadFirstNameCharacters: seq<string> := [".", "?", "(", ")", "<", "!", "`"]
  const BadLastNameCharacters: seq<string> := ["?", "<", "!", "*"]
  const BadFirstNames: seq<string> :=
    ["NoFirstName", "Seiu", "Hna", "Hno", "Br", "Brother", "Sister", "Mn", "Grandpa", "Grandma",
     "Tia", "Tio", "Pastor", "Ald", "Coach", "Mr", "Mrs", "Ms", "Sr", "Jr", "Sra", "Miss",
     "Father", "Com", "Hermano", "Empowered", "Mom", "Dad", "Ma", "Bro", "Mommy", "Uncle",
     "Aunt", "Auntie"]
  const BadLastNames: seq<string> := ["NoLastName", "Seiu", "Mash", "Daca", "Dad", "Coach", "Matc"]

  /** `containsAny`: the or-fold of substring tests over a non-empty list
      (folding an empty list raises, so the list must not be empty). */
  function ContainsAny(s: string, items: seq<string>): (r: bool)
    requires |items| > 0
    ensures r <==> exists i :: 0 <= i < |items| && Contains(s, items[i])
  {
    if |items| == 1 then Contains(s, items[0])
    else ContainsAny(s, items[..|items| - 1]) || Contains(s, items[|items| - 1])
  }

  /** `containsDigit`: some character is a decimal digit. */
  predicate ContainsDigit(s: string)
  {
    exists i :: 0 <= i < |s| && IsDigit(s[i])
  }

  /** The length of the run of equal characters that starts the string. */
  function FirstRunLength(s: string): (n: nat)
    requires s != []
    ensures 1 <= n <= |s|
    ensures forall i :: 0 <= i < n ==> s[i] == s[0]
    ensures n == |s| || s[n] != s[0]
  {
    if |s| == 1 || s[1] != s[0] then 1 else 1 + FirstRunLength(s[1..])
  }

  /** `tooManyChars`: whether the FIRST group of equal characters has three or
      more members; the empty string has no group and yields `None`. */
  function TooManyChars(s: string): (r: Option<bool>)
    ensures r.None? <==> s == []
  {
    if s == [] then None else Some(FirstRunLength(s) >= 3)
  }

  /** The check only looks at the start of the string: it fires exactly when
      the first three characters are equal. */
  lemma TooManyCharsStart(s: string)
    ensures TooManyChars(s) == Some(true) <==> |s| >= 3 && s[0] == s[1] == s[2]
  {
  }

  /** `re.sub('[ -~]', '', s)`: the characters that are not printable ASCII. */
  function NonPrintable(s: string): (r: string)
    ensures r == [] <==> forall i :: 0 <= i < |s| ==> ' ' <= s[i] <= '~'
  {
    if s == [] then []
    else if ' ' <= s[0] <= '~' then NonPrintable(s[1..])
    else [s[0]] + NonPrintable(s[1..])
  }

  /** The first-name test of the classifier. */
  predicate BadFirstName(first: string)
  {
    || first == ""
    || ContainsAny(first, BadFirstNameCharacters)
    || ContainsAny(first, BadFirstNames)
    || ContainsDigit(first)
    || TooManyChars(first) == Some(true)
  }

  /** The last-name test of the classifier; it also rejects names of one or
      two characters. */
  predicate BadLastName(last: string)
  {
    || last == ""
    || ContainsAny(last, BadLastNameCharacters)
    || ContainsAny(last, BadLastNames)
    || ContainsDigit(last)
    || TooManyChars(last) == Some(true)
    || |last| <= 2
  }

  /** The six buckets, in the order of the counters the classifier returns. */
  datatype Bucket =
    | VanMatched
    | MissingPhone
    | BadFirst
    | BadLast
    | NonAsciiFirst
    | NonAsciiLast
    | Clean

  /** The if/elif chain of `FilterContactForValidData`: the first test that
      fires decides. */
  function Classify(c: Contact): Bucket
  {
    if HasVanMatch(c) then VanMatched
    else if c.phone == "" then MissingPhone
    else if BadFirstName(c.firstName) then BadFirst
    else if BadLastName(c.lastName) then BadLast
    else if NonPrintable(c.firstName) != "" then NonAsciiFirst
    else if NonPrintable(c.lastName) != "" then NonAsciiLast
    else Clean
  }

  /** `FilterContactForValidData`: six 0/1 counters with at most one set, the
      one of the bucket the contact falls in; a contact that passes every
      test has none set. */
  function FilterContactForValidData(c: Contact): (r: seq<int>)
    ensures |r| == 6
    ensures forall i :: 0 <= i < 6 ==> r[i] == 0 || r[i] == 1
    ensures forall i, j :: 0 <= i < j < 6 ==> r[i] == 0 || r[j] == 0
    ensures r[0] == 1 <==> HasVanMatch(c)
    ensures r[1] == 1 <==> !HasVanMatch(c) && c.phone == ""
    ensures r[2] == 1 <==> !HasVanMatch(c) && c.phone != "" && BadFirstName(c.firstName)
    ensures r[3] == 1 <==> !HasVanMatch(c) && c.phone != "" && !BadFirstName(c.firstName) && BadLastName(c.lastName)
    ensures r[4] == 1 <==>
              && !HasVanMatch(c) && c.phone != "" && !BadFirstName(c.firstName) && !BadLastName(c.lastName)
              && NonPrintable(c.firstName) != ""
    ensures r[5] == 1 <==>
              && !HasVanMatch(c) && c.phone != "" && !BadFirstName(c.firstName) && !BadLastName(c.lastName)
              && NonPrintable(c.firstName) == "" && NonPrintable(c.lastName) != ""
    ensures r == [0, 0, 0, 0, 0, 0] <==> Classify(c) == Clean
  {
    match Classify(c)
    case VanMatched => [1, 0, 0, 0, 0, 0]
    case MissingPhone => [0, 1, 0, 0, 0, 0]
    case BadFirst => [0, 0, 1, 0, 0, 0]
    case BadLast => [0, 0, 0, 1, 0, 0]
    case NonAsciiFirst => [0, 0, 0, 0, 1, 0]
    case NonAsciiLast => [0, 0, 0, 0, 0, 1]
    case Clean => [0, 0, 0, 0, 0, 0]
  }

  /** Every contact read from the CSV dump lands in the VAN-matched bucket. */
  lemma CsvContactsClassifiedMatched(rec: CsvRecord, library: string -> string)
    requires FromCsv(rec, library).Ok?
    ensures FilterContactForValidData(FromCsv(rec, library).value) == [1, 0, 0, 0, 0, 0]
  {
    CsvContactsHaveVanMatch(rec, library);
  }

  /** The name tests are substring tests: a first name that merely starts
      with a listed title, such as `Maria` (which holds `Ma`), is flagged. */
  lemma SubstringFlagsFirstName()
    ensures BadFirstName("Maria")
  {
    assert BadFirstNames[28] == "Ma";
    assert OccursAt("Maria", "Ma", 0);
    ContainsAt("Maria", "Ma", 0);
  }

  /** A JSON contact with no VAN id, a phone and no first name is counted
      under the bad-first-name bucket, because the default `NoFirstName`
      is itself on the list. */
  lemma MissingFirstNameIsBad(rec: JsonRecord, library: string -> string)
    requires rec.vanId.None? && Truthy(rec.phone) && library(rec.phone.value) != ""
    requires !Truthy(rec.firstName) && FromJson(rec, library).Ok?
    ensures FilterContactForValidData(FromJson(rec, library).value)[2] == 1
  {
    assert BadFirstNames[0] == "NoFirstName";
    assert OccursAt("NoFirstName", "NoFirstName", 0);
    ContainsAt("NoFirstName", "NoFirstName", 0);
  }
}
