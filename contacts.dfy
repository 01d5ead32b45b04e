/** A contact of the Empower organizing tool: one person as exported in the
    `.json` or `.csv` contact dump, built from a raw record. */
module EmpowerContacts {
  import opened Wrappers
  import opened Text

  /** The CTA response counters a JSON contact starts with (all -1, "not yet
      computed"); contacts read from a `.csv` dump have none. */
  datatype CtaFlags = CtaFlags(
    activeCount: int,
    currentCount: int,
    respondedAny: int,
    respondedActive: int,
    respondedCurrent: int)

  /** When the contact was created: the milliseconds stamp of a JSON record
      or the date part of a CSV `Created At` column. */
  datatype Created = CreatedMts(ms: int) | CreatedDate(date: string)

  datatype Contact = Contact(
    eid: string,
    parentEid: string,
    role: string,
    regionId: int,
    regionName: string,
    firstName: string,
    lastName: string,
    fullName: string,
    email: Option<string>,
    phone: string,
    city: string,
    state: string,
    zip: Option<string>,
    address: Option<string>,
    address2: Option<string>,
    vanId: Option<string>,
    campaignVanId: Option<string>,
    created: Created,
    currentCtaId: Option<int>,
    flags: Option<CtaFlags>)

  /** The fields of one record of the JSON contact dump (`null` is `None`). */
  datatype JsonRecord = JsonRecord(
    eid: string,
    parentEid: Option<string>,
    role: string,
    regionId: Option<int>,
    firstName: Option<string>,
    lastName: Option<string>,
    email: Option<string>,
    phone: Option<string>,
    city: Option<string>,
    state: Option<string>,
    zip: Option<string>,
    address: Option<string>,
    address2: Option<string>,
    vanId: Option<string>,
    campaignVanId: Option<string>,
    createdMts: int,
    currentCtaId: Option<int>)

  /** The columns of one row of the CSV contact dump; a CSV reader gives an
      empty string, never `None`, for an empty cell. */
  datatype CsvRecord = CsvRecord(
    eid: string,
    parentEid: string,
    role: string,
    regionName: string,
    firstName: string,
    lastName: string,
    email: string,
    phone: string,
    city: string,
    state: string,
    zip: string,
    address: string,
    address2: string,
    vanId: string,
    campaignVanId: string,
    createdAt: string)

  /** The phone field: empty input gives the empty string, anything else goes
      through the phone-number library, which is the parameter `library`. */
  function ParsePhone(phone: Option<string>, library: string -> string): string
  {
    if Truthy(phone) then library(phone.value) else ""
  }

  /** A last name that contains `DELETED` is kept as written, any other is
      title-cased. */
  function LastNameOf(raw: string): string
  {
    if Contains(raw, "DELETED") then raw else Title(raw)
  }

  /** The value of an optional text field, or `default` when it is missing
      or empty. */
  function OrDefault(s: Option<string>, default: string): (r: string)
    ensures Truthy(s) ==> r == s.value
    ensures !Truthy(s) ==> r == default
  {
    if Truthy(s) then s.value else default
  }

  /** The parent EID of a JSON record: stripped, and empty when it is missing
      or names the contact itself. */
  function ParentOf(eid: string, parent: Option<string>): (p: string)
    ensures p == eid ==> p == ""
    ensures p != "" ==> Truthy(parent) && p == Strip(parent.value)
    ensures !Truthy(parent) ==> p == ""
    ensures Truthy(parent) && Strip(parent.value) != eid ==> p == Strip(parent.value)
  {
    var p0 := StrippedParent(parent);
    if eid == p0 then "" else p0
  }

  /** The parent field stripped, or `""` when it is missing or empty. */
  function StrippedParent(parent: Option<string>): string
  {
    if Truthy(parent) then Strip(parent.value) else ""
  }

  /** Stripping a stripped text changes nothing. */
  lemma StripStripped(s: string)
    ensures Strip(Strip(s)) == Strip(s)
  {
    var r := Strip(s);
    if r != [] {
      assert TrimStart(r) == r;
      assert TrimEnd(r) == r;
    }
  }

  /** Reading a parent EID that was already read gives it back: the rule is
      idempotent. */
  lemma ParentOfIdempotent(eid: string, parent: Option<string>)
    ensures ParentOf(eid, Some(ParentOf(eid, parent))) == ParentOf(eid, parent)
  {
    if Truthy(parent) {
      StripStripped(parent.value);
    }
  }

  /** The first name of a JSON record: title-cased, or `NoFirstName` when it
      is missing or empty. */
  function JsonFirstName(first: Option<string>): (r: string)
    ensures r != ""
    ensures Truthy(first) ==> r == Title(first.value)
    ensures !Truthy(first) ==> r == "NoFirstName"
  {
    if Truthy(first) then Title(first.value) else "NoFirstName"
  }

  /** The last name of a JSON record: kept verbatim when it contains
      `DELETED`, title-cased otherwise, and `NoLastName` when it is missing
      or empty. */
  function JsonLastName(last: Option<string>): (r: string)
    ensures r != ""
    ensures Truthy(last) && Contains(last.value, "DELETED") ==> r == last.value
    ensures Truthy(last) && !Contains(last.value, "DELETED") ==> r == Title(last.value)
    ensures !Truthy(last) ==> r == "NoLastName"
  {
    if Truthy(last) then LastNameOf(last.value) else "NoLastName"
  }

  /** The region id of a JSON record: a present non-zero id is kept, and a
      missing or zero one gives 0. */
  function RegionOf(region: Option<int>): (r: int)
    ensures r != 0 ==> region == Some(r)
    ensures region.Some? && region.value != 0 ==> r == region.value
  {
    if region.Some? && region.value != 0 then region.value else 0
  }

  /** Builds a contact from a JSON record. A record whose parent is itself
      prints its title-cased last name, and a null last name cannot be
      title-cased: that record raises `AttributeError`. */
  function FromJson(rec: JsonRecord, library: string -> string): (r: Result<Contact>)
    ensures r.Err? <==> Strip(rec.eid) == StrippedParent(rec.parentEid) && rec.lastName.None?
    ensures r.Err? ==> r.error == AttributeError
    ensures r.Ok? ==> var c := r.value;
              && c.eid == Strip(rec.eid)
              && c.parentEid == ParentOf(c.eid, rec.parentEid) && c.role == rec.role
              && c.regionId == RegionOf(rec.regionId) && c.regionName == ""
              && c.firstName == JsonFirstName(rec.firstName)
              && c.lastName == JsonLastName(rec.lastName)
              && c.fullName == LowerStr(c.firstName) + LowerStr(c.lastName)
              && c.phone == ParsePhone(rec.phone, library)
              && c.city == OrDefault(rec.city, "NoCity") && c.state == OrDefault(rec.state, "WI")
              && c.zip == rec.zip && c.address == rec.address && c.address2 == rec.address2
              && c.email == rec.email && c.vanId == rec.vanId && c.campaignVanId == rec.campaignVanId
              && c.created == CreatedMts(rec.createdMts) && c.currentCtaId == rec.currentCtaId
              && c.flags == Some(CtaFlags(-1, -1, -1, -1, -1))
  {
    var eid := Strip(rec.eid);
    if eid == StrippedParent(rec.parentEid) && rec.lastName.None? then Err(AttributeError)
    else
      var first := JsonFirstName(rec.firstName);
      var last := JsonLastName(rec.lastName);
      Ok(Contact(
        eid, ParentOf(eid, rec.parentEid), rec.role, RegionOf(rec.regionId),
        "", first, last, LowerStr(first) + LowerStr(last),
        rec.email, ParsePhone(rec.phone, library),
        OrDefault(rec.city, "NoCity"), OrDefault(rec.state, "WI"),
        rec.zip, rec.address, rec.address2, rec.vanId, rec.campaignVanId,
        CreatedMts(rec.createdMts), rec.currentCtaId,
        Some(CtaFlags(-1, -1, -1, -1, -1))))
  }

  /** The date part of a CSV `Created At` value: empty stays empty; otherwise
      the value must split on `T` into exactly two parts (a date and a time),
      and anything else raises `ValueError`. */
  function ParseCreated(s: string): (r: Result<string>)
    ensures s == "" ==> r == Ok("")
    ensures r.Ok? && s != "" ==> |r.value| < |s| && s[..|r.value|] == r.value && s[|r.value|] == 'T'
    ensures r.Ok? && s != "" ==> 'T' !in r.value && 'T' !in s[|r.value| + 1..]
    ensures s != "" && r.Err? ==> r.error.ValueError?
  {
    if s == "" then Ok("")
    else
      var parts := Split(s, 'T');
      if |parts| == 2 then
        JoinSplit(s, 'T');
        JoinCons(parts[0], [parts[1]], "T");
        Ok(parts[0])
      else Err(ValueError("too many values to unpack"))
  }

  /** A `Created At` value of the form date `T` time, neither part holding a
      `T`, parses to its date. */
  lemma ParseCreatedDateTime(date: string, time: string)
    requires 'T' !in date && 'T' !in time
    ensures ParseCreated(date + "T" + time) == Ok(date)
  {
    SplitJoin([date, time], 'T');
    JoinCons(date, [time], "T");
  }

  /** Builds a contact from a CSV row; fails where the `Created At` column
      does. */
  function FromCsv(rec: CsvRecord, library: string -> string): (r: Result<Contact>)
    ensures r.Ok? <==> ParseCreated(rec.createdAt).Ok?
    ensures r.Ok? ==> r.value.eid == Strip(rec.eid) && r.value.parentEid == Strip(rec.parentEid)
    ensures r.Ok? ==> r.value.role == rec.role && r.value.flags.None?
    ensures r.Ok? ==> r.value.vanId == Some(rec.vanId) && r.value.campaignVanId == Some(rec.campaignVanId)
    ensures r.Ok? ==> r.value.email == Some(rec.email) && r.value.phone == ParsePhone(Some(rec.phone), library)
    ensures r.Ok? ==> r.value.zip == Some(rec.zip) && r.value.address == Some(rec.address) && r.value.address2 == Some(rec.address2)
    ensures r.Ok? ==> r.value.fullName == LowerStr(r.value.firstName) + LowerStr(r.value.lastName)
    ensures r.Ok? ==> r.value.firstName == Title(rec.firstName)
    ensures r.Ok? && Contains(rec.lastName, "DELETED") ==> r.value.lastName == rec.lastName
    ensures r.Ok? && !Contains(rec.lastName, "DELETED") ==> r.value.lastName == Title(rec.lastName)
    ensures r.Ok? ==> r.value.state == if rec.state == "" then "WI" else rec.state
    ensures r.Ok? ==> r.value.city == rec.city && r.value.regionId == 0 && r.value.regionName == rec.regionName
    ensures r.Ok? ==> r.value.created == CreatedDate(ParseCreated(rec.createdAt).value) && r.value.currentCtaId == Some(0)
  {
    var created :- ParseCreated(rec.createdAt);
    var first := Title(rec.firstName);
    var last := LastNameOf(rec.lastName);
    Ok(Contact(
      Strip(rec.eid), Strip(rec.parentEid), rec.role, 0, rec.regionName,
      first, last, LowerStr(first) + LowerStr(last),
      Some(rec.email), ParsePhone(Some(rec.phone), library), rec.city,
      if rec.state != "" then rec.state else "WI",
      Some(rec.zip), Some(rec.address), Some(rec.address2),
      Some(rec.vanId), Some(rec.campaignVanId),
      CreatedDate(created), Some(0), None))
  }

  /** `HasVANMatch`: the record carried a VAN id at all, even an empty one. */
  predicate HasVanMatch(c: Contact) { c.vanId.Some? }

  /** `GetVANID`: the VAN id, or the empty string when there is none. */
  function VanIdOf(c: Contact): (r: string)
    ensures r == "" <==> !Truthy(c.vanId)
    ensures r != "" ==> c.vanId == Some(r)
  {
    if Truthy(c.vanId) then c.vanId.value else ""
  }

  /** Every contact read from the CSV dump counts as matched to the VAN,
      because its VAN id is never missing, only possibly empty. */
  lemma CsvContactsHaveVanMatch(rec: CsvRecord, library: string -> string)
    requires FromCsv(rec, library).Ok?
    ensures HasVanMatch(FromCsv(rec, library).value)
    ensures rec.vanId == "" ==> VanIdOf(FromCsv(rec, library).value) == ""
  {
  }

  /** `GetName`: first and last name and, in parentheses, the given id. */
  function DisplayName(first: string, last: string, id: string): (r: string)
    ensures |r| == |first| + |last| + |id| + 4
    ensures r[..|first|] == first && r[|first|] == ' ' && r[|first| + 1..|first| + 1 + |last|] == last
    ensures r[|first| + |last| + 1..|first| + |last| + 3] == " (" && r[|r| - 1] == ')'
  {
    first + " " + last + " " + "(" + id + ")"
  }

  /** The id is read back from a shown name as the text between the `" ("`
      that follows the last name and the closing `)`; so two names shown for
      the same person are equal only when their ids are. */
  lemma DisplayNameId(first: string, last: string, id: string)
    ensures var r := DisplayName(first, last, id);
            r[|first| + |last| + 3..|r| - 1] == id
    ensures forall id' :: DisplayName(first, last, id') == DisplayName(first, last, id) ==> id' == id
  {
    var r := DisplayName(first, last, id);
    var k := |first| + |last| + 3;
    assert r == (first + " " + last + " (") + id + ")";
    assert r[k..|r| - 1] == id;
    forall id' | DisplayName(first, last, id') == r
      ensures id' == id
    {
      var r' := DisplayName(first, last, id');
      assert r' == (first + " " + last + " (") + id' + ")";
      assert r'[k..|r'| - 1] == id';
    }
  }

  /** The JSON and the CSV constructor normalise a present name the same
      way, so the same person read from either dump gets the same names. */
  lemma NamesAgree(j: JsonRecord, row: CsvRecord, library: string -> string)
    requires FromJson(j, library).Ok? && FromCsv(row, library).Ok?
    requires j.firstName == Some(row.firstName) && j.lastName == Some(row.lastName)
    requires row.firstName != "" && row.lastName != ""
    ensures FromJson(j, library).value.firstName == FromCsv(row, library).value.firstName
    ensures FromJson(j, library).value.lastName == FromCsv(row, library).value.lastName
    ensures FromJson(j, library).value.fullName == FromCsv(row, library).value.fullName
  {
  }

  /** A name read from the JSON dump reads back unchanged: title-casing an
      already title-cased name, or keeping a `DELETED` one, is idempotent. */
  lemma JsonNamesStable(first: Option<string>, last: Option<string>)
    requires Truthy(first) && Truthy(last)
    ensures JsonFirstName(Some(JsonFirstName(first))) == JsonFirstName(first)
    ensures JsonLastName(Some(JsonLastName(last))) == JsonLastName(last)
  {
    TitleIdempotent(first.value);
    if !Contains(last.value, "DELETED") {
      TitleIdempotent(last.value);
    }
  }

  /** A region id read once reads back unchanged. */
  lemma RegionOfIdempotent(region: Option<int>)
    ensures RegionOf(Some(RegionOf(region))) == RegionOf(region)
  {
  }

  /** `Contact.GetName`: a plain contact is shown with its EID. */
  function ContactName(c: Contact): string
  {
    DisplayName(c.firstName, c.lastName, c.eid)
  }

  /** `GetRole`: the role in lower case. */
  function RoleOf(c: Contact): string
  {
    LowerStr(c.role)
  }
}
