/** Organizers of the Empower tool: a tree of organizer nodes, each with its
    own direct contacts and its child organizers keyed by EID, the counts
    computed over the tree, and the reports written by walking it. */
module EmpowerOrganizers {
  import opened Wrappers
  import opened Text
  import opened OrderedDicts
  import opened EmpowerContacts
  import opened EmpowerCommon

  // ---------------------------------------------------------------------------
  // Identifiers, dates and rates

  /** `Organizer.GetContactID`: an EID of two or three hyphen-separated parts
      is shown by its last part; any other EID is shown whole. */
  function OrganizerContactId(eid: string): string
  {
    if '-' in eid then
      var parts := Split(eid, '-');
      if |parts| == 3 then parts[2]
      else if |parts| == 2 then parts[1]
      else eid
    else eid
  }

  /** An EID built by joining hyphen-free parts: two or three parts give the
      last part back, one part or four or more give the EID itself. */
  lemma OrganizerContactIdOfParts(parts: seq<string>)
    requires |parts| >= 1
    requires forall i :: 0 <= i < |parts| ==> '-' !in parts[i]
    ensures OrganizerContactId(Join(parts, "-")) ==
              if |parts| == 2 || |parts| == 3 then parts[|parts| - 1] else Join(parts, "-")
  {
    SplitJoin(parts, '-');
    var eid := Join(parts, "-");
    if |parts| >= 2 {
      JoinCons(parts[0], parts[1..], "-");
      assert parts == [parts[0]] + parts[1..];
      assert eid[|parts[0]|] == '-';
    }
  }

  /** `ParseLastUsedEmpower`: the date part of a last-login stamp of the CSV
      dump. Empty stays empty, a value without `T` is kept, and a value with
      `T` must split into exactly a date and a time (`ValueError`
      otherwise). */
  function ParseLastUsedEmpower(s: string): (r: Result<string>)
    ensures 'T' !in s ==> r == Ok(s)
    ensures r.Err? ==> 'T' in s && r.error.ValueError?
    ensures r.Ok? && 'T' in s ==> 'T' !in r.value && |r.value| < |s| && s[..|r.value|] == r.value && s[|r.value|] == 'T'
  {
    if s == "" then Ok("")
    else if 'T' in s then ParseCreated(s)
    else Ok(s)
  }

  /** A stamp of the form date `T` time parses to its date. */
  lemma ParseLastUsedDateTime(date: string, time: string)
    requires 'T' !in date && 'T' !in time
    ensures ParseLastUsedEmpower(date + "T" + time) == Ok(date)
  {
    ParseCreatedDateTime(date, time);
    assert (date + "T" + time)[|date|] == 'T';
  }

  /** Python's `int()` of a quotient: division truncated toward zero. */
  function TruncDiv(x: int, y: int): (q: int)
    requires y > 0
    ensures x >= 0 ==> q * y <= x < (q + 1) * y
    ensures x < 0 ==> q == -((-x) / y)
  {
    if x >= 0 then x / y else -((-x) / y)
  }

  /** `GetContactActivationRate*`: the share of direct contacts that
      responded, in whole percent (the source keeps hundredths of one);
      0 when there are no direct contacts. The activated count is -1 until
      the caller fills it in, which gives a negative rate. */
  function RatePercent(activated: int, direct: nat): (r: int)
    ensures direct == 0 ==> r == 0
  {
    if direct == 0 then 0 else TruncDiv(100 * activated, direct)
  }

  lemma NonPositiveFactor(k: int, d: int)
    requires d > 0 && k * d <= 0
    ensures k <= 0
  {
  }

  /** With 0 <= activated <= direct the rate lies between 0 and 100, and it
      is the largest whole percent not above the exact share. */
  lemma RateBounds(activated: int, direct: nat)
    requires 0 <= activated <= direct
    ensures 0 <= RatePercent(activated, direct) <= 100
    ensures direct > 0 ==>
              RatePercent(activated, direct) * direct <= 100 * activated < (RatePercent(activated, direct) + 1) * direct
  {
    if direct > 0 {
      var r := RatePercent(activated, direct);
      assert r * direct <= 100 * activated < (r + 1) * direct;
      assert (r - 100) * direct == r * direct - 100 * direct;
      NonPositiveFactor(r - 100, direct);
      assert (-1 - r) * direct == -((r + 1) * direct);
      NonPositiveFactor(-1 - r, direct);
    }
  }

  /** A rate of 100 means every direct contact responded. */
  lemma FullRate(activated: int, direct: nat)
    requires 0 <= activated <= direct && direct > 0
    ensures RatePercent(activated, direct) == 100 <==> activated == direct
  {
    RateBounds(activated, direct);
    var r := RatePercent(activated, direct);
    if r == 100 {
      assert 100 * direct <= 100 * activated;
    }
    if activated == direct {
      assert 100 * direct < (r + 1) * direct;
      assert (99 - r) * direct == 100 * direct - (r + 1) * direct;
      NegativeFactor(99 - r, direct);
    }
  }

  lemma NegativeFactor(k: int, d: int)
    requires d > 0 && k * d < 0
    ensures k < 0
  {
    if k >= 0 {
      NonNegativeProduct(k, d);
    }
  }

  lemma NonNegativeProduct(k: int, d: int)
    requires k >= 0 && d > 0
    ensures k * d >= 0
  {
  }

  // ---------------------------------------------------------------------------
  // Sorting the rate keys

  predicate Descending(s: seq<int>)
  {
    forall i, j :: 0 <= i < j < |s| ==> s[i] >= s[j]
  }

  function InsertDesc(x: int, s: seq<int>): (r: seq<int>)
    requires Descending(s)
    ensures |r| == |s| + 1
    ensures r[0] == x || (s != [] && r[0] == s[0])
    ensures Descending(r)
    ensures multiset(r) == multiset(s) + multiset{x}
  {
    if s == [] || x >= s[0] then [x] + s
    else
      var t := InsertDesc(x, s[1..]);
      assert s == [s[0]] + s[1..];
      assert t[0] <= s[0];
      [s[0]] + t
  }

  /** `reversed(sorted(keys))`: the keys from largest to smallest. */
  function SortDesc(s: seq<int>): (r: seq<int>)
    ensures Descending(r)
    ensures multiset(r) == multiset(s)
  {
    if s == [] then []
    else
      assert s == [s[0]] + s[1..];
      InsertDesc(s[0], SortDesc(s[1..]))
  }

  // ---------------------------------------------------------------------------
  // The organizer node

  class Organizer {
    const info: Contact
    /** `lastUsedEmpowerMts` when the record has a truthy one; `None` stands
        for "Unknown/Never". */
    const lastUsed: Option<int>
    /** Strictly larger than the rank of every organizer this one refers to:
        the organizer graph has no cycles, so the recursive walks end. */
    ghost const rank: nat
    var contacts: ODict<string, Contact>
    var children: ODict<string, Organizer>
    var activatedAny: int
    var activatedActive: int
    var activatedCurrent: int
    /** Rate (in percent) to the child organizers with that rate, for the
        any-CTA, active-CTA and current-CTA rates; filled in by the caller. */
    var anyBuckets: ODict<int, seq<Organizer>>
    var activeBuckets: ODict<int, seq<Organizer>>
    var currentBuckets: ODict<int, seq<Organizer>>
    var inactive: seq<Organizer>

    ghost predicate Valid()
      reads this
    {
      && contacts.Valid() && children.Valid()
      && anyBuckets.Valid() && activeBuckets.Valid() && currentBuckets.Valid()
    }

    constructor (info: Contact, lastUsedMts: Option<int>, ghost rank: nat)
      ensures Valid()
      ensures this.info == info && this.rank == rank
      ensures lastUsed == if lastUsedMts.Some? && lastUsedMts.value != 0 then lastUsedMts else None
      ensures contacts == Empty() && children == Empty() && inactive == []
      ensures anyBuckets == Empty() && activeBuckets == Empty() && currentBuckets == Empty()
      ensures activatedAny == -1 && activatedActive == -1 && activatedCurrent == -1
    {
      this.info := info;
      this.rank := rank;
      lastUsed := if lastUsedMts.Some? && lastUsedMts.value != 0 then lastUsedMts else None;
      contacts := Empty();
      children := Empty();
      activatedAny, activatedActive, activatedCurrent := -1, -1, -1;
      anyBuckets, activeBuckets, currentBuckets := Empty(), Empty(), Empty();
      inactive := [];
    }

    /** `AddContact`: stores the contact under its EID; a contact with an
        EID already present replaces the earlier one in place. */
    method AddContact(c: Contact)
      requires Valid()
      modifies this
      ensures Valid()
      ensures contacts == old(contacts).Put(c.eid, c)
      ensures DirectContactCount() == old(DirectContactCount()) + (if c.eid in old(contacts.entries) then 0 else 1)
      ensures children == old(children) && inactive == old(inactive)
      ensures activatedAny == old(activatedAny) && activatedActive == old(activatedActive)
      ensures activatedCurrent == old(activatedCurrent)
      ensures anyBuckets == old(anyBuckets) && activeBuckets == old(activeBuckets)
      ensures currentBuckets == old(currentBuckets)
    {
      contacts := contacts.Put(c.eid, c);
    }

    /** `AddOrganizer`: stores the child organizer under its EID. */
    method AddOrganizer(o: Organizer)
      requires Valid()
      modifies this
      ensures Valid()
      ensures children == old(children).Put(o.info.eid, o)
      ensures |children.keys| == |old(children.keys)| + (if o.info.eid in old(children.entries) then 0 else 1)
      ensures contacts == old(contacts) && inactive == old(inactive)
      ensures activatedAny == old(activatedAny) && activatedActive == old(activatedActive)
      ensures activatedCurrent == old(activatedCurrent)
      ensures anyBuckets == old(anyBuckets) && activeBuckets == old(activeBuckets)
      ensures currentBuckets == old(currentBuckets)
    {
      children := children.Put(o.info.eid, o);
    }

    method SetActivatedContactCountAnyCtas(count: int)
      modifies this
      ensures activatedAny == count
      ensures activatedActive == old(activatedActive) && activatedCurrent == old(activatedCurrent)
      ensures contacts == old(contacts) && children == old(children) && inactive == old(inactive)
      ensures anyBuckets == old(anyBuckets) && activeBuckets == old(activeBuckets)
      ensures currentBuckets == old(currentBuckets)
    {
      activatedAny := count;
    }

    method SetActivatedContactCountActiveCtas(count: int)
      modifies this
      ensures activatedActive == count
      ensures activatedAny == old(activatedAny) && activatedCurrent == old(activatedCurrent)
      ensures contacts == old(contacts) && children == old(children) && inactive == old(inactive)
      ensures anyBuckets == old(anyBuckets) && activeBuckets == old(activeBuckets)
      ensures currentBuckets == old(currentBuckets)
    {
      activatedActive := count;
    }

    method SetActivatedContactCountCurrentCtas(count: int)
      modifies this
      ensures activatedCurrent == count
      ensures activatedAny == old(activatedAny) && activatedActive == old(activatedActive)
      ensures contacts == old(contacts) && children == old(children) && inactive == old(inactive)
      ensures anyBuckets == old(anyBuckets) && activeBuckets == old(activeBuckets)
      ensures currentBuckets == old(currentBuckets)
    {
      activatedCurrent := count;
    }

    /** `GetDirectContactCount` */
    function DirectContactCount(): nat
      reads this
    {
      |contacts.keys|
    }

    function RateAny(): int
      reads this
    {
      RatePercent(activatedAny, DirectContactCount())
    }

    function RateActive(): int
      reads this
    {
      RatePercent(activatedActive, DirectContactCount())
    }

    function RateCurrent(): int
      reads this
    {
      RatePercent(activatedCurrent, DirectContactCount())
    }

    /** `GetContactActivationString`: active-CTA responders over direct
        contacts. */
    function ActivationString(): string
      reads this
    {
      IntToStr(activatedActive) + "/" + NatToStr(DirectContactCount())
    }

    /** `GetName`, with the organizer's own contact id. */
    function Name(): string
    {
      DisplayName(info.firstName, info.lastName, OrganizerContactId(info.eid))
    }

    /** `GetDaysSinceLastLoginAsInt`: a very large number for an organizer
        that never logged in; the clock is the parameter `elapsedDays`. */
    function DaysSinceLastLogin(elapsedDays: int -> int): int
    {
      if lastUsed.None? then 100000 else elapsedDays(lastUsed.value)
    }

    /** `GetOrganizerCount`, as the source's loop over the child dict. */
    method GetOrganizerCount(ghost nodes: set<Organizer>) returns (n: nat)
      requires Closed(nodes) && this in nodes
      ensures n == OrganizerCount(this, nodes)
      decreases rank
    {
      ChildListBelow(this, nodes);
      ghost var cs := ChildList(this);
      var keys := children.keys;
      var count := 0;
      var i := 0;
      while i < |keys|
        invariant 0 <= i <= |keys|
        invariant count == OrganizerCounts(cs[..i], rank, nodes)
      {
        assert cs[..i + 1][..i] == cs[..i];
        var c := children.entries[keys[i]].GetOrganizerCount(nodes);
        count := count + c;
        i := i + 1;
      }
      assert cs[..|keys|] == cs;
      n := count + |keys|;
    }

    /** `GetContactCount`, as the source's loop over the child dict. */
    method GetContactCount(ghost nodes: set<Organizer>) returns (n: nat)
      requires Closed(nodes) && this in nodes
      ensures n == ContactCount(this, nodes)
      decreases rank
    {
      ChildListBelow(this, nodes);
      ghost var cs := ChildList(this);
      var keys := children.keys;
      var count := 0;
      var i := 0;
      while i < |keys|
        invariant 0 <= i <= |keys|
        invariant count == ContactCounts(cs[..i], rank, nodes)
      {
        assert cs[..i + 1][..i] == cs[..i];
        var c := children.entries[keys[i]].GetContactCount(nodes);
        count := count + c;
        i := i + 1;
      }
      assert cs[..|keys|] == cs;
      n := count + |contacts.keys|;
    }

    /** The first loop of `__PrintUnactivatedContactsToCSV`, with its two
        assertions. */
    method CollectUnactivated() returns (list: seq<Contact>)
      requires FlagsReady(this)
      ensures list == Unactivated(contacts.Values())
      ensures |list| == DirectContactCount() - activatedAny
    {
      var keys := contacts.keys;
      ghost var cs := contacts.Values();
      list := [];
      var i := 0;
      while i < |keys|
        invariant 0 <= i <= |keys|
        invariant list == Unactivated(cs[..i])
      {
        assert cs[..i + 1][..i] == cs[..i];
        var contact := contacts.entries[keys[i]];
        if contact.flags.Some? && contact.flags.value.respondedAny == 1 {
        } else {
          assert contact.flags.value.respondedAny == 0;
          list := list + [contact];
        }
        i := i + 1;
      }
      assert cs[..|keys|] == cs;
    }

    /** The first loop of `__PrintUnmatchedContactsToCSV`: classifies every
        direct contact. */
    method Triage() returns (unmatched: seq<Contact>, bad: nat, matched: nat)
      requires Valid()
      ensures unmatched == Unmatched(contacts.Values())
      ensures bad == CountBad(contacts.Values()) && matched == CountMatched(contacts.Values())
    {
      unmatched, bad, matched := TriageAll(contacts.Values());
    }

    /** The line of this organizer in report `r`, and the direct contacts
        listed under it. */
    method NodeLine(r: Report, depth: nat, ghost nodes: set<Organizer>) returns (row: Row, listed: seq<Contact>)
      requires Closed(nodes) && this in nodes && Ready(r, nodes)
      ensures row == NodeRow(r, this, depth, nodes) && listed == Listed(r, this)
    {
      listed := [];
      match r {
        case TextTree(showVoters) =>
          var organizerCount := GetOrganizerCount(nodes);
          var contactCount := GetContactCount(nodes);
          row := TextNodeRow(this, depth, organizerCount, contactCount);
          if showVoters {
            listed := contacts.Values();
          }
        case TreeCsv =>
          row := CsvNodeRow(this, depth);
        case UnactivatedCsv =>
          listed := CollectUnactivated();
          row := UnactivatedNodeRow(this, depth, |listed|);
        case UnmatchedCsv =>
          var bad, matched;
          listed, bad, matched := Triage();
          row := UnmatchedNodeRow(this, depth, |listed|, bad, matched);
        case ActivationCsv(_, _) =>
          row := ActivationNodeRow(this, depth);
      }
    }

    /** `__PrintTree` and the `__Print*ToCSV` walks: the rows of the subtree
        of this organizer; the text tree with voters shown also gives the
        full names of this organizer's own direct contacts. */
    method PrintSubtree(r: Report, depth: nat, ghost nodes: set<Organizer>) returns (rows: seq<Row>, names: seq<string>)
      requires Closed(nodes) && this in nodes && Ready(r, nodes)
      ensures rows == TreeRows(r, this, depth, nodes)
      ensures names == if r.TextTree? && r.showVoters && !Skipped(r, this) then FullNames(contacts.Values()) else []
      decreases rank, 3
    {
      if Skipped(r, this) {
        return [], [];
      }
      var row, listed := NodeLine(r, depth, nodes);
      var below := PrintChildren(r, depth + 3, nodes);
      var contactRows;
      contactRows, names := PrintContacts(r, listed, depth + 3);
      rows := [row] + below + contactRows;
    }

    /** The subtrees of the children, in the order the report visits them. */
    method PrintChildren(r: Report, depth: nat, ghost nodes: set<Organizer>) returns (rows: seq<Row>)
      requires Closed(nodes) && this in nodes && Ready(r, nodes)
      ensures AllBelow(ChildOrder(r, this), rank, nodes)
      ensures rows == ForestRows(r, ChildOrder(r, this), depth, rank, nodes)
      decreases rank, 2
    {
      ChildOrderBelow(r, this, nodes);
      rows := PrintForest(r, ChildOrder(r, this), depth, rank, nodes);
    }

    /** The parent test of every report entry point: the organizer has no
        parent EID or its parent is not in the directory. */
    predicate IsRootIn(directory: map<string, Contact>)
      reads this
    {
      info.parentEid == "" || info.parentEid !in directory
    }

    /** `PrintTree`: from a root with `startAtRoot`, the tree without voters
        and a blank line, giving `[]`; without `startAtRoot`, the tree from
        this organizer with its direct contacts, giving their full names;
        otherwise nothing, giving `None`. */
    method PrintTree(directory: map<string, Contact>, w: Writer, startAtRoot: bool, ghost nodes: set<Organizer>)
      returns (names: Option<seq<string>>)
      requires Closed(nodes) && this in nodes
      modifies w
      ensures !startAtRoot || IsRootIn(directory) ==>
        && w.rows == old(w.rows + TreeRows(TextTree(!startAtRoot), this, 0, nodes)) + [Separator]
        && names == Some(if startAtRoot then [] else old(FullNames(contacts.Values())))
      ensures startAtRoot && !IsRootIn(directory) ==> w.rows == old(w.rows) && names == None
    {
      if startAtRoot && !IsRootIn(directory) {
        return None;
      }
      var voters := WriteSubtree(TextTree(!startAtRoot), w, true, nodes);
      names := if startAtRoot then Some([]) else Some(voters);
    }

    /** Walks the subtree and writes its rows, then a separator row when
        `separator` is set. */
    method WriteSubtree(r: Report, w: Writer, separator: bool, ghost nodes: set<Organizer>) returns (names: seq<string>)
      requires Closed(nodes) && this in nodes && Ready(r, nodes)
      modifies w
      ensures w.rows == old(w.rows + TreeRows(r, this, 0, nodes)) + (if separator then [Separator] else [])
      ensures names == old(if r.TextTree? && r.showVoters && !Skipped(r, this) then FullNames(contacts.Values()) else [])
    {
      var rows;
      rows, names := PrintSubtree(r, 0, nodes);
      w.WriteRows(rows + if separator then [Separator] else []);
    }

    /** `PrintTreeToCSV`, `PrintUnactivatedContactsToCSV`,
        `PrintUnmatchedContactsToCSV` and `PrintActivationRateToCSV`: nothing
        for a deleted organizer (tested here only, never in the walk) or one
        the activation cutoff skips; from a root with `startAtRoot`, the walk
        and a separator row; without `startAtRoot`, the walk alone. */
    method PrintReport(r: Report, directory: map<string, Contact>, w: Writer, startAtRoot: bool, ghost nodes: set<Organizer>)
      requires !r.TextTree?
      requires Closed(nodes) && this in nodes && Ready(r, nodes)
      modifies w
      ensures info.role == "deleted" || Skipped(r, this) || (startAtRoot && !IsRootIn(directory)) ==>
        w.rows == old(w.rows)
      ensures info.role != "deleted" && !Skipped(r, this) && startAtRoot && IsRootIn(directory) ==>
        w.rows == old(w.rows + TreeRows(r, this, 0, nodes)) + [Separator]
      ensures info.role != "deleted" && !Skipped(r, this) && !startAtRoot ==>
        w.rows == old(w.rows + TreeRows(r, this, 0, nodes))
    {
      if info.role == "deleted" || Skipped(r, this) {
        return;
      }
      if startAtRoot && IsRootIn(directory) {
        var _ := WriteSubtree(r, w, true, nodes);
      } else if !startAtRoot {
        var _ := WriteSubtree(r, w, false, nodes);
      }
    }

    /** `PrintContactInterestToCSV`: the chain of organizers, each one level
        deeper, then one line per interested contact looked up in the
        directory; a contact missing from the directory raises `KeyError`
        after the lines before it are written. */
    method PrintContactInterest(directory: map<string, Contact>, organizers: seq<Contact>, entries: seq<InterestEntry>,
                                interest: string, w: Writer, startAtRoot: bool) returns (err: Option<Error>)
      modifies w
      ensures info.role == "deleted" || (startAtRoot && !IsRootIn(directory)) ==> w.rows == old(w.rows) && err == None
      ensures info.role != "deleted" && (!startAtRoot || IsRootIn(directory)) ==>
        var k := FirstMissing(directory, entries);
        && w.rows == old(w.rows) + ChainRows(organizers, 0) + InterestRows(directory, entries[..k], interest, 3 * |organizers|)
                     + (if startAtRoot && k == |entries| then [Separator] else [])
        && err == if k < |entries| then Some(KeyError(entries[k].eid)) else None
    {
      if info.role == "deleted" || (startAtRoot && !IsRootIn(directory)) {
        return None;
      }
      var chain, depth := PrintChain(organizers);
      var rows;
      rows, err := PrintInterested(directory, entries, interest, depth);
      w.WriteRows(chain + rows);
      if startAtRoot && err.None? {
        w.WriteRow(Separator);
      }
    }
  }

  // ---------------------------------------------------------------------------
  // The organizer graph

  ghost predicate AllBelow(os: seq<Organizer>, bound: nat, nodes: set<Organizer>)
  {
    forall i :: 0 <= i < |os| ==> os[i] in nodes && os[i].rank < bound
  }

  /** Every organizer that `n` refers to (child, rate bucket member, inactive
      child) is one of `nodes` and ranks below `n`. */
  ghost predicate Grounded(n: Organizer, nodes: set<Organizer>)
    reads n
  {
    && n.Valid()
    && (forall k :: k in n.children.entries ==> n.children.entries[k] in nodes && n.children.entries[k].rank < n.rank)
    && (forall k :: k in n.anyBuckets.entries ==> AllBelow(n.anyBuckets.entries[k], n.rank, nodes))
    && (forall k :: k in n.activeBuckets.entries ==> AllBelow(n.activeBuckets.entries[k], n.rank, nodes))
    && AllBelow(n.inactive, n.rank, nodes)
  }

  /** `nodes` is closed under references and free of cycles. */
  ghost predicate Closed(nodes: set<Organizer>)
    reads nodes
  {
    && (forall n :: n in nodes ==> n.Valid())
    && (forall n {:trigger Grounded(n, nodes)} :: n in nodes ==> Grounded(n, nodes))
  }

  /** The child organizers in dict order. */
  function ChildList(o: Organizer): seq<Organizer>
    reads o
    requires o.Valid()
  {
    o.children.Values()
  }

  lemma ChildListBelow(o: Organizer, nodes: set<Organizer>)
    requires Closed(nodes) && o in nodes
    ensures AllBelow(ChildList(o), o.rank, nodes)
  {
    assert Grounded(o, nodes);
  }

  /** The members of the buckets under the keys `ks`, bucket after bucket. */
  function Flatten(b: ODict<int, seq<Organizer>>, ks: seq<int>): seq<Organizer>
    requires forall i :: 0 <= i < |ks| ==> ks[i] in b.entries
  {
    if ks == [] then [] else Flatten(b, ks[..|ks| - 1]) + b.entries[ks[|ks| - 1]]
  }

  lemma SortedKeysPresent(b: ODict<int, seq<Organizer>>)
    requires b.Valid()
    ensures forall i :: 0 <= i < |SortDesc(b.keys)| ==> SortDesc(b.keys)[i] in b.entries
  {
    var s := SortDesc(b.keys);
    forall i | 0 <= i < |s|
      ensures s[i] in b.entries
    {
      assert s[i] in multiset(s);
    }
  }

  /** The rate buckets walked from the highest rate down. */
  function Ranked(b: ODict<int, seq<Organizer>>): seq<Organizer>
    requires b.Valid()
  {
    SortedKeysPresent(b);
    Flatten(b, SortDesc(b.keys))
  }

  lemma {:induction false} FlattenBelow(b: ODict<int, seq<Organizer>>, ks: seq<int>, bound: nat, nodes: set<Organizer>)
    requires forall i :: 0 <= i < |ks| ==> ks[i] in b.entries
    requires forall k :: k in b.entries ==> AllBelow(b.entries[k], bound, nodes)
    ensures AllBelow(Flatten(b, ks), bound, nodes)
  {
    if ks != [] {
      FlattenBelow(b, ks[..|ks| - 1], bound, nodes);
    }
  }

  lemma RankedBelow(b: ODict<int, seq<Organizer>>, bound: nat, nodes: set<Organizer>)
    requires b.Valid()
    requires forall k :: k in b.entries ==> AllBelow(b.entries[k], bound, nodes)
    ensures AllBelow(Ranked(b), bound, nodes)
  {
    SortedKeysPresent(b);
    FlattenBelow(b, SortDesc(b.keys), bound, nodes);
  }

  // ---------------------------------------------------------------------------
  // Counts over the tree

  /** `GetOrganizerCount`: the child organizers plus, recursively, theirs. */
  ghost function OrganizerCount(o: Organizer, nodes: set<Organizer>): nat
    requires Closed(nodes) && o in nodes
    reads nodes
    decreases o.rank, 1, 0
  {
    ChildListBelow(o, nodes);
    |o.children.keys| + OrganizerCounts(ChildList(o), o.rank, nodes)
  }

  ghost function OrganizerCounts(os: seq<Organizer>, bound: nat, nodes: set<Organizer>): nat
    requires Closed(nodes) && AllBelow(os, bound, nodes)
    reads nodes
    decreases bound, 0, |os|
  {
    if os == [] then 0
    else OrganizerCounts(os[..|os| - 1], bound, nodes) + OrganizerCount(os[|os| - 1], nodes)
  }

  /** `GetContactCount`: the direct contacts plus, recursively, those of the
      child organizers. */
  ghost function ContactCount(o: Organizer, nodes: set<Organizer>): nat
    requires Closed(nodes) && o in nodes
    reads nodes
    decreases o.rank, 1, 0
  {
    ChildListBelow(o, nodes);
    o.DirectContactCount() + ContactCounts(ChildList(o), o.rank, nodes)
  }

  ghost function ContactCounts(os: seq<Organizer>, bound: nat, nodes: set<Organizer>): nat
    requires Closed(nodes) && AllBelow(os, bound, nodes)
    reads nodes
    decreases bound, 0, |os|
  {
    if os == [] then 0
    else ContactCounts(os[..|os| - 1], bound, nodes) + ContactCount(os[|os| - 1], nodes)
  }

  // ---------------------------------------------------------------------------
  // Contact lists of the reports

  /** `m_bRespondedToAnyCta == 1`; contacts of the CSV dump carry no flags. */
  predicate Responded(c: Contact)
  {
    c.flags.Some? && c.flags.value.respondedAny == 1
  }

  /** The contacts that did not respond to any CTA, in dict order. */
  function Unactivated(cs: seq<Contact>): (r: seq<Contact>)
    ensures |r| <= |cs|
  {
    if cs == [] then []
    else Unactivated(cs[..|cs| - 1]) + if Responded(cs[|cs| - 1]) then [] else [cs[|cs| - 1]]
  }

  /** The unactivated list holds exactly the contacts that did not respond. */
  lemma {:induction false} UnactivatedMembers(cs: seq<Contact>)
    ensures forall c :: c in Unactivated(cs) <==> c in cs && !Responded(c)
  {
    if cs != [] {
      var init, last := cs[..|cs| - 1], cs[|cs| - 1];
      assert cs == init + [last];
      UnactivatedMembers(init);
    }
  }

  /** `sum(results)` of the six classifier counters. */
  function SlotSum(r: seq<int>): int
    requires |r| == 6
  {
    r[0] + r[1] + r[2] + r[3] + r[4] + r[5]
  }

  /** The contact is counted as matched to the VAN. */
  predicate IsMatched(c: Contact)
  {
    Classify(c) == VanMatched
  }

  /** The contact is counted as bad data: not matched, and some test of the
      classifier fails. */
  predicate IsBadData(c: Contact)
  {
    Classify(c) != VanMatched && Classify(c) != Clean
  }

  /** The loop's tests on the six counters decide the buckets: the first
      counter marks a matched contact, and a non-zero sum of an unmatched
      one marks bad data; a contact that is neither is the one the
      classifier passes as clean. */
  lemma CountersDecide(c: Contact)
    ensures IsMatched(c) <==> FilterContactForValidData(c)[0] > 0
    ensures IsBadData(c) <==> !(FilterContactForValidData(c)[0] > 0) && SlotSum(FilterContactForValidData(c)) > 0
    ensures !IsMatched(c) && !IsBadData(c) <==> Classify(c) == Clean
  {
    var r := FilterContactForValidData(c);
    if Classify(c) != Clean {
      assert r != [0, 0, 0, 0, 0, 0];
      assert r[0] == 1 || r[1] == 1 || r[2] == 1 || r[3] == 1 || r[4] == 1 || r[5] == 1;
    }
  }

  /** The contacts listed by the unmatched-contacts report: neither matched
      to the VAN nor flagged as bad data. */
  function Unmatched(cs: seq<Contact>): (r: seq<Contact>)
    ensures |r| <= |cs|
  {
    if cs == [] then []
    else Unmatched(cs[..|cs| - 1]) + if IsMatched(cs[|cs| - 1]) || IsBadData(cs[|cs| - 1]) then [] else [cs[|cs| - 1]]
  }

  /** The unmatched list holds exactly the contacts that are neither matched
      nor bad data, that is, those the classifier passes as clean. */
  lemma {:induction false} UnmatchedMembers(cs: seq<Contact>)
    ensures forall c :: c in Unmatched(cs) <==> c in cs && Classify(c) == Clean
  {
    if cs != [] {
      var init, last := cs[..|cs| - 1], cs[|cs| - 1];
      assert cs == init + [last];
      UnmatchedMembers(init);
    }
  }

  function CountMatched(cs: seq<Contact>): nat
  {
    if cs == [] then 0
    else CountMatched(cs[..|cs| - 1]) + if IsMatched(cs[|cs| - 1]) then 1 else 0
  }

  function CountBad(cs: seq<Contact>): nat
  {
    if cs == [] then 0
    else CountBad(cs[..|cs| - 1]) + if IsBadData(cs[|cs| - 1]) then 1 else 0
  }

  lemma TriageStep(cs: seq<Contact>, c: Contact)
    ensures Unmatched(cs + [c]) == Unmatched(cs) + if IsMatched(c) || IsBadData(c) then [] else [c]
    ensures CountBad(cs + [c]) == CountBad(cs) + if IsBadData(c) then 1 else 0
    ensures CountMatched(cs + [c]) == CountMatched(cs) + if IsMatched(c) then 1 else 0
  {
    assert (cs + [c])[..|cs|] == cs;
  }

  /** The classifying loop over a list of contacts: a matched contact is
      counted as matched, a bad one as bad, and any other is listed. */
  method TriageAll(cs: seq<Contact>) returns (unmatched: seq<Contact>, bad: nat, matched: nat)
    ensures unmatched == Unmatched(cs)
    ensures bad == CountBad(cs) && matched == CountMatched(cs)
  {
    unmatched, bad, matched := [], 0, 0;
    var i := 0;
    while i < |cs|
      invariant 0 <= i <= |cs|
      invariant unmatched == Unmatched(cs[..i])
      invariant bad == CountBad(cs[..i]) && matched == CountMatched(cs[..i])
    {
      TriageAt(cs, i);
      CountersDecide(cs[i]);
      var results := FilterContactForValidData(cs[i]);
      if results[0] > 0 {
        matched := matched + 1;
      } else if SlotSum(results) > 0 {
        bad := bad + 1;
      } else {
        unmatched := unmatched + [cs[i]];
      }
      i := i + 1;
    }
    assert cs[..|cs|] == cs;
  }

  lemma TriageAt(cs: seq<Contact>, i: nat)
    requires i < |cs|
    ensures Unmatched(cs[..i + 1]) == Unmatched(cs[..i]) + if IsMatched(cs[i]) || IsBadData(cs[i]) then [] else [cs[i]]
    ensures CountBad(cs[..i + 1]) == CountBad(cs[..i]) + if IsBadData(cs[i]) then 1 else 0
    ensures CountMatched(cs[..i + 1]) == CountMatched(cs[..i]) + if IsMatched(cs[i]) then 1 else 0
  {
    assert cs[..i + 1] == cs[..i] + [cs[i]];
    TriageStep(cs[..i], cs[i]);
  }

  /** Every direct contact is counted once: as matched, as bad data, or
      listed as unmatched. */
  lemma {:induction false} TriageTotal(cs: seq<Contact>)
    ensures CountMatched(cs) + CountBad(cs) + |Unmatched(cs)| == |cs|
  {
    if cs != [] {
      TriageTotal(cs[..|cs| - 1]);
    }
  }

  function FullNames(cs: seq<Contact>): (r: seq<string>)
    ensures |r| == |cs|
    ensures forall i :: 0 <= i < |cs| ==> r[i] == cs[i].fullName
  {
    seq(|cs|, i requires 0 <= i < |cs| => cs[i].fullName)
  }

  // ---------------------------------------------------------------------------
  // Report rows

  datatype Field = Text(text: string) | Number(value: int)

  /** One line of a report: an organizer line at a depth (the source indents
      it by that many `-`), a contact line below one, or the separator row
      written after a whole tree. */
  datatype Row =
    | Node(depth: nat, fields: seq<Field>)
    | Item(depth: nat, fields: seq<Field>)
    | Separator

  /** The output file or CSV writer: the rows written so far. */
  class Writer {
    var rows: seq<Row>

    constructor ()
      ensures rows == []
    {
      rows := [];
    }

    method WriteRow(row: Row)
      modifies this
      ensures rows == old(rows) + [row]
    {
      rows := rows + [row];
    }

    method WriteRows(more: seq<Row>)
      modifies this
      ensures rows == old(rows) + more
    {
      rows := rows + more;
    }
  }

  /** The tree walks: the text tree (`__PrintTree`), the organizer tree CSV,
      the unactivated-contacts CSV, the unmatched-contacts CSV, and the
      activation-rate CSV with its login cutoff and clock. */
  datatype Report =
    | TextTree(showVoters: bool)
    | TreeCsv
    | UnactivatedCsv
    | UnmatchedCsv
    | ActivationCsv(loginCutoff: int, elapsedDays: int -> int)

  function TextNodeRow(o: Organizer, depth: nat, organizerCount: nat, contactCount: nat): Row
    reads o
  {
    Node(depth, [Text(o.Name()), Text(o.info.phone), Number(organizerCount), Number(contactCount),
                 Number(o.RateActive()), Text(o.ActivationString())])
  }

  function CsvNodeRow(o: Organizer, depth: nat): Row
  {
    Node(depth, [Text(o.info.firstName), Text(o.info.lastName), Text(o.info.eid), Text(o.info.phone)])
  }

  function UnactivatedNodeRow(o: Organizer, depth: nat, unactivated: nat): Row
    reads o
  {
    Node(depth, [Text(o.info.firstName), Text(o.info.lastName), Text(o.info.eid), Text(VanIdOf(o.info)),
                 Text(o.info.phone), Text(o.info.regionName), Number(unactivated), Number(o.activatedActive),
                 Number(o.activatedCurrent), Number(o.DirectContactCount()), Number(o.RateAny())])
  }

  function UnmatchedNodeRow(o: Organizer, depth: nat, unmatched: nat, bad: nat, matched: nat): Row
    reads o
  {
    Node(depth, [Text(o.info.firstName), Text(o.info.lastName), Text(o.info.eid), Text(VanIdOf(o.info)),
                 Text(o.info.phone), Number(unmatched), Number(bad), Number(matched),
                 Number(o.DirectContactCount())])
  }

  function ActivationNodeRow(o: Organizer, depth: nat): Row
    reads o
  {
    Node(depth, [Text(o.info.firstName), Text(o.info.lastName), Text(o.info.eid), Text(o.info.phone),
                 Text(o.info.regionName), Number(o.activatedAny), Number(o.DirectContactCount()),
                 Number(o.RateAny())])
  }

  /** The line of an organizer in report `r`. */
  ghost function NodeRow(r: Report, o: Organizer, depth: nat, nodes: set<Organizer>): Row
    requires Closed(nodes) && o in nodes
    reads nodes
  {
    var cs := o.contacts.Values();
    match r
    case TextTree(_) => TextNodeRow(o, depth, OrganizerCount(o, nodes), ContactCount(o, nodes))
    case TreeCsv => CsvNodeRow(o, depth)
    case UnactivatedCsv => UnactivatedNodeRow(o, depth, |Unactivated(cs)|)
    case UnmatchedCsv => UnmatchedNodeRow(o, depth, |Unmatched(cs)|, CountBad(cs), CountMatched(cs))
    case ActivationCsv(_, _) => ActivationNodeRow(o, depth)
  }

  /** The line of a direct contact, numbered from 1 in the CSV reports. */
  function ContactRow(r: Report, c: Contact, index: nat, depth: nat): Row
  {
    match r
    case TextTree(_) => Item(depth, [Text(ContactName(c)), Text(c.phone)])
    case UnactivatedCsv =>
      Item(depth, [Number(index), Text(c.firstName), Text(c.lastName), Text(c.eid), Text(VanIdOf(c)),
                   Text(c.phone), Text(c.regionName)])
    case _ =>
      Item(depth, [Number(index), Text(c.firstName), Text(c.lastName), Text(c.eid), Text(VanIdOf(c)),
                   Text(c.phone)])
  }

  /** The direct contacts listed under an organizer: all of them in the text
      tree when voters are shown, the unactivated or unmatched ones in those
      CSVs, none otherwise. */
  function Listed(r: Report, o: Organizer): seq<Contact>
    reads o
    requires o.Valid()
  {
    match r
    case TextTree(showVoters) => if showVoters then o.contacts.Values() else []
    case UnactivatedCsv => Unactivated(o.contacts.Values())
    case UnmatchedCsv => Unmatched(o.contacts.Values())
    case _ => []
  }

  /** The contact lines under an organizer: one per listed contact. */
  function ContactRows(r: Report, cs: seq<Contact>, depth: nat): (rows: seq<Row>)
    ensures |rows| == |cs|
  {
    seq(|cs|, i requires 0 <= i < |cs| => ContactRow(r, cs[i], i + 1, depth))
  }

  /** The contact lines are all contact lines, at the depth given. */
  lemma ContactRowsItems(r: Report, cs: seq<Contact>, depth: nat)
    ensures forall row :: row in ContactRows(r, cs, depth) ==> row.Item? && row.depth == depth
  {
    var rows := ContactRows(r, cs, depth);
    forall row | row in rows
      ensures row.Item? && row.depth == depth
    {
      var i :| 0 <= i < |rows| && rows[i] == row;
    }
  }

  /** The order in which a walk visits the child organizers: by descending
      rate key (active-CTA rate for the text tree, any-CTA rate for the
      activation CSV) and then the inactive list, or else the child dict in
      insertion order. */
  function ChildOrder(r: Report, o: Organizer): seq<Organizer>
    reads o
    requires o.Valid()
  {
    match r
    case TextTree(_) => Ranked(o.activeBuckets) + o.inactive
    case ActivationCsv(_, _) => Ranked(o.anyBuckets) + o.inactive
    case _ => ChildList(o)
  }

  lemma ChildOrderBelow(r: Report, o: Organizer, nodes: set<Organizer>)
    requires Closed(nodes) && o in nodes
    ensures AllBelow(ChildOrder(r, o), o.rank, nodes)
  {
    assert Grounded(o, nodes);
    if r.TextTree? {
      RankedBelow(o.activeBuckets, o.rank, nodes);
    } else if r.ActivationCsv? {
      RankedBelow(o.anyBuckets, o.rank, nodes);
    }
  }

  /** The activation CSV leaves out an organizer, and everything below it,
      who last logged in longer ago than the cutoff. */
  predicate Skipped(r: Report, o: Organizer)
  {
    r.ActivationCsv? && o.DaysSinceLastLogin(r.elapsedDays) > r.loginCutoff
  }

  /** The rows a walk writes for the subtree of `o`: its own line, the
      subtrees of its children one level deeper, then its listed contacts. */
  ghost function TreeRows(r: Report, o: Organizer, depth: nat, nodes: set<Organizer>): seq<Row>
    requires Closed(nodes) && o in nodes
    reads nodes
    decreases o.rank, 1, 0
  {
    if Skipped(r, o) then []
    else
      ChildOrderBelow(r, o, nodes);
      [NodeRow(r, o, depth, nodes)]
      + ForestRows(r, ChildOrder(r, o), depth + 3, o.rank, nodes)
      + ContactRows(r, Listed(r, o), depth + 3)
  }

  ghost function ForestRows(r: Report, os: seq<Organizer>, depth: nat, bound: nat, nodes: set<Organizer>): seq<Row>
    requires Closed(nodes) && AllBelow(os, bound, nodes)
    reads nodes
    decreases bound, 0, |os|
  {
    if os == [] then []
    else ForestRows(r, os[..|os| - 1], depth, bound, nodes) + TreeRows(r, os[|os| - 1], depth, nodes)
  }

  /** What the unactivated-contacts walk asserts of every organizer: each
      direct contact's any-CTA flag is 0 or 1, and the unactivated ones number
      the direct contacts minus the activated count. */
  ghost predicate FlagsReady(n: Organizer)
    reads n
  {
    && n.Valid()
    && (forall k :: k in n.contacts.entries ==>
          n.contacts.entries[k].flags.Some? &&
          (n.contacts.entries[k].flags.value.respondedAny == 0 || n.contacts.entries[k].flags.value.respondedAny == 1))
    && |Unactivated(n.contacts.Values())| == n.DirectContactCount() - n.activatedAny
  }

  ghost predicate Ready(r: Report, nodes: set<Organizer>)
    reads nodes
  {
    r.UnactivatedCsv? ==> forall n {:trigger FlagsReady(n)} :: n in nodes ==> FlagsReady(n)
  }

  // ---------------------------------------------------------------------------
  // The walks

  /** Walks the organizers `os` in order, each with its whole subtree. */
  method PrintForest(r: Report, os: seq<Organizer>, depth: nat, ghost bound: nat, ghost nodes: set<Organizer>) returns (rows: seq<Row>)
    requires Closed(nodes) && AllBelow(os, bound, nodes) && Ready(r, nodes)
    ensures rows == ForestRows(r, os, depth, bound, nodes)
    decreases bound, 1
  {
    rows := [];
    var i := 0;
    while i < |os|
      invariant 0 <= i <= |os|
      invariant rows == ForestRows(r, os[..i], depth, bound, nodes)
    {
      rows := PrintNextTree(r, os, i, depth, bound, nodes, rows);
      i := i + 1;
    }
    assert os[..|os|] == os;
  }

  /** One pass of the forest loop: the rows of the `i`-th organizer's
      subtree follow those of the organizers before it. */
  method PrintNextTree(r: Report, os: seq<Organizer>, i: nat, depth: nat, ghost bound: nat, ghost nodes: set<Organizer>, rows: seq<Row>)
    returns (rows': seq<Row>)
    requires Closed(nodes) && AllBelow(os, bound, nodes) && Ready(r, nodes) && i < |os|
    requires AllBelow(os[..i], bound, nodes) && rows == ForestRows(r, os[..i], depth, bound, nodes)
    ensures AllBelow(os[..i + 1], bound, nodes) && rows' == ForestRows(r, os[..i + 1], depth, bound, nodes)
    decreases bound, 0
  {
    ForestStep(r, os, i, depth, bound, nodes);
    var more, _ := os[i].PrintSubtree(r, depth, nodes);
    rows' := rows + more;
  }

  /** One step of the forest loop: the next tree's rows follow those of the
      trees before it. */
  lemma ForestStep(r: Report, os: seq<Organizer>, i: nat, depth: nat, bound: nat, nodes: set<Organizer>)
    requires Closed(nodes) && AllBelow(os, bound, nodes) && i < |os|
    ensures AllBelow(os[..i], bound, nodes) && AllBelow(os[..i + 1], bound, nodes)
    ensures ForestRows(r, os[..i + 1], depth, bound, nodes) == ForestRows(r, os[..i], depth, bound, nodes) + TreeRows(r, os[i], depth, nodes)
  {
    assert os[..i + 1][..i] == os[..i];
  }

  /** The closing loop of a walk: one line per listed contact, numbered from
      1; the text tree collects the contacts' full names as it goes. */
  method PrintContacts(r: Report, listed: seq<Contact>, depth: nat) returns (rows: seq<Row>, names: seq<string>)
    ensures rows == ContactRows(r, listed, depth)
    ensures names == if r.TextTree? then FullNames(listed) else []
  {
    rows, names := [], [];
    var i := 0;
    while i < |listed|
      invariant 0 <= i <= |listed|
      invariant rows == ContactRows(r, listed[..i], depth)
      invariant names == if r.TextTree? then FullNames(listed[..i]) else []
    {
      rows := rows + [ContactRow(r, listed[i], i + 1, depth)];
      if r.TextTree? {
        names := names + [listed[i].fullName];
      }
      i := i + 1;
    }
    assert listed[..|listed|] == listed;
  }

  // ---------------------------------------------------------------------------
  // The contact-interest report

  /** One interested contact: its EID and the two further columns written
      after the interest. */
  datatype InterestEntry = InterestEntry(eid: string, extra1: string, extra2: string)

  function ChainRow(c: Contact, depth: nat): Row
  {
    Node(depth, [Text(c.firstName), Text(c.lastName), Text(c.eid), Text(c.phone), Text(" "), Text(" "), Text(" ")])
  }

  /** The organizer lines of the interest report, the i-th at depth 3 i
      below the start. */
  function ChainRows(organizers: seq<Contact>, depth: nat): (rows: seq<Row>)
    ensures |rows| == |organizers|
    ensures forall i :: 0 <= i < |rows| ==> rows[i].Node? && rows[i].depth == depth + 3 * i
    ensures forall i :: 0 <= i < |rows| ==> |rows[i].fields| == 7 && rows[i].fields[2] == Text(organizers[i].eid)
  {
    seq(|organizers|, i requires 0 <= i < |organizers| => ChainRow(organizers[i], depth + 3 * i))
  }

  /** The position of the first entry whose EID is not in the directory, or
      the number of entries when there is none. */
  function FirstMissing(directory: map<string, Contact>, entries: seq<InterestEntry>): (k: nat)
    ensures k <= |entries|
    ensures forall j :: 0 <= j < k ==> entries[j].eid in directory
    ensures k < |entries| ==> entries[k].eid !in directory
  {
    if entries == [] then 0
    else if entries[0].eid !in directory then 0
    else 1 + FirstMissing(directory, entries[1..])
  }

  function InterestRow(directory: map<string, Contact>, e: InterestEntry, interest: string, depth: nat): Row
    requires e.eid in directory
  {
    var c := directory[e.eid];
    Item(depth, [Text(c.firstName), Text(c.lastName), Text(c.eid), Text(c.phone), Text(interest), Text(e.extra1), Text(e.extra2)])
  }

  /** The contact lines of the interest report, all at one depth, each
      showing the directory's record for its entry. */
  function InterestRows(directory: map<string, Contact>, entries: seq<InterestEntry>, interest: string, depth: nat): (rows: seq<Row>)
    requires forall j :: 0 <= j < |entries| ==> entries[j].eid in directory
    ensures |rows| == |entries|
    ensures forall i :: 0 <= i < |rows| ==> rows[i].Item? && rows[i].depth == depth
    ensures forall i :: 0 <= i < |rows| ==> |rows[i].fields| == 7 && rows[i].fields[2] == Text(directory[entries[i].eid].eid)
  {
    seq(|entries|, i requires 0 <= i < |entries| => InterestRow(directory, entries[i], interest, depth))
  }

  /** The first loop of `__PrintContactInterestToCSV`. */
  method PrintChain(organizers: seq<Contact>) returns (rows: seq<Row>, depth: nat)
    ensures rows == ChainRows(organizers, 0) && depth == 3 * |organizers|
  {
    rows, depth := [], 0;
    var i := 0;
    while i < |organizers|
      invariant 0 <= i <= |organizers|
      invariant rows == ChainRows(organizers[..i], 0) && depth == 3 * i
    {
      rows := rows + [ChainRow(organizers[i], depth)];
      depth := depth + 3;
      i := i + 1;
    }
    assert organizers[..|organizers|] == organizers;
  }

  /** The second loop of `__PrintContactInterestToCSV`, up to the first
      entry missing from the directory. */
  method PrintInterested(directory: map<string, Contact>, entries: seq<InterestEntry>, interest: string, depth: nat)
    returns (rows: seq<Row>, err: Option<Error>)
    ensures var k := FirstMissing(directory, entries);
      && rows == InterestRows(directory, entries[..k], interest, depth)
      && err == if k < |entries| then Some(KeyError(entries[k].eid)) else None
  {
    rows := [];
    var i := 0;
    while i < |entries|
      invariant 0 <= i <= |entries|
      invariant forall j :: 0 <= j < i ==> entries[j].eid in directory
      invariant rows == InterestRows(directory, entries[..i], interest, depth)
    {
      if entries[i].eid !in directory {
        FirstMissingAt(directory, entries, i);
        return rows, Some(KeyError(entries[i].eid));
      }
      rows := rows + [InterestRow(directory, entries[i], interest, depth)];
      i := i + 1;
    }
    FirstMissingAt(directory, entries, |entries|);
    assert entries[..|entries|] == entries;
    err := None;
  }

  /** The first missing entry is the one the loop stops at. */
  lemma {:induction false} FirstMissingAt(directory: map<string, Contact>, entries: seq<InterestEntry>, i: nat)
    requires i <= |entries|
    requires forall j :: 0 <= j < i ==> entries[j].eid in directory
    requires i < |entries| ==> entries[i].eid !in directory
    ensures FirstMissing(directory, entries) == i
  {
    if i > 0 {
      FirstMissingAt(directory, entries[1..], i - 1);
    }
  }

  // ---------------------------------------------------------------------------
  // Properties of the walks

  /** No separator inside a walk, and no line above its starting depth. */
  predicate Below(rows: seq<Row>, depth: nat)
  {
    forall row :: row in rows ==> !row.Separator? && row.depth >= depth
  }

  /** Each level of the walk is 3 deeper than its parent, so every line of a
      subtree sits at or below the subtree's depth, the first at exactly it. */
  lemma {:induction false} TreeRowsBelow(r: Report, o: Organizer, depth: nat, nodes: set<Organizer>)
    requires Closed(nodes) && o in nodes
    ensures Below(TreeRows(r, o, depth, nodes), depth)
    ensures !Skipped(r, o) ==> TreeRows(r, o, depth, nodes)[0] == NodeRow(r, o, depth, nodes)
    ensures !Skipped(r, o) ==> NodeRow(r, o, depth, nodes).depth == depth
    decreases o.rank, 1
  {
    if !Skipped(r, o) {
      ChildOrderBelow(r, o, nodes);
      ForestRowsBelow(r, ChildOrder(r, o), depth + 3, o.rank, nodes);
      ContactRowsItems(r, Listed(r, o), depth + 3);
    }
  }

  lemma {:induction false} ForestRowsBelow(r: Report, os: seq<Organizer>, depth: nat, bound: nat, nodes: set<Organizer>)
    requires Closed(nodes) && AllBelow(os, bound, nodes)
    ensures Below(ForestRows(r, os, depth, bound, nodes), depth)
    decreases bound, 0, |os|
  {
    if os != [] {
      ForestRowsBelow(r, os[..|os| - 1], depth, bound, nodes);
      TreeRowsBelow(r, os[|os| - 1], depth, nodes);
    }
  }

  /** Every organizer of a forest that the walk does not skip gets its line,
      whatever its role: the `deleted` test is made only at the entry point. */
  lemma {:induction false} ForestRowsListEach(r: Report, os: seq<Organizer>, depth: nat, bound: nat, nodes: set<Organizer>)
    requires Closed(nodes) && AllBelow(os, bound, nodes)
    ensures forall o :: o in os && !Skipped(r, o) ==> o in nodes && NodeRow(r, o, depth, nodes) in ForestRows(r, os, depth, bound, nodes)
    decreases |os|
  {
    if os != [] {
      var init, last := os[..|os| - 1], os[|os| - 1];
      assert os == init + [last];
      ForestRowsListEach(r, init, depth, bound, nodes);
      TreeRowsBelow(r, last, depth, nodes);
    }
  }

  /** The organizer-tree CSV has one line per organizer of the subtree: the
      organizer itself and every organizer counted by `GetOrganizerCount`. */
  lemma {:induction false} TreeCsvRowCount(o: Organizer, depth: nat, nodes: set<Organizer>)
    requires Closed(nodes) && o in nodes
    ensures |TreeRows(TreeCsv, o, depth, nodes)| == 1 + OrganizerCount(o, nodes)
    decreases o.rank, 1
  {
    ChildListBelow(o, nodes);
    ForestCsvRowCount(ChildList(o), depth + 3, o.rank, nodes);
  }

  lemma {:induction false} ForestCsvRowCount(os: seq<Organizer>, depth: nat, bound: nat, nodes: set<Organizer>)
    requires Closed(nodes) && AllBelow(os, bound, nodes)
    ensures |ForestRows(TreeCsv, os, depth, bound, nodes)| == |os| + OrganizerCounts(os, bound, nodes)
    decreases bound, 0, |os|
  {
    if os != [] {
      ForestCsvRowCount(os[..|os| - 1], depth, bound, nodes);
      TreeCsvRowCount(os[|os| - 1], depth, nodes);
    }
  }

  /** Without voters the text tree holds organizer lines only; the voters of
      every level appear only when `showVoters` is set. */
  lemma {:induction false} TextTreeWithoutVoters(o: Organizer, depth: nat, nodes: set<Organizer>)
    requires Closed(nodes) && o in nodes
    ensures forall row :: row in TreeRows(TextTree(false), o, depth, nodes) ==> row.Node?
    decreases o.rank, 1
  {
    ChildOrderBelow(TextTree(false), o, nodes);
    TextForestWithoutVoters(ChildOrder(TextTree(false), o), depth + 3, o.rank, nodes);
  }

  lemma {:induction false} TextForestWithoutVoters(os: seq<Organizer>, depth: nat, bound: nat, nodes: set<Organizer>)
    requires Closed(nodes) && AllBelow(os, bound, nodes)
    ensures forall row :: row in ForestRows(TextTree(false), os, depth, bound, nodes) ==> row.Node?
    decreases bound, 0, |os|
  {
    if os != [] {
      TextForestWithoutVoters(os[..|os| - 1], depth, bound, nodes);
      TextTreeWithoutVoters(os[|os| - 1], depth, nodes);
    }
  }
}
