/** Calls to action (CTAs): a survey of questions sent to contacts, and the
    tally of the answers that come back. Each question keeps a histogram of
    answers keyed by option label. */
module EmpowerCta {
  import opened Wrappers
  import opened Text
  import opened OrderedDicts

  // ---------------------------------------------------------------------------
  // Splitting question text into lines of a few words

  /** Consecutive groups of `n` words joined by single spaces; the last group
      may be shorter. */
  function Chunks(words: seq<string>, n: nat): seq<string>
    requires n > 0 || words == []
    decreases |words|
  {
    if words == [] then []
    else if |words| <= n then [Join(words, " ")]
    else [Join(words[..n], " ")] + Chunks(words[n..], n)
  }

  /** `split_n_chunks`: the words of `s` in groups of `n`. With `n == 0` the
      generator never advances once there is a word, so it ends only when
      `n` is positive or `s` has no words. */
  method SplitNChunks(s: string, n: nat) returns (chunks: seq<string>)
    requires n > 0 || Words(s) == []
    ensures chunks == Chunks(Words(s), n)
  {
    var words := Words(s);
    chunks := [];
    var pos := 0;
    while pos < |words|
      invariant pos <= |words|
      invariant chunks + Chunks(words[pos..], n) == Chunks(words, n)
      decreases |words| - pos
    {
      var end := if pos + n <= |words| then pos + n else |words|;
      ChunksStep(words, pos, end, n);
      chunks := chunks + [Join(words[pos..end], " ")];
      pos := end;
    }
    assert words[pos..] == [];
  }

  /** One step of `SplitNChunks`: the chunks from `pos` on are the group that
      ends at `end` followed by the chunks from `end` on. */
  lemma ChunksStep(words: seq<string>, pos: nat, end: nat, n: nat)
    requires n > 0 && pos < |words|
    requires end == if pos + n <= |words| then pos + n else |words|
    ensures Chunks(words[pos..], n) == [Join(words[pos..end], " ")] + Chunks(words[end..], n)
  {
    var w := words[pos..];
    if |w| <= n {
      assert words[pos..end] == w;
      assert words[end..] == [];
    } else {
      assert words[pos..end] == w[..n];
      assert w[n..] == words[end..];
    }
  }

  /** The chunks put back together with spaces give the words joined with
      spaces: no word is lost, repeated or reordered. */
  lemma {:induction false} ChunksRejoin(words: seq<string>, n: nat)
    requires n > 0 || words == []
    ensures Join(Chunks(words, n), " ") == Join(words, " ")
    decreases |words|
  {
    if |words| > n {
      var rest := words[n..];
      ChunksRejoin(rest, n);
      var tail := Chunks(rest, n);
      assert tail != [];
      JoinCons(Join(words[..n], " "), tail, " ");
      assert words == words[..n] + rest;
      JoinAppend(words[..n], rest, " ");
    }
  }

  // ---------------------------------------------------------------------------
  // Question histograms

  /** The option histogram a question starts with. */
  function InitialOptions(labels: seq<string>): (d: ODict<string, int>)
    ensures d.Valid()
  {
    if labels == [] then Empty()
    else
      var d := InitialOptions(labels[..|labels| - 1]);
      var last := labels[|labels| - 1];
      if last == "" then d else d.Put(last, 0)
  }

  /** A question's options are its non-empty labels. */
  lemma {:induction false} InitialOptionsKeys(labels: seq<string>)
    ensures forall k :: k in InitialOptions(labels).entries <==> k != "" && k in labels
  {
    if labels != [] {
      var init, last := labels[..|labels| - 1], labels[|labels| - 1];
      InitialOptionsKeys(init);
      var d := InitialOptions(init);
      assert InitialOptions(labels) == if last == "" then d else d.Put(last, 0);
      forall k
        ensures k in InitialOptions(labels).entries <==> k != "" && k in labels
      {
        assert labels == init + [last];
        assert k in labels <==> k in init || k == last;
      }
    }
  }

  /** Every option starts with count 0, so a new question has no answers
      counted. */
  lemma {:induction false} InitialOptionsZero(labels: seq<string>)
    ensures forall k :: k in InitialOptions(labels).entries ==> InitialOptions(labels).entries[k] == 0
    ensures Sum(InitialOptions(labels)) == 0
  {
    InitialOptionsZeroCounts(labels);
    SumZero(InitialOptions(labels));
  }

  lemma {:induction false} InitialOptionsZeroCounts(labels: seq<string>)
    ensures forall k :: k in InitialOptions(labels).entries ==> InitialOptions(labels).entries[k] == 0
  {
    if labels != [] {
      InitialOptionsZeroCounts(labels[..|labels| - 1]);
    }
  }

  /** The index of the first label whose alphanumerics, lower-cased, contain
      `compressed`; -1 when there is none. */
  function FirstMatch(labels: seq<string>, compressed: string): (r: int)
    ensures -1 <= r < |labels|
    ensures r >= 0 ==> Contains(AlnumLower(labels[r]), compressed)
    ensures forall j :: 0 <= j < |labels| && (r == -1 || j < r) ==> !Contains(AlnumLower(labels[j]), compressed)
  {
    if labels == [] then -1
    else if Contains(AlnumLower(labels[0]), compressed) then 0
    else
      var r := FirstMatch(labels[1..], compressed);
      if r == -1 then -1 else r + 1
  }

  /** One non-empty answer added to a histogram: the first option (in
      declared order) whose normal form contains the answer's normal form is
      incremented; if there is none, the raw answer becomes a new option with
      count 1. */
  function Tally(options: ODict<string, int>, answer: string): (r: ODict<string, int>)
    requires options.Valid()
    ensures r.Valid()
  {
    var i := FirstMatch(options.keys, AlnumLower(answer));
    if i >= 0 then options.Put(options.keys[i], options.entries[options.keys[i]] + 1)
    else options.Put(answer, 1)
  }

  /** A tally counts exactly one answer more. */
  lemma TallyCountsOne(options: ODict<string, int>, answer: string)
    requires options.Valid()
    ensures Sum(Tally(options, answer)) == Sum(options) + 1
  {
    var i := FirstMatch(options.keys, AlnumLower(answer));
    if i >= 0 {
      var opt := options.keys[i];
      assert Tally(options, answer) == options.Put(opt, options.entries[opt] + 1);
      SumPut(options, opt, options.entries[opt] + 1);
    } else {
      assert Tally(options, answer) == options.Put(answer, 1);
      UnmatchedAnswerIsNew(options, answer);
      SumPut(options, answer, 1);
    }
  }

  /** A matched answer changes only the count of the option it matched, and
      the options keep their order. */
  lemma TallyMatched(options: ODict<string, int>, answer: string)
    requires options.Valid()
    requires FirstMatch(options.keys, AlnumLower(answer)) >= 0
    ensures var opt := options.keys[FirstMatch(options.keys, AlnumLower(answer))];
            && Tally(options, answer).keys == options.keys
            && Tally(options, answer).entries == options.entries[opt := options.entries[opt] + 1]
  {
  }

  /** An unmatched answer becomes the last option, with count 1, and no other
      count changes. */
  lemma TallyUnmatched(options: ODict<string, int>, answer: string)
    requires options.Valid()
    requires FirstMatch(options.keys, AlnumLower(answer)) == -1
    ensures answer !in options.entries
    ensures Tally(options, answer).keys == options.keys + [answer]
    ensures Tally(options, answer).entries == options.entries[answer := 1]
  {
    UnmatchedAnswerIsNew(options, answer);
  }

  /** An answer that matches no option is not itself an option label, so it
      starts a new entry rather than overwriting one. */
  lemma UnmatchedAnswerIsNew(options: ODict<string, int>, answer: string)
    requires options.Valid()
    requires FirstMatch(options.keys, AlnumLower(answer)) == -1
    ensures answer !in options.entries
  {
    var c := AlnumLower(answer);
    assert OccursAt(c, c, 0);
    ContainsAt(c, c, 0);
  }

  /** An answer with no letters or digits (such as `" / "`) matches the first
      option of a question that has one. */
  lemma PunctuationMatchesFirstOption(options: ODict<string, int>, answer: string)
    requires options.Valid() && |options.keys| > 0
    requires KeepAlnum(answer) == []
    ensures FirstMatch(options.keys, AlnumLower(answer)) == 0
    ensures Tally(options, answer).entries == options.entries[options.keys[0] := options.entries[options.keys[0]] + 1]
  {
    var opt := AlnumLower(options.keys[0]);
    assert AlnumLower(answer) == [];
    assert OccursAt(opt, [], 0);
    ContainsAt(opt, [], 0);
  }

  /** The state of one question's tally. */
  datatype Histogram = Histogram(options: ODict<string, int>, nulls: nat)

  /** What one CTA result does to the question with key `key`: nothing when
      the result has no answer for it, a null when the answer is `None` or
      empty, otherwise a tally. */
  function Record(h: Histogram, answers: map<string, Option<string>>, key: string): Histogram
    requires h.options.Valid()
  {
    if key !in answers then h
    else if Truthy(answers[key]) then Histogram(Tally(h.options, answers[key].value), h.nulls)
    else Histogram(h.options, h.nulls + 1)
  }

  /** Recording a result counts every answer the result holds for the
      question exactly once, either as an option count or as a null, and
      leaves a question without an answer untouched. */
  lemma RecordCountsEachAnswerOnce(h: Histogram, answers: map<string, Option<string>>, key: string)
    requires h.options.Valid()
    ensures Record(h, answers, key).options.Valid()
    ensures Sum(Record(h, answers, key).options) + Record(h, answers, key).nulls
         == Sum(h.options) + h.nulls + (if key in answers then 1 else 0)
    ensures key !in answers ==> Record(h, answers, key) == h
    ensures key in answers && !Truthy(answers[key]) ==>
              Record(h, answers, key) == Histogram(h.options, h.nulls + 1)
    ensures key in answers && Truthy(answers[key]) ==> Record(h, answers, key).nulls == h.nulls
  {
    if key in answers && Truthy(answers[key]) {
      TallyCountsOne(h.options, answers[key].value);
    }
  }

  /** The fields of a question of a CTA record. */
  datatype QuestionRecord = QuestionRecord(
    kind: string,
    key: string,
    text: string,
    options: seq<string>,
    values: Option<seq<string>>,
    surveyQuestionVanId: Option<int>)

  class Question {
    const kind: string
    const key: string
    const text: string
    const values: seq<string>
    const surveyQuestionVanId: int
    var options: ODict<string, int>
    var nullAnswers: nat

    ghost predicate Valid()
      reads this
    {
      options.Valid()
    }

    function Hist(): Histogram
      reads this
    {
      Histogram(options, nullAnswers)
    }

    /** The state the constructor leaves a question built from `rec` in. */
    ghost predicate InitialFor(rec: QuestionRecord)
      reads this
    {
      && Valid()
      && kind == rec.kind && key == rec.key && text == rec.text
      && options == InitialOptions(rec.options) && nullAnswers == 0
    }

    constructor (rec: QuestionRecord)
      ensures InitialFor(rec)
      ensures values == (if rec.values.Some? then rec.values.value else [])
      ensures surveyQuestionVanId == (if rec.surveyQuestionVanId.Some? then rec.surveyQuestionVanId.value else 0)
    {
      kind := rec.kind;
      key := rec.key;
      text := rec.text;
      var opts: ODict<string, int> := Empty();
      var i := 0;
      while i < |rec.options|
        invariant 0 <= i <= |rec.options|
        invariant opts == InitialOptions(rec.options[..i])
      {
        assert rec.options[..i + 1][..i] == rec.options[..i];
        if rec.options[i] != "" {
          opts := opts.Put(rec.options[i], 0);
        }
        i := i + 1;
      }
      assert rec.options[..|rec.options|] == rec.options;
      options := opts;
      values := if rec.values.Some? then rec.values.value else [];
      surveyQuestionVanId := if rec.surveyQuestionVanId.Some? then rec.surveyQuestionVanId.value else 0;
      nullAnswers := 0;
    }

    /** `GetNumAnswers`: the sum of the option counts (nulls excluded). */
    method GetNumAnswers() returns (n: int)
      requires Valid()
      ensures n == Sum(options)
    {
      n := 0;
      var keys := options.keys;
      var i := 0;
      while i < |keys|
        invariant 0 <= i <= |keys|
        invariant n == SumAt(keys[..i], options.entries)
      {
        assert keys[..i + 1][..i] == keys[..i];
        n := n + options.entries[keys[i]];
        i := i + 1;
      }
      assert keys[..|keys|] == keys;
    }

    /** The option-matching loop of `AddCtaResult` for one non-empty answer. */
    method AddAnswer(answer: string)
      requires Valid()
      modifies this
      ensures Valid()
      ensures options == Tally(old(options), answer)
      ensures nullAnswers == old(nullAnswers)
    {
      var compressed := AlnumLower(answer);
      var keys := options.keys;
      var i := 0;
      while i < |keys|
        invariant 0 <= i <= |keys|
        invariant forall j :: 0 <= j < i ==> !Contains(AlnumLower(keys[j]), compressed)
      {
        var opt := keys[i];
        if Contains(AlnumLower(opt), compressed) {
          assert FirstMatch(keys, compressed) == i;
          options := options.Put(opt, options.entries[opt] + 1);
          return;
        }
        i := i + 1;
      }
      options := options.Put(answer, 1);
    }

    /** A `None` or empty answer only bumps the null counter. */
    method AddNullAnswer()
      modifies this
      ensures options == old(options)
      ensures nullAnswers == old(nullAnswers) + 1
    {
      nullAnswers := nullAnswers + 1;
    }
  }

  // ---------------------------------------------------------------------------
  // CTA results and the CTA itself

  /** The fields of one CTA result record. */
  datatype ResultRecord = ResultRecord(
    profileEid: string,
    ctaId: int,
    contactedMts: int,
    answers: map<string, Option<string>>,
    notes: Option<string>)

  datatype CtaResult = CtaResult(
    profileEid: string,
    ctaId: int,
    contactedMts: int,
    answers: map<string, Option<string>>,
    notes: string)

  /** `CtaResult(record)`: the profile EID without surrounding whitespace and
      the notes defaulting to the empty string. */
  function ResultFromRecord(rec: ResultRecord): (r: CtaResult)
    ensures r.profileEid == Strip(rec.profileEid)
    ensures r.notes == "" <==> !Truthy(rec.notes)
    ensures r.notes != "" ==> rec.notes == Some(r.notes)
    ensures r.answers == rec.answers && r.ctaId == rec.ctaId
  {
    CtaResult(Strip(rec.profileEid), rec.ctaId, rec.contactedMts, rec.answers,
              if Truthy(rec.notes) then rec.notes.value else "")
  }

  /** The fields of a CTA record. */
  datatype CtaRecord = CtaRecord(
    id: int,
    name: string,
    instructionsHtml: string,
    createdMts: int,
    organizationId: int,
    regionIds: Option<seq<int>>,
    isIntroCta: bool,
    questions: seq<QuestionRecord>)

  /** The question dict built from the records: a key that occurs twice keeps
      its first position and the later record. */
  function QuestionTable(qs: seq<QuestionRecord>): (d: ODict<string, QuestionRecord>)
    ensures d.Valid()
    ensures forall k :: k in d.entries ==> d.entries[k].key == k
  {
    if qs == [] then Empty()
    else QuestionTable(qs[..|qs| - 1]).Put(qs[|qs| - 1].key, qs[|qs| - 1])
  }

  /** Every record's key is in the table, and nothing else is. */
  lemma {:induction false} QuestionTableKeys(qs: seq<QuestionRecord>)
    ensures forall k :: k in QuestionTable(qs).entries <==> exists i :: 0 <= i < |qs| && qs[i].key == k
  {
    if qs != [] {
      var init := qs[..|qs| - 1];
      QuestionTableKeys(init);
      forall k
        ensures k in QuestionTable(qs).entries <==> exists i :: 0 <= i < |qs| && qs[i].key == k
      {
        if k in QuestionTable(init).entries {
          var i :| 0 <= i < |init| && init[i].key == k;
          assert qs[i].key == k;
        }
        if exists i :: 0 <= i < |qs| && qs[i].key == k {
          var i :| 0 <= i < |qs| && qs[i].key == k;
          if i < |init| {
            assert init[i].key == k;
          }
        }
      }
    }
  }

  /** The question objects a question dict refers to. */
  ghost function Objects(qs: ODict<string, Question>): set<Question>
  {
    set k | k in qs.entries :: qs.entries[k]
  }

  /** A question dict lists each key once, maps distinct keys to distinct
      question objects, and every histogram in it is well formed. */
  ghost predicate WellFormed(qs: ODict<string, Question>)
    reads Objects(qs)
  {
    && qs.Valid()
    && (forall k1, k2 :: k1 in qs.entries && k2 in qs.entries && k1 != k2 ==> qs.entries[k1] != qs.entries[k2])
    && (forall k :: k in qs.entries ==> qs.entries[k].Valid())
  }

  /** The question objects built for a question table: one per key, each in
      its initial state for the record stored under that key, no two keys
      sharing an object. */
  ghost predicate FreshTable(qs: ODict<string, Question>, table: ODict<string, QuestionRecord>)
    reads Objects(qs)
  {
    && WellFormed(qs)
    && qs.keys == table.keys
    && (forall k :: k in qs.entries ==> k in table.entries && qs.entries[k].InitialFor(table.entries[k]))
  }

  /** Storing a new question object under a key keeps the table fresh. */
  lemma FreshTablePut(qs: ODict<string, Question>, table: ODict<string, QuestionRecord>, rec: QuestionRecord, q: Question)
    requires FreshTable(qs, table) && table.Valid()
    requires q.InitialFor(rec) && q !in Objects(qs)
    ensures FreshTable(qs.Put(rec.key, q), table.Put(rec.key, rec))
  {
    DistinctPut(qs, rec.key, q);
    var qs', table' := qs.Put(rec.key, q), table.Put(rec.key, rec);
    forall k | k in qs'.entries
      ensures k in table'.entries && qs'.entries[k].InitialFor(table'.entries[k])
    {
      if k != rec.key {
        assert qs'.entries[k] == qs.entries[k] && table'.entries[k] == table.entries[k];
      }
    }
  }

  /** Storing an object that the dict does not hold yet keeps distinct keys
      on distinct objects. */
  lemma DistinctPut(qs: ODict<string, Question>, key: string, q: Question)
    requires qs.Valid() && q !in Objects(qs)
    requires forall k1, k2 :: k1 in qs.entries && k2 in qs.entries && k1 != k2 ==> qs.entries[k1] != qs.entries[k2]
    ensures forall k1, k2 :: k1 in qs.Put(key, q).entries && k2 in qs.Put(key, q).entries && k1 != k2 ==>
              qs.Put(key, q).entries[k1] != qs.Put(key, q).entries[k2]
  {
    var qs' := qs.Put(key, q);
    forall k1, k2 | k1 in qs'.entries && k2 in qs'.entries && k1 != k2
      ensures qs'.entries[k1] != qs'.entries[k2]
    {
      if k1 == key {
        assert qs.entries[k2] in Objects(qs);
      } else if k2 == key {
        assert qs.entries[k1] in Objects(qs);
      }
    }
  }

  /** What `AddCtaResult` does to one question. */
  method RecordInto(q: Question, answers: map<string, Option<string>>, key: string)
    requires q.Valid()
    modifies q
    ensures q.Valid()
    ensures q.Hist() == Record(old(q.Hist()), answers, key)
  {
    if key in answers {
      var answer := answers[key];
      if Truthy(answer) {
        q.AddAnswer(answer.value);
      } else {
        q.AddNullAnswer();
      }
    }
  }

  /** The dict comprehension of the `Cta` constructor: a new question object
      per record, stored under the record's key. */
  method NewQuestions(recs: seq<QuestionRecord>) returns (qs: ODict<string, Question>)
    ensures FreshTable(qs, QuestionTable(recs))
    ensures forall k :: k in qs.entries ==> fresh(qs.entries[k])
  {
    qs := Empty();
    var i := 0;
    while i < |recs|
      invariant 0 <= i <= |recs|
      invariant FreshTable(qs, QuestionTable(recs[..i]))
      invariant forall k :: k in qs.entries ==> fresh(qs.entries[k])
    {
      var q := new Question(recs[i]);
      assert recs[..i + 1][..i] == recs[..i];
      assert QuestionTable(recs[..i + 1]) == QuestionTable(recs[..i]).Put(recs[i].key, recs[i]);
      FreshTablePut(qs, QuestionTable(recs[..i]), recs[i], q);
      qs := qs.Put(recs[i].key, q);
      i := i + 1;
    }
    assert recs[..|recs|] == recs;
  }

  /** The loop of `AddCtaResult` over the question objects, in dict order:
      each question records its own key's answer. */
  method RecordAll(qs: seq<Question>, keys: seq<string>, answers: map<string, Option<string>>)
    requires |qs| == |keys|
    requires forall j1, j2 :: 0 <= j1 < j2 < |qs| ==> qs[j1] != qs[j2]
    requires forall j :: 0 <= j < |qs| ==> qs[j].options.Valid()
    modifies set j | 0 <= j < |qs| :: qs[j]
    ensures forall j :: 0 <= j < |qs| ==> qs[j].options.Valid()
    ensures forall j :: 0 <= j < |qs| ==> qs[j].Hist() == Record(old(qs[j].Hist()), answers, keys[j])
  {
    var i := 0;
    while i < |qs|
      invariant 0 <= i <= |qs|
      invariant forall j :: 0 <= j < |qs| ==> qs[j].options.Valid()
      invariant forall j :: 0 <= j < i ==> qs[j].Hist() == Record(old(qs[j].Hist()), answers, keys[j])
      invariant forall j :: i <= j < |qs| ==> qs[j].Hist() == old(qs[j].Hist())
    {
      RecordInto(qs[i], answers, keys[i]);
      i := i + 1;
    }
  }

  class Cta {
    const id: int
    const name: string
    const instructionsHtml: string
    const createdMts: int
    const organizationId: int
    const regionIds: seq<int>
    const isIntroCta: bool
    const questions: ODict<string, Question>
    var results: seq<CtaResult>

    ghost function Questions(): set<Question>
    {
      Objects(questions)
    }

    ghost predicate Valid()
      reads this, Questions()
    {
      WellFormed(questions)
    }

    constructor (rec: CtaRecord)
      ensures Valid() && forall k :: k in questions.entries ==> fresh(questions.entries[k])
      ensures id == rec.id && name == rec.name && isIntroCta == rec.isIntroCta
      ensures regionIds == (if rec.regionIds.Some? then rec.regionIds.value else [])
      ensures FreshTable(questions, QuestionTable(rec.questions))
      ensures results == []
    {
      var qs := NewQuestions(rec.questions);
      id := rec.id;
      name := rec.name;
      instructionsHtml := rec.instructionsHtml;
      createdMts := rec.createdMts;
      organizationId := rec.organizationId;
      regionIds := if rec.regionIds.Some? then rec.regionIds.value else [];
      isIntroCta := rec.isIntroCta;
      questions := qs;
      results := [];
    }

    /** `GetNumCtaResults` */
    function NumResults(): nat
      reads this
    {
      |results|
    }

    /** `AddCtaResult`: keeps the result and records its answer to every
        question of the CTA. */
    method AddCtaResult(r: CtaResult)
      requires Valid()
      modifies this, Questions()
      ensures Valid()
      ensures results == old(results) + [r]
      ensures forall k :: k in questions.entries ==>
                questions.entries[k].Hist() == Record(old(questions.entries[k].Hist()), r.answers, k)
    {
      results := results + [r];
      var qs := questions.Values();
      assert forall j1, j2 :: 0 <= j1 < j2 < |qs| ==> qs[j1] != qs[j2];
      RecordAll(qs, questions.keys, r.answers);
      forall k | k in questions.entries
        ensures questions.entries[k].Valid()
        ensures questions.entries[k].Hist() == Record(old(questions.entries[k].Hist()), r.answers, k)
      {
        var j :| 0 <= j < |qs| && questions.keys[j] == k;
      }
    }
  }
}
