/** The daily sentiment aggregation of lambda_function_analysis.py: one pass
    over the day's `news_sentiment` documents that fills the label counts,
    the per-day trend buckets, the source counter and the text list, then
    the trend, keyword and volume summaries built from them. The time-window
    query before it and the DynamoDB write after it are not part of this
    model: `Analyze` takes the fetched documents and returns the record that
    would be stored. */
module Aggregation {
  import opened Wrappers
  import opened Exceptions
  import opened Counters
  import opened KeywordAnalysis
  import opened Strings
  import Ingestion

  type Doc = Ingestion.Doc

  /** The three keys of `sentiment_counts`. */
  datatype Label = Positive | Neutral | Negative

  const LabelNames: seq<string> := ["POSITIVE", "NEUTRAL", "NEGATIVE"]

  /** The key `sentiment_counts[s]` finds, if any. */
  function LabelOf(s: string): (r: Option<Label>)
    ensures r.Some? <==> s in LabelNames
    ensures r.Some? ==> Name(r.value) == s
  {
    if s == "POSITIVE" then Some(Positive)
    else if s == "NEUTRAL" then Some(Neutral)
    else if s == "NEGATIVE" then Some(Negative)
    else None
  }

  function Name(l: Label): string
  {
    match l
    case Positive => "POSITIVE"
    case Neutral => "NEUTRAL"
    case Negative => "NEGATIVE"
  }

  /** `{"POSITIVE": p, "NEUTRAL": u, "NEGATIVE": n}`. */
  datatype LabelCounts = LabelCounts(positive: nat, neutral: nat, negative: nat)

  const NoCounts := LabelCounts(0, 0, 0)

  function Add(c: LabelCounts, l: Label): LabelCounts
  {
    match l
    case Positive => c.(positive := c.positive + 1)
    case Neutral => c.(neutral := c.neutral + 1)
    case Negative => c.(negative := c.negative + 1)
  }

  function Sum(c: LabelCounts): nat
  {
    c.positive + c.neutral + c.negative
  }

  /** A value of `sentiment_trends`: the label counts and `"count"`. */
  datatype DayCounts = DayCounts(labels: LabelCounts, count: nat)

  /** The bucket of a date's first document. */
  function NewBucket(l: Label): DayCounts
  {
    DayCounts(Add(NoCounts, l), 1)
  }

  /** A bucket after one more document with label `l`. */
  function Bumped(e: DayCounts, l: Label): DayCounts
  {
    DayCounts(Add(e.labels, l), e.count + 1)
  }

  /** The trend buckets: dates in first-seen order (a `defaultdict`). */
  type Days = seq<(string, DayCounts)>

  /** `doc['timestamp'][:10]`, the `YYYY-MM-DD` part. */
  function Day(doc: Doc): string
  {
    if |doc.timestamp| <= 10 then doc.timestamp else doc.timestamp[..10]
  }

  /** `sentiment_trends[date][label] += 1` and `["count"] += 1`, a new date
      starting from zero counts. */
  function AddToDay(days: Days, date: string, l: Label): Days
  {
    if |days| == 0 then [(date, NewBucket(l))]
    else if days[0].0 == date then [(date, Bumped(days[0].1, l))] + days[1..]
    else [days[0]] + AddToDay(days[1..], date, l)
  }

  /** A date not seen before gets a new bucket at the end. */
  lemma {:induction false} AddToNewDay(days: Days, date: string, l: Label)
    requires IndexOf(Keys(days), date).None?
    ensures AddToDay(days, date, l) == days + [(date, NewBucket(l))]
  {
    if |days| > 0 {
      var t := days[1..];
      assert Keys(t) == Keys(days)[1..];
      AddToNewDay(t, date, l);
      assert [days[0]] + (t + [(date, NewBucket(l))]) == days + [(date, NewBucket(l))];
    }
  }

  lemma IndexOfTail(days: Days, date: string, i: nat)
    requires IndexOf(Keys(days), date) == Some(i) && days[0].0 != date
    ensures i > 0 && IndexOf(Keys(days[1..]), date) == Some(i - 1)
  {
    assert Keys(days)[0] == days[0].0;
    assert Keys(days[1..]) == Keys(days)[1..];
  }

  /** A date seen before has its bucket updated in place. */
  lemma {:induction false} AddToKnownDay(days: Days, date: string, l: Label, i: nat)
    requires IndexOf(Keys(days), date) == Some(i)
    ensures AddToDay(days, date, l) == days[i := (date, Bumped(days[i].1, l))]
  {
    assert Keys(days)[0] == days[0].0;
    if days[0].0 != date {
      var t := days[1..];
      IndexOfTail(days, date, i);
      AddToKnownDay(t, date, l, i - 1);
      ConsUpdate(days, i, (date, Bumped(days[i].1, l)));
    }
  }

  /** `doc.get('title', '') + " " + doc.get('description', '')` for a
      document whose title is a string. */
  function TextOf(doc: Doc): string
    requires doc.title.Some?
  {
    doc.title.value + " " + doc.description
  }

  /** The exception a document raises in the loop, if any: an unknown label
      fails at `sentiment_counts[...] += 1`, and a `null` title fails when
      it is concatenated with a string. */
  function Fault(doc: Doc): (r: Option<Failure>)
    ensures r.None? <==> LabelOf(doc.sentiment).Some? && doc.title.Some?
  {
    if LabelOf(doc.sentiment).None? then Some(KeyError(doc.sentiment))
    else if doc.title.None? then Some(TypeError("title"))
    else None
  }

  /** The accumulators of the loop. */
  datatype Tallies = Tallies(counts: LabelCounts, days: Days, sources: Counter<Option<string>>, texts: seq<string>)

  const NoTallies := Tallies(NoCounts, [], [], [])

  /** One pass of the loop body. */
  function Absorb(t: Tallies, doc: Doc): Result<Tallies, Failure>
  {
    match LabelOf(doc.sentiment)
    case None => Err(KeyError(doc.sentiment))
    case Some(l) =>
      if doc.title.None? then Err(TypeError("title"))
      else Ok(Tallies(Add(t.counts, l), AddToDay(t.days, Day(doc), l), Bump(t.sources, doc.source), t.texts + [TextOf(doc)]))
  }

  /** The accumulators after the loop over `docs`, or the exception that
      ended it. */
  function Tally(docs: seq<Doc>): Result<Tallies, Failure>
  {
    if |docs| == 0 then Ok(NoTallies)
    else
      var t :- Tally(docs[..|docs| - 1]);
      Absorb(t, docs[|docs| - 1])
  }

  /** An entry of `trends`. */
  datatype Trend = Trend(date: string, positive: nat, neutral: nat, negative: nat, total: nat)

  /** An entry of `sentiment_vs_volume`. */
  datatype VolumePoint = VolumePoint(date: string, volume: nat, averagePositiveScore: real)

  /** The record written to the `AnalysedNewsSentiment` table, without the
      date stamps and the constant asset name. */
  datatype Summary = Summary(distribution: LabelCounts, trends: seq<Trend>, topSources: Counter<Option<string>>,
                             topKeywords: Counter<string>, sentimentVsVolume: seq<VolumePoint>)

  function TrendOf(e: (string, DayCounts)): Trend
  {
    Trend(e.0, e.1.labels.positive, e.1.labels.neutral, e.1.labels.negative, e.1.count)
  }

  function VolumeOf(e: (string, DayCounts)): VolumePoint
  {
    VolumePoint(e.0, e.1.count, if e.1.count > 0 then e.1.labels.positive as real / e.1.count as real else 0.0)
  }

  /** The number of entries `most_common` is asked for. */
  const Top: nat := 10

  function Trends(days: Days): (r: seq<Trend>)
    ensures |r| == |days| && forall k :: 0 <= k < |days| ==> r[k] == TrendOf(days[k])
  {
    seq(|days|, k requires 0 <= k < |days| => TrendOf(days[k]))
  }

  function Volumes(days: Days): (r: seq<VolumePoint>)
    ensures |r| == |days| && forall k :: 0 <= k < |days| ==> r[k] == VolumeOf(days[k])
  {
    seq(|days|, k requires 0 <= k < |days| => VolumeOf(days[k]))
  }

  function Finish(t: Tallies): Summary
  {
    Summary(t.counts, Trends(t.days), MostCommon(t.sources, Top), MostCommon(KeywordCounts(Join(t.texts)), Top),
            Volumes(t.days))
  }

  /** What the handler computes from the day's documents. */
  function Summarize(docs: seq<Doc>): Result<Summary, Failure>
  {
    var t :- Tally(docs);
    Ok(Finish(t))
  }

  lemma {:induction false} TallyErrorStays(docs: seq<Doc>, i: nat)
    requires i <= |docs| && Tally(docs[..i]).Err?
    ensures Tally(docs) == Tally(docs[..i])
    decreases |docs| - i
  {
    if i < |docs| {
      assert docs[..i + 1][..i] == docs[..i];
      TallyErrorStays(docs, i + 1);
    } else {
      assert docs[..i] == docs;
    }
  }

  /** The loop that turns the trend buckets into the `trends` list. */
  method TrendEntries(days: Days) returns (trends: seq<Trend>)
    ensures trends == Trends(days)
  {
    trends := [];
    for j := 0 to |days|
      invariant |trends| == j && forall k :: 0 <= k < j ==> trends[k] == TrendOf(days[k])
    {
      var counts := days[j].1;
      trends := trends + [Trend(days[j].0, counts.labels.positive, counts.labels.neutral, counts.labels.negative, counts.count)];
    }
  }

  /** The loop that builds `sentiment_vs_volume` from the trend buckets. */
  method VolumeEntries(days: Days) returns (volume: seq<VolumePoint>)
    ensures volume == Volumes(days)
  {
    volume := [];
    for j := 0 to |days|
      invariant |volume| == j && forall k :: 0 <= k < j ==> volume[k] == VolumeOf(days[k])
    {
      var counts := days[j].1;
      var average := if counts.count > 0 then counts.labels.positive as real / counts.count as real else 0.0;
      volume := volume + [VolumePoint(days[j].0, counts.count, average)];
    }
  }

  /** The handler's computation, step by step as the source does it. */
  method Analyze(docs: seq<Doc>) returns (r: Result<Summary, Failure>)
    ensures r == Summarize(docs)
  {
    var counts := NoCounts;
    var days: Days := [];
    var sources: Counter<Option<string>> := [];
    var texts: seq<string> := [];
    for i := 0 to |docs|
      invariant Tally(docs[..i]) == Ok(Tallies(counts, days, sources, texts))
    {
      var doc := docs[i];
      assert docs[..i + 1][..i] == docs[..i];
      var known := LabelOf(doc.sentiment);
      if known.None? {
        TallyErrorStays(docs, i + 1);
        return Err(KeyError(doc.sentiment));
      }
      counts := Add(counts, known.value);
      days := AddToDay(days, Day(doc), known.value);
      sources := Bump(sources, doc.source);
      if doc.title.None? {
        TallyErrorStays(docs, i + 1);
        return Err(TypeError("title"));
      }
      texts := texts + [doc.title.value + " " + doc.description];
    }
    assert docs[..|docs|] == docs;

    var trends := TrendEntries(days);
    var topKeywords := MostCommon(KeywordCounts(Join(texts)), Top);
    var volume := VolumeEntries(days);
    r := Ok(Summary(counts, trends, MostCommon(sources, Top), topKeywords, volume));
  }

  // ---------------------------------------------------------------------
  // What the summary means, stated against the documents.

  function Sentiments(docs: seq<Doc>): (r: seq<string>)
    ensures |r| == |docs| && forall i :: 0 <= i < |docs| ==> r[i] == docs[i].sentiment
  {
    seq(|docs|, i requires 0 <= i < |docs| => docs[i].sentiment)
  }

  function DayList(docs: seq<Doc>): (r: seq<string>)
    ensures |r| == |docs| && forall i :: 0 <= i < |docs| ==> r[i] == Day(docs[i])
  {
    seq(|docs|, i requires 0 <= i < |docs| => Day(docs[i]))
  }

  function DaySentiments(docs: seq<Doc>): (r: seq<(string, string)>)
    ensures |r| == |docs| && forall i :: 0 <= i < |docs| ==> r[i] == (Day(docs[i]), docs[i].sentiment)
  {
    seq(|docs|, i requires 0 <= i < |docs| => (Day(docs[i]), docs[i].sentiment))
  }

  function Sources(docs: seq<Doc>): (r: seq<Option<string>>)
    ensures |r| == |docs| && forall i :: 0 <= i < |docs| ==> r[i] == docs[i].source
  {
    seq(|docs|, i requires 0 <= i < |docs| => docs[i].source)
  }

  /** The occurrences of `(day, label)` among the documents. */
  function Occurrences(docs: seq<Doc>, date: string): LabelCounts
  {
    var m := multiset(DaySentiments(docs));
    LabelCounts(m[(date, "POSITIVE")], m[(date, "NEUTRAL")], m[(date, "NEGATIVE")])
  }

  lemma TallyLast(docs: seq<Doc>)
    requires |docs| > 0
    ensures var prev := Tally(docs[..|docs| - 1]);
            Tally(docs) == if prev.Err? then Err(prev.error) else Absorb(prev.value, docs[|docs| - 1])
  {
  }

  lemma AbsorbFault(t: Tallies, doc: Doc)
    ensures Absorb(t, doc).Err? <==> Fault(doc).Some?
    ensures Absorb(t, doc).Err? ==> Absorb(t, doc).error == Fault(doc).value
  {
  }

  /** One more document: an earlier failure stands, otherwise the new
      document's fault, if any, is the failure. */
  lemma TallyStep(docs: seq<Doc>)
    requires |docs| > 0
    ensures var prev := Tally(docs[..|docs| - 1]);
            (prev.Err? ==> Tally(docs) == Err(prev.error)) &&
            (prev.Ok? ==> (Tally(docs).Err? <==> Fault(docs[|docs| - 1]).Some?) &&
                          (Tally(docs).Err? ==> Tally(docs).error == Fault(docs[|docs| - 1]).value))
  {
    TallyLast(docs);
    var prev := Tally(docs[..|docs| - 1]);
    if prev.Ok? {
      AbsorbFault(prev.value, docs[|docs| - 1]);
    }
  }

  lemma {:induction false} TallyOkIff(docs: seq<Doc>)
    ensures Tally(docs).Ok? <==> forall i :: 0 <= i < |docs| ==> Fault(docs[i]).None?
  {
    if |docs| > 0 {
      var prev := docs[..|docs| - 1];
      TallyOkIff(prev);
      TallyStep(docs);
      OkIffStep(docs, prev, Tally(prev), Tally(docs));
    }
  }

  /** The step of `TallyOkIff`, stated over the two results alone. */
  lemma OkIffStep(docs: seq<Doc>, prefix: seq<Doc>, prev: Result<Tallies, Failure>, result: Result<Tallies, Failure>)
    requires |docs| > 0 && prefix == docs[..|docs| - 1]
    requires prev.Err? ==> result == Err(prev.error)
    requires prev.Ok? ==> (result.Err? <==> Fault(docs[|docs| - 1]).Some?)
    requires prev.Ok? <==> forall i :: 0 <= i < |prefix| ==> Fault(prefix[i]).None?
    ensures result.Ok? <==> forall i :: 0 <= i < |docs| ==> Fault(docs[i]).None?
  {
    assert forall k :: 0 <= k < |prefix| ==> prefix[k] == docs[k];
  }

  lemma {:induction false} TallyFirstFault(docs: seq<Doc>)
    ensures Tally(docs).Err? ==>
      exists i :: 0 <= i < |docs| && Fault(docs[i]) == Some(Tally(docs).error) &&
        forall k :: 0 <= k < i ==> Fault(docs[k]).None?
  {
    if |docs| > 0 {
      var prev := docs[..|docs| - 1];
      TallyStep(docs);
      TallyOkIff(prev);
      TallyFirstFault(prev);
      FirstFaultStep(docs, prev, Tally(prev), Tally(docs));
    }
  }

  /** The step of `TallyFirstFault`, stated over the two results alone. */
  lemma FirstFaultStep(docs: seq<Doc>, prefix: seq<Doc>, prev: Result<Tallies, Failure>, result: Result<Tallies, Failure>)
    requires |docs| > 0 && prefix == docs[..|docs| - 1]
    requires prev.Err? ==> result == Err(prev.error)
    requires prev.Ok? ==> (result.Err? <==> Fault(docs[|docs| - 1]).Some?) &&
                          (result.Err? ==> result.error == Fault(docs[|docs| - 1]).value)
    requires prev.Ok? <==> forall i :: 0 <= i < |prefix| ==> Fault(prefix[i]).None?
    requires prev.Err? ==>
      exists i :: 0 <= i < |prefix| && Fault(prefix[i]) == Some(prev.error) &&
        forall k :: 0 <= k < i ==> Fault(prefix[k]).None?
    ensures result.Err? ==>
      exists i :: 0 <= i < |docs| && Fault(docs[i]) == Some(result.error) &&
        forall k :: 0 <= k < i ==> Fault(docs[k]).None?
  {
    var n := |docs| - 1;
    if prev.Err? {
      var i :| 0 <= i < n && Fault(prefix[i]) == Some(prev.error) &&
        forall k :: 0 <= k < i ==> Fault(prefix[k]).None?;
      assert forall k :: 0 <= k <= i ==> prefix[k] == docs[k];
    } else if result.Err? {
      assert forall k :: 0 <= k < n ==> prefix[k] == docs[k];
      assert Fault(docs[n]) == Some(result.error);
    }
  }

  /** The loop stops at the first document that raises, with that document's
      exception, and runs to the end exactly when none does. */
  lemma TallyFault(docs: seq<Doc>)
    ensures Tally(docs).Ok? <==> forall i :: 0 <= i < |docs| ==> Fault(docs[i]).None?
    ensures Tally(docs).Err? ==>
      exists i :: 0 <= i < |docs| && Fault(docs[i]) == Some(Tally(docs).error) &&
        forall k :: 0 <= k < i ==> Fault(docs[k]).None?
  {
    TallyOkIff(docs);
    TallyFirstFault(docs);
  }

  /** Only the three listed labels are accepted, and the run fails on the
      first document with another label or with a `null` title. */
  lemma SummarizeFails(docs: seq<Doc>)
    ensures Summarize(docs).Ok? <==>
      forall i :: 0 <= i < |docs| ==> docs[i].sentiment in LabelNames && docs[i].title.Some?
    ensures Summarize(docs).Err? ==>
      exists i :: 0 <= i < |docs| && Fault(docs[i]) == Some(Summarize(docs).error) &&
        forall k :: 0 <= k < i ==> Fault(docs[k]).None?
  {
    TallyFault(docs);
  }

  predicate TextsMatch(texts: seq<string>, docs: seq<Doc>)
  {
    |texts| == |docs| && forall i :: 0 <= i < |docs| ==> docs[i].title.Some? && texts[i] == TextOf(docs[i])
  }

  /** The trend buckets list the same dates as `c`, the counter of the
      days seen so far, and every document's day is among them. */
  predicate DayKeysMatch(days: Days, c: Counter<string>, docs: seq<Doc>)
  {
    Keys(days) == Keys(c) && forall k :: 0 <= k < |docs| ==> Day(docs[k]) in Keys(c)
  }

  /** Each bucket's `"count"` is the day's count in `c` and the sum of its
      label counts. */
  predicate DayTotalsMatch(days: Days, c: Counter<string>)
  {
    |days| == |c| &&
    (forall i :: 0 <= i < |days| ==> days[i].1.count == c[i].1) &&
    (forall i :: 0 <= i < |days| ==> Sum(days[i].1.labels) == days[i].1.count)
  }

  /** Each bucket's label counts are the occurrences of that day and label. */
  predicate DayLabelsMatch(days: Days, docs: seq<Doc>)
  {
    forall i :: 0 <= i < |days| ==> days[i].1.labels == Occurrences(docs, days[i].0)
  }

  predicate DaysMatch(days: Days, c: Counter<string>, docs: seq<Doc>)
  {
    DayKeysMatch(days, c, docs) && DayTotalsMatch(days, c) && DayLabelsMatch(days, docs)
  }

  lemma AddCounts(c: LabelCounts, l: Label)
    ensures Sum(Add(c, l)) == Sum(c) + 1
    ensures Add(c, l).positive == c.positive + (if Name(l) == "POSITIVE" then 1 else 0)
    ensures Add(c, l).neutral == c.neutral + (if Name(l) == "NEUTRAL" then 1 else 0)
    ensures Add(c, l).negative == c.negative + (if Name(l) == "NEGATIVE" then 1 else 0)
  {
  }

  lemma OccurrencesStep(docs: seq<Doc>, doc: Doc, l: Label, e: string)
    requires Name(l) == doc.sentiment
    ensures Occurrences(docs + [doc], e) == if e == Day(doc) then Add(Occurrences(docs, e), l) else Occurrences(docs, e)
  {
    assert DaySentiments(docs + [doc]) == DaySentiments(docs) + [(Day(doc), doc.sentiment)];
    var m := multiset(DaySentiments(docs));
    var m' := multiset(DaySentiments(docs + [doc]));
    assert m' == m + multiset{(Day(doc), doc.sentiment)};
    AddCounts(Occurrences(docs, e), l);
  }

  lemma UnseenDay(docs: seq<Doc>, date: string)
    requires date !in DayList(docs)
    ensures Occurrences(docs, date) == NoCounts
  {
    var ds := DaySentiments(docs);
    forall k | 0 <= k < |ds| ensures ds[k].0 != date {
      assert ds[k].0 == DayList(docs)[k];
    }
    assert (date, "POSITIVE") !in multiset(ds);
    assert (date, "NEUTRAL") !in multiset(ds);
    assert (date, "NEGATIVE") !in multiset(ds);
  }

  /** The day list grows by the new document's day, so its counter is
      bumped at that day. */
  lemma DayCountStep(docs: seq<Doc>, doc: Doc)
    ensures Count(DayList(docs + [doc])) == Bump(Count(DayList(docs)), Day(doc))
  {
    assert DayList(docs + [doc]) == DayList(docs) + [Day(doc)];
    assert (DayList(docs) + [Day(doc)])[..|docs|] == DayList(docs);
  }

  lemma NewDayKeys(days: Days, c: Counter<string>, docs: seq<Doc>, doc: Doc, e: DayCounts)
    requires DayKeysMatch(days, c, docs)
    ensures DayKeysMatch(days + [(Day(doc), e)], c + [(Day(doc), 1)], docs + [doc])
  {
    var d := Day(doc);
    var docs' := docs + [doc];
    var c' := c + [(d, 1)];
    assert Keys(days + [(d, e)]) == Keys(days) + [d];
    assert Keys(c') == Keys(c) + [d];
    forall k | 0 <= k < |docs'| ensures Day(docs'[k]) in Keys(c') {
      if k < |docs| {
        assert docs'[k] == docs[k];
        assert Day(docs[k]) in Keys(c);
      } else {
        assert Keys(c')[|c|] == d;
      }
    }
  }

  lemma NewDayLabels(days: Days, docs: seq<Doc>, doc: Doc, l: Label)
    requires DayLabelsMatch(days, docs) && Name(l) == doc.sentiment
    requires forall k :: 0 <= k < |docs| ==> Day(docs[k]) != Day(doc)
    requires forall i :: 0 <= i < |days| ==> days[i].0 != Day(doc)
    ensures DayLabelsMatch(days + [(Day(doc), NewBucket(l))], docs + [doc])
  {
    var d := Day(doc);
    var days' := days + [(d, NewBucket(l))];
    UnseenDay(docs, d);
    forall i | 0 <= i < |days'| ensures days'[i].1.labels == Occurrences(docs + [doc], days'[i].0) {
      OccurrencesStep(docs, doc, l, days'[i].0);
      if i < |days| {
        assert days'[i] == days[i];
      }
    }
  }

  /** A date missing from the buckets is no document's day so far. */
  lemma NewDayFresh(days: Days, c: Counter<string>, docs: seq<Doc>, d: string)
    requires DayKeysMatch(days, c, docs) && IndexOf(Keys(days), d).None?
    ensures forall k :: 0 <= k < |docs| ==> Day(docs[k]) != d
    ensures forall i :: 0 <= i < |days| ==> days[i].0 != d
  {
    forall k | 0 <= k < |docs| ensures Day(docs[k]) != d {
      assert Day(docs[k]) in Keys(c);
    }
    forall i | 0 <= i < |days| ensures days[i].0 != d {
      assert days[i].0 == Keys(days)[i];
    }
  }

  lemma AddSum(c: LabelCounts, l: Label)
    ensures Sum(Add(c, l)) == Sum(c) + 1
  {
  }

  lemma NewBucketTotal(l: Label)
    ensures Sum(NewBucket(l).labels) == NewBucket(l).count == 1
  {
  }

  /** Appending a bucket whose total is its count keeps the totals matched. */
  lemma AppendTotals(days: Days, c: Counter<string>, d: string, e: DayCounts, n: nat)
    requires DayTotalsMatch(days, c) && Sum(e.labels) == e.count == n
    ensures DayTotalsMatch(days + [(d, e)], c + [(d, n)])
  {
    var days', c' := days + [(d, e)], c + [(d, n)];
    forall i | 0 <= i < |days'| ensures days'[i].1.count == c'[i].1 {
      if i < |days| {
        assert days'[i] == days[i] && c'[i] == c[i];
      }
    }
    forall i | 0 <= i < |days'| ensures Sum(days'[i].1.labels) == days'[i].1.count {
      if i < |days| {
        assert days'[i] == days[i];
      }
    }
  }

  lemma AbsorbNewDay(days: Days, c: Counter<string>, docs: seq<Doc>, doc: Doc, l: Label)
    requires DaysMatch(days, c, docs) && Name(l) == doc.sentiment
    requires IndexOf(Keys(days), Day(doc)).None?
    ensures DaysMatch(AddToDay(days, Day(doc), l), Bump(c, Day(doc)), docs + [doc])
  {
    var d := Day(doc);
    BumpNew(c, d);
    AddToNewDay(days, d, l);
    NewDayKeys(days, c, docs, doc, NewBucket(l));
    NewDayFresh(days, c, docs, d);
    NewDayLabels(days, docs, doc, l);
    NewBucketTotal(l);
    AppendTotals(days, c, d, NewBucket(l), 1);
  }

  lemma KnownDayLabels(days: Days, docs: seq<Doc>, doc: Doc, l: Label, p: nat)
    requires DayLabelsMatch(days, docs) && Name(l) == doc.sentiment
    requires p < |days| && days[p].0 == Day(doc)
    requires forall i :: 0 <= i < |days| && i != p ==> days[i].0 != Day(doc)
    ensures DayLabelsMatch(days[p := (Day(doc), Bumped(days[p].1, l))], docs + [doc])
  {
    var days' := days[p := (Day(doc), Bumped(days[p].1, l))];
    forall i | 0 <= i < |days'| ensures days'[i].1.labels == Occurrences(docs + [doc], days'[i].0) {
      OccurrencesStep(docs, doc, l, days[i].0);
    }
  }

  /** The other buckets have other dates, since the dates are distinct. */
  lemma KnownDayOnly(days: Days, c: Counter<string>, docs: seq<Doc>, d: string, p: nat)
    requires DayKeysMatch(days, c, docs) && DistinctKeys(c) && IndexOf(Keys(days), d) == Some(p)
    ensures p < |days| && days[p].0 == d
    ensures forall i :: 0 <= i < |days| && i != p ==> days[i].0 != d
  {
    assert days[p].0 == Keys(days)[p];
    forall i | 0 <= i < |days| && i != p ensures days[i].0 != d {
      assert days[i].0 == Keys(days)[i] == c[i].0;
      assert c[p].0 == Keys(c)[p];
    }
  }

  lemma KnownDayKeys(days: Days, c: Counter<string>, docs: seq<Doc>, doc: Doc, p: nat, e: DayCounts)
    requires DayKeysMatch(days, c, docs) && p < |days| && days[p].0 == Day(doc)
    ensures DayKeysMatch(days[p := (Day(doc), e)], c[p := (Day(doc), c[p].1 + 1)], docs + [doc])
  {
    var d := Day(doc);
    var c' := c[p := (d, c[p].1 + 1)];
    assert Keys(days[p := (d, e)]) == Keys(days);
    assert Keys(c') == Keys(c);
    forall k | 0 <= k < |docs| + 1 ensures Day((docs + [doc])[k]) in Keys(c') {
      if k < |docs| {
        assert (docs + [doc])[k] == docs[k];
      } else {
        assert Keys(c')[p] == d;
      }
    }
  }

  lemma KnownDayTotals(days: Days, c: Counter<string>, d: string, l: Label, p: nat)
    requires DayTotalsMatch(days, c) && p < |days|
    ensures DayTotalsMatch(days[p := (d, Bumped(days[p].1, l))], c[p := (d, c[p].1 + 1)])
  {
    AddSum(days[p].1.labels, l);
  }

  lemma AbsorbKnownDay(days: Days, c: Counter<string>, docs: seq<Doc>, doc: Doc, l: Label, p: nat)
    requires DaysMatch(days, c, docs) && DistinctKeys(c) && Name(l) == doc.sentiment
    requires IndexOf(Keys(days), Day(doc)) == Some(p)
    ensures DaysMatch(AddToDay(days, Day(doc), l), Bump(c, Day(doc)), docs + [doc])
  {
    var d := Day(doc);
    BumpOld(c, d, p);
    AddToKnownDay(days, d, l, p);
    KnownDayOnly(days, c, docs, d, p);
    KnownDayLabels(days, docs, doc, l, p);
    KnownDayKeys(days, c, docs, doc, p, Bumped(days[p].1, l));
    KnownDayTotals(days, c, d, l, p);
  }

  lemma AbsorbDays(days: Days, c: Counter<string>, docs: seq<Doc>, doc: Doc, l: Label)
    requires DaysMatch(days, c, docs) && DistinctKeys(c) && Name(l) == doc.sentiment
    ensures DaysMatch(AddToDay(days, Day(doc), l), Bump(c, Day(doc)), docs + [doc])
  {
    match IndexOf(Keys(days), Day(doc))
    case None => AbsorbNewDay(days, c, docs, doc, l);
    case Some(p) => AbsorbKnownDay(days, c, docs, doc, l, p);
  }

  lemma SplitLast<T>(s: seq<T>)
    requires |s| > 0
    ensures s == s[..|s| - 1] + [s[|s| - 1]]
  {
  }

  /** The last document of a successful run: the run before it succeeded
      too, and the document had a known label and a title. */
  lemma TallyOkLast(docs: seq<Doc>)
    requires |docs| > 0 && Tally(docs).Ok?
    ensures Tally(docs[..|docs| - 1]).Ok?
    ensures LabelOf(docs[|docs| - 1].sentiment).Some? && docs[|docs| - 1].title.Some?
    ensures var t := Tally(docs[..|docs| - 1]).value;
            var doc := docs[|docs| - 1];
            var l := LabelOf(doc.sentiment).value;
            Tally(docs).value == Tallies(Add(t.counts, l), AddToDay(t.days, Day(doc), l), Bump(t.sources, doc.source),
                                         t.texts + [TextOf(doc)])
  {
  }

  lemma CountsStep(c: LabelCounts, m: multiset<string>, l: Label)
    requires c == LabelCounts(m["POSITIVE"], m["NEUTRAL"], m["NEGATIVE"])
    ensures var m' := m + multiset{Name(l)};
            Add(c, l) == LabelCounts(m'["POSITIVE"], m'["NEUTRAL"], m'["NEGATIVE"])
  {
  }

  lemma SentimentsStep(docs: seq<Doc>, doc: Doc)
    ensures multiset(Sentiments(docs + [doc])) == multiset(Sentiments(docs)) + multiset{doc.sentiment}
  {
    assert Sentiments(docs + [doc]) == Sentiments(docs) + [doc.sentiment];
  }

  lemma {:induction false} TallyCounts(docs: seq<Doc>)
    requires Tally(docs).Ok?
    ensures var m := multiset(Sentiments(docs));
            Tally(docs).value.counts == LabelCounts(m["POSITIVE"], m["NEUTRAL"], m["NEGATIVE"])
    ensures Sum(Tally(docs).value.counts) == |docs|
  {
    if |docs| > 0 {
      var n := |docs| - 1;
      var prev := docs[..n];
      var doc := docs[n];
      SplitLast(docs);
      TallyOkLast(docs);
      TallyCounts(prev);
      var l := LabelOf(doc.sentiment).value;
      AddCounts(Tally(prev).value.counts, l);
      CountsStep(Tally(prev).value.counts, multiset(Sentiments(prev)), l);
      SentimentsStep(prev, doc);
    }
  }

  lemma {:induction false} TallyDays(docs: seq<Doc>)
    requires Tally(docs).Ok?
    ensures DaysMatch(Tally(docs).value.days, Count(DayList(docs)), docs)
  {
    if |docs| > 0 {
      var n := |docs| - 1;
      var prev := docs[..n];
      var doc := docs[n];
      SplitLast(docs);
      TallyOkLast(docs);
      TallyDays(prev);
      CountShape(DayList(prev));
      AbsorbDays(Tally(prev).value.days, Count(DayList(prev)), prev, doc, LabelOf(doc.sentiment).value);
      DayCountStep(prev, doc);
    }
  }

  lemma {:induction false} TallySources(docs: seq<Doc>)
    requires Tally(docs).Ok?
    ensures Tally(docs).value.sources == Count(Sources(docs))
  {
    if |docs| > 0 {
      var n := |docs| - 1;
      var prev := docs[..n];
      SplitLast(docs);
      TallyOkLast(docs);
      TallySources(prev);
      assert Sources(docs)[..n] == Sources(prev);
    }
  }

  lemma TextsStep(texts: seq<string>, docs: seq<Doc>, doc: Doc)
    requires TextsMatch(texts, docs) && doc.title.Some?
    ensures TextsMatch(texts + [TextOf(doc)], docs + [doc])
  {
    assert forall i :: 0 <= i < |docs| ==> (docs + [doc])[i] == docs[i];
  }

  lemma {:induction false} TallyTexts(docs: seq<Doc>)
    requires Tally(docs).Ok?
    ensures TextsMatch(Tally(docs).value.texts, docs)
  {
    if |docs| > 0 {
      var n := |docs| - 1;
      var prev := docs[..n];
      SplitLast(docs);
      TallyOkLast(docs);
      TallyTexts(prev);
      TextsStep(Tally(prev).value.texts, prev, docs[n]);
    }
  }

  /** What the accumulators hold after a successful run: each label's count
      of documents, day buckets that match the documents' days, the source
      counter and the text of every document in order. */
  lemma TallyMeaning(docs: seq<Doc>)
    requires Tally(docs).Ok?
    ensures var t := Tally(docs).value;
            t.counts == LabelCounts(multiset(Sentiments(docs))["POSITIVE"], multiset(Sentiments(docs))["NEUTRAL"],
                                    multiset(Sentiments(docs))["NEGATIVE"]) &&
            Sum(t.counts) == |docs| &&
            DaysMatch(t.days, Count(DayList(docs)), docs) &&
            t.sources == Count(Sources(docs)) &&
            TextsMatch(t.texts, docs)
  {
    TallyCounts(docs);
    TallyDays(docs);
    TallySources(docs);
    TallyTexts(docs);
  }

  /** The label distribution counts each label's documents, and on success
      the three counts add up to the number of documents. */
  lemma DistributionCounts(docs: seq<Doc>)
    requires Summarize(docs).Ok?
    ensures var d := Summarize(docs).value.distribution;
            d.positive == multiset(Sentiments(docs))["POSITIVE"] &&
            d.neutral == multiset(Sentiments(docs))["NEUTRAL"] &&
            d.negative == multiset(Sentiments(docs))["NEGATIVE"] &&
            d.positive + d.neutral + d.negative == |docs|
  {
    TallyMeaning(docs);
  }

  function SumTotals(trends: seq<Trend>): nat
  {
    if |trends| == 0 then 0 else SumTotals(trends[..|trends| - 1]) + trends[|trends| - 1].total
  }

  lemma {:induction false} SumTotalsIsTotal(trends: seq<Trend>, c: Counter<string>)
    requires |trends| == |c| && forall i :: 0 <= i < |c| ==> trends[i].total == c[i].1
    ensures SumTotals(trends) == Total(c)
  {
    if |c| > 0 {
      var n := |c| - 1;
      SumTotalsIsTotal(trends[..n], c[..n]);
    }
  }

  /** A successful run's summary is built from the accumulators. */
  lemma SummaryOf(docs: seq<Doc>)
    requires Summarize(docs).Ok?
    ensures Tally(docs).Ok? && Summarize(docs).value == Finish(Tally(docs).value)
  {
  }

  lemma DaysDistinct(days: Days, docs: seq<Doc>)
    requires DayKeysMatch(days, Count(DayList(docs)), docs)
    ensures var trends := Trends(days);
            forall i, j :: 0 <= i < j < |trends| ==> trends[i].date != trends[j].date
  {
    var c := Count(DayList(docs));
    CountShape(DayList(docs));
    forall i, j | 0 <= i < j < |days| ensures days[i].0 != days[j].0 {
      assert days[i].0 == Keys(days)[i] == c[i].0;
      assert days[j].0 == Keys(days)[j] == c[j].0;
    }
  }

  lemma DaysCover(days: Days, docs: seq<Doc>)
    requires DayKeysMatch(days, Count(DayList(docs)), docs)
    ensures var trends := Trends(days);
            forall k :: 0 <= k < |docs| ==> exists i :: 0 <= i < |trends| && trends[i].date == Day(docs[k])
  {
    var trends := Trends(days);
    forall k | 0 <= k < |docs| ensures exists i :: 0 <= i < |trends| && trends[i].date == Day(docs[k]) {
      assert Day(docs[k]) in Keys(days);
      var i :| 0 <= i < |days| && Keys(days)[i] == Day(docs[k]);
      assert trends[i].date == Keys(days)[i];
    }
  }

  lemma DaysCounted(days: Days, docs: seq<Doc>)
    requires DayKeysMatch(days, Count(DayList(docs)), docs) && DayTotalsMatch(days, Count(DayList(docs)))
    ensures forall i :: 0 <= i < |days| ==> days[i].1.count == multiset(DayList(docs))[days[i].0] > 0
  {
    var c := Count(DayList(docs));
    CountShape(DayList(docs));
    forall i | 0 <= i < |days| ensures days[i].1.count == multiset(DayList(docs))[days[i].0] > 0 {
      assert days[i].0 == Keys(days)[i] == Keys(c)[i] == c[i].0;
      CountGet(DayList(docs), days[i].0);
      assert forall j :: 0 <= j < i ==> Keys(c)[j] == c[j].0;
      IndexOfUnique(Keys(c), c[i].0, i);
    }
  }

  lemma DaysEntries(days: Days, docs: seq<Doc>)
    requires DaysMatch(days, Count(DayList(docs)), docs)
    ensures var trends := Trends(days);
            forall i :: 0 <= i < |trends| ==>
              trends[i].total == multiset(DayList(docs))[trends[i].date] > 0 &&
              trends[i].total == trends[i].positive + trends[i].neutral + trends[i].negative &&
              LabelCounts(trends[i].positive, trends[i].neutral, trends[i].negative) == Occurrences(docs, trends[i].date)
  {
    DaysCounted(days, docs);
  }

  lemma DaysTotal(days: Days, docs: seq<Doc>)
    requires DayTotalsMatch(days, Count(DayList(docs)))
    ensures SumTotals(Trends(days)) == |docs|
  {
    CountTotal(DayList(docs));
    SumTotalsIsTotal(Trends(days), Count(DayList(docs)));
  }

  /** The trend entries of buckets that match the documents: distinct dates,
      every document's day among them, each total that day's number of
      documents and the sum of its labels, each label count that day's
      occurrences of the label, and the totals adding up to the number of
      documents. */
  predicate Partitions(trends: seq<Trend>, docs: seq<Doc>)
  {
    (forall i, j :: 0 <= i < j < |trends| ==> trends[i].date != trends[j].date) &&
    (forall k :: 0 <= k < |docs| ==> exists i :: 0 <= i < |trends| && trends[i].date == Day(docs[k])) &&
    (forall i :: 0 <= i < |trends| ==>
       trends[i].total == multiset(DayList(docs))[trends[i].date] > 0 &&
       trends[i].total == trends[i].positive + trends[i].neutral + trends[i].negative &&
       LabelCounts(trends[i].positive, trends[i].neutral, trends[i].negative) == Occurrences(docs, trends[i].date)) &&
    SumTotals(trends) == |docs|
  }

  lemma DaysPartition(days: Days, docs: seq<Doc>)
    requires DaysMatch(days, Count(DayList(docs)), docs)
    ensures Partitions(Trends(days), docs)
  {
    DaysDistinct(days, docs);
    DaysCover(days, docs);
    DaysEntries(days, docs);
    DaysTotal(days, docs);
  }

  /** Each document lands in exactly one trend entry, the one for the first
      ten characters of its timestamp: entries have distinct dates in the
      order first seen, each entry's labels count that day's documents, its
      total is the sum of its labels, and the totals add up to the number
      of documents. */
  lemma TrendsPartition(docs: seq<Doc>)
    requires Summarize(docs).Ok?
    ensures Partitions(Summarize(docs).value.trends, docs)
    ensures FirstSeenOrder(Summarize(docs).value.trends, docs)
  {
    SummaryOf(docs);
    TallyDays(docs);
    DaysPartition(Tally(docs).value.days, docs);
    DaysFirstSeen(Tally(docs).value.days, docs);
  }

  /** The entries are listed in the order their dates are first seen: a
      document dated as a later entry comes after some document dated as
      any earlier entry. */
  predicate FirstSeenOrder(trends: seq<Trend>, docs: seq<Doc>)
  {
    forall i, j, q :: 0 <= i < j < |trends| && 0 <= q < |docs| && Day(docs[q]) == trends[j].date ==>
      exists p :: 0 <= p < q && Day(docs[p]) == trends[i].date
  }

  lemma DaysFirstSeen(days: Days, docs: seq<Doc>)
    requires DayKeysMatch(days, Count(DayList(docs)), docs)
    ensures FirstSeenOrder(Trends(days), docs)
  {
    var c := Count(DayList(docs));
    var ks := DayList(docs);
    var trends := Trends(days);
    CountFirstOccurrence(ks);
    forall i, j, q | 0 <= i < j < |trends| && 0 <= q < |docs| && Day(docs[q]) == trends[j].date
      ensures exists p :: 0 <= p < q && Day(docs[p]) == trends[i].date
    {
      assert Keys(days)[i] == Keys(c)[i] && Keys(days)[j] == Keys(c)[j];
      FirstOccurrenceAt(c, ks, i, j, q);
      var p :| 0 <= p < q && ks[..q][p] == c[i].0;
      assert Day(docs[p]) == trends[i].date;
    }
  }

  /** `source_counts` counts each source once per document; its counts add
      up to the number of documents, and `top_sources` is its `most_common(10)`
      selection: at most ten entries, by non-increasing count, none left out
      with a larger count than one kept, and ties kept in first-seen order. */
  lemma TopSources(docs: seq<Doc>)
    requires Summarize(docs).Ok?
    ensures var counts := Tally(docs).value.sources;
            var top := Summarize(docs).value.topSources;
            counts == Count(Sources(docs)) &&
            top == MostCommon(counts, Top) &&
            Total(counts) == |docs| &&
            (forall s :: Get(counts, s) == multiset(Sources(docs))[s]) &&
            Selection(top, counts, Top) &&
            FirstOccurrenceOrder(counts, Sources(docs))
  {
    SummaryOf(docs);
    TallySources(docs);
    SourceSelection(Sources(docs));
  }

  lemma SourceSelection(sources: seq<Option<string>>)
    ensures var counts := Count(sources);
            Total(counts) == |sources| &&
            (forall s :: Get(counts, s) == multiset(sources)[s]) &&
            Selection(MostCommon(counts, Top), counts, Top) &&
            FirstOccurrenceOrder(counts, sources)
  {
    var counts := Count(sources);
    CountTotal(sources);
    CountFirstOccurrence(sources);
    forall s ensures Get(counts, s) == multiset(sources)[s] {
      CountGet(sources, s);
    }
    CountSelection(sources, Top);
  }

  /** The text of every document, in order. */
  function Texts(docs: seq<Doc>): seq<string>
    requires forall i :: 0 <= i < |docs| ==> docs[i].title.Some?
  {
    seq(|docs|, i requires 0 <= i < |docs| => TextOf(docs[i]))
  }

  /** On success every title is a string and the keyword selection is made
      over the texts of the documents in order. */
  lemma SummaryTexts(docs: seq<Doc>)
    requires Summarize(docs).Ok?
    ensures forall i :: 0 <= i < |docs| ==> docs[i].title.Some?
    ensures Summarize(docs).value.topKeywords == MostCommon(KeywordCounts(Join(Texts(docs))), Top)
  {
    SummaryOf(docs);
    TalliedTexts(docs);
  }

  lemma TalliedTexts(docs: seq<Doc>)
    requires Tally(docs).Ok?
    ensures forall i :: 0 <= i < |docs| ==> docs[i].title.Some?
    ensures Tally(docs).value.texts == Texts(docs)
  {
    TallyTexts(docs);
    assert Tally(docs).value.texts == Texts(docs);
  }

  /** The keyword selection of joined texts: the counter is that of the
      texts' keywords in turn, and the selected entries are counted keywords. */
  lemma KeywordSelection(texts: seq<string>)
    ensures var counts := KeywordCounts(Join(texts));
            var top := MostCommon(counts, Top);
            counts == Count(KeywordsEach(texts)) &&
            Selection(top, counts, Top) &&
            forall k :: 0 <= k < |top| ==> top[k].1 > 0 && top[k].0 in KeywordsEach(texts)
  {
    KeywordsOfJoin(texts);
    CountSelection(KeywordsEach(texts), Top);
  }

  /** `top_keywords` is the `most_common(10)` selection of the keyword
      counter; that counter counts each word of the documents' titles and
      descriptions (lower-cased, stopwords removed) once per occurrence, and
      nothing merges across two documents or across title and description. */
  lemma TopKeywords(docs: seq<Doc>)
    requires Summarize(docs).Ok?
    ensures forall i :: 0 <= i < |docs| ==> docs[i].title.Some?
    ensures var counts := KeywordCounts(Join(Texts(docs)));
            var top := Summarize(docs).value.topKeywords;
            counts == Count(KeywordsEach(Texts(docs))) &&
            top == MostCommon(counts, Top) &&
            Selection(top, counts, Top) &&
            (forall k :: 0 <= k < |top| ==> top[k].1 > 0 && top[k].0 in KeywordsEach(Texts(docs)))
  {
    SummaryTexts(docs);
    KeywordSelection(Texts(docs));
  }

  /** Title and description of one document never merge into one keyword. */
  lemma KeywordsPerDocument(docs: seq<Doc>)
    requires forall i :: 0 <= i < |docs| ==> docs[i].title.Some?
    ensures forall i :: 0 <= i < |docs| ==>
      Keywords(TextOf(docs[i])) == Keywords(docs[i].title.value) + Keywords(docs[i].description)
  {
    forall i | 0 <= i < |docs|
      ensures Keywords(TextOf(docs[i])) == Keywords(docs[i].title.value) + Keywords(docs[i].description)
    {
      KeywordsSeparated(docs[i].title.value, docs[i].description);
    }
  }

  /** Every keyword in the summary is a non-empty lower-case word that is not
      a stopword. */
  lemma TopKeywordsAreClean(docs: seq<Doc>)
    requires Summarize(docs).Ok?
    ensures forall k :: 0 <= k < |Summarize(docs).value.topKeywords| ==>
      var w := Summarize(docs).value.topKeywords[k].0;
      |w| > 0 && w !in Stopwords && forall i :: 0 <= i < |w| ==> IsWordChar(w[i]) && !IsUpper(w[i])
  {
    SummaryOf(docs);
    var text := Join(Tally(docs).value.texts);
    KeywordsAreClean(text);
    CountSelection(Keywords(text), Top);
  }

  /** The average positive share of a bucket lies between 0 and 1. */
  lemma ShareBounds(positive: nat, total: nat)
    requires positive <= total && total > 0
    ensures 0.0 <= positive as real / total as real <= 1.0
  {
    assert positive as real / total as real <= total as real / total as real;
  }

  lemma VolumesOfDays(days: Days)
    requires forall i :: 0 <= i < |days| ==> days[i].1.count > 0 && Sum(days[i].1.labels) == days[i].1.count
    ensures var trends := Trends(days);
            var volume := Volumes(days);
            |volume| == |trends| &&
            forall i :: 0 <= i < |trends| ==>
              volume[i].date == trends[i].date &&
              volume[i].volume == trends[i].total > 0 &&
              volume[i].averagePositiveScore == trends[i].positive as real / trends[i].total as real &&
              0.0 <= volume[i].averagePositiveScore <= 1.0
  {
    forall i | 0 <= i < |days| ensures 0.0 <= days[i].1.labels.positive as real / days[i].1.count as real <= 1.0 {
      ShareBounds(days[i].1.labels.positive, days[i].1.count);
    }
  }

  /** `sentiment_vs_volume` follows `trends` entry for entry: same date,
      volume equal to the total, which is positive, and an average positive
      share equal to positive / total, between 0 and 1. */
  lemma VolumeFollowsTrends(docs: seq<Doc>)
    requires Summarize(docs).Ok?
    ensures var s := Summarize(docs).value;
            |s.sentimentVsVolume| == |s.trends| &&
            forall i :: 0 <= i < |s.trends| ==>
              s.sentimentVsVolume[i].date == s.trends[i].date &&
              s.sentimentVsVolume[i].volume == s.trends[i].total > 0 &&
              s.sentimentVsVolume[i].averagePositiveScore == s.trends[i].positive as real / s.trends[i].total as real &&
              0.0 <= s.sentimentVsVolume[i].averagePositiveScore <= 1.0
  {
    SummaryOf(docs);
    TallyDays(docs);
    var days := Tally(docs).value.days;
    DaysCounted(days, docs);
    VolumesOfDays(days);
  }

  /** No documents: zero counts and every list empty. */
  lemma EmptyDay()
    ensures Summarize([]) == Ok(Summary(NoCounts, [], [], [], []))
  {
    assert Words(Lower("")) == [];
  }
}
