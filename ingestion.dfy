/** The ingestion path of lambda_function_storing.py: the watermark read by
    `get_latest_timestamp` and the filter loop of
    `process_and_store_new_articles`, over an in-memory `news_sentiment`
    collection and an abstract sentiment classifier. */
module Ingestion {
  import opened Wrappers
  import opened Strings
  import opened Timestamps
  import opened Exceptions

  /** A key of a JSON article: absent, `null`, or a string. */
  datatype Field = Missing | Null | Text(text: string)

  /** A news-feed article, with the keys the ingestion reads. `sourceName` is
      `article['source']['name']`; `Missing` there stands for a missing
      `source` object or `name` key alike. */
  datatype Article = Article(publishedAt: Field, title: Field, description: Field, sourceName: Field)

  /** Comprehend's SentimentScore: one confidence per label. */
  datatype Scores = Scores(positive: real, negative: real, neutral: real, mixed: real)

  /** A document of the `news_sentiment` collection; `None` stands for a
      stored `null`. */
  datatype Doc = Doc(asset: string, timestamp: string, title: Option<string>, description: string,
                     sentiment: string, sentimentScore: Scores, source: Option<string>)

  /** The sentiment classifier (Comprehend's DetectSentiment): text in,
      label and scores out. */
  type Classifier = string -> (string, Scores)

  /** What one run leaves behind: the documents inserted, in order, and the
      exception that stopped it, if any. Documents inserted before an
      exception stay inserted. */
  datatype Batch = Batch(inserted: seq<Doc>, failure: Option<Failure>)

  /** The `news_sentiment` collection: documents in insertion order. */
  class NewsSentimentCollection {
    var docs: seq<Doc>

    constructor (initial: seq<Doc>)
      ensures docs == initial
    {
      docs := initial;
    }

    /** `insert_one`. */
    method InsertOne(doc: Doc)
      modifies this
      ensures docs == old(docs) + [doc]
    {
      docs := docs + [doc];
    }
  }

  // ---------------------------------------------------------------------------
  // The watermark (get_latest_timestamp)

  /** The greatest `timestamp` string among the documents of `symbol`, the one
      `find_one({"asset": symbol}, sort=[("timestamp", -1)])` returns it from;
      None when the symbol has no document. */
  function LatestStamp(docs: seq<Doc>, symbol: string): (r: Option<string>)
    ensures r.None? <==> forall i :: 0 <= i < |docs| ==> docs[i].asset != symbol
    ensures r.Some? ==> exists i :: 0 <= i < |docs| && docs[i].asset == symbol && docs[i].timestamp == r.value
  {
    if docs == [] then None
    else
      var rest := LatestStamp(docs[..|docs| - 1], symbol);
      var d := docs[|docs| - 1];
      if d.asset != symbol then rest
      else if rest.Some? && !Less(rest.value, d.timestamp) then rest
      else Some(d.timestamp)
  }

  /** No document of the symbol sorts after the one picked. */
  lemma {:induction false} LatestStampIsMaximum(docs: seq<Doc>, symbol: string)
    ensures LatestStamp(docs, symbol).Some? ==>
      forall i :: 0 <= i < |docs| && docs[i].asset == symbol ==> !Less(LatestStamp(docs, symbol).value, docs[i].timestamp)
  {
    if docs != [] {
      var init := docs[..|docs| - 1];
      LatestStampIsMaximum(init, symbol);
      var rest := LatestStamp(init, symbol);
      var d := docs[|docs| - 1];
      var r := LatestStamp(docs, symbol);
      if d.asset == symbol {
        forall i | 0 <= i < |docs| && docs[i].asset == symbol
          ensures !Less(r.value, docs[i].timestamp)
        {
          if i == |docs| - 1 {
            LessIrreflexive(d.timestamp);
          } else {
            assert init[i] == docs[i];
            var x := docs[i].timestamp;
            if r.value == d.timestamp && rest.Some? {
              var t := rest.value;
              LessTotal(t, x);
              LessAsymmetric(t, d.timestamp);
              if Less(x, t) && Less(d.timestamp, x) {
                LessTransitive(d.timestamp, x, t);
              }
            }
          }
        }
      } else {
        forall i | 0 <= i < |docs| - 1 ensures init[i] == docs[i] { }
      }
    }
  }

  /** `get_latest_timestamp(symbol)`: the latest stored timestamp string,
      parsed; None when the symbol has no document; a stored string that does
      not parse raises ValueError. */
  function Watermark(docs: seq<Doc>, symbol: string): Result<Option<DateTime>, Failure>
  {
    match LatestStamp(docs, symbol)
    case None => Ok(None)
    case Some(t) =>
      match Parse(t)
      case None => Err(ValueError(t))
      case Some(d) => Ok(Some(d))
  }

  /** When the symbol's stored timestamps are well formed, the watermark is
      their latest instant, and None exactly when the symbol has no document:
      the string sort and the datetime order pick the same document. */
  lemma WatermarkIsLatestInstant(docs: seq<Doc>, symbol: string)
    requires forall i :: 0 <= i < |docs| && docs[i].asset == symbol ==> WellFormed(docs[i].timestamp)
    ensures Watermark(docs, symbol).Ok?
    ensures Watermark(docs, symbol).value.None? <==> forall i :: 0 <= i < |docs| ==> docs[i].asset != symbol
    ensures Watermark(docs, symbol).value.Some? ==>
      (exists i :: 0 <= i < |docs| && docs[i].asset == symbol && Parse(docs[i].timestamp) == Watermark(docs, symbol).value) &&
      forall i :: 0 <= i < |docs| && docs[i].asset == symbol ==>
        WellFormed(docs[i].timestamp) && !Before(Watermark(docs, symbol).value.value, Parse(docs[i].timestamp).value)
  {
    LatestStampIsMaximum(docs, symbol);
    var r := LatestStamp(docs, symbol);
    if r.Some? {
      var j :| 0 <= j < |docs| && docs[j].asset == symbol && docs[j].timestamp == r.value;
      forall i | 0 <= i < |docs| && docs[i].asset == symbol
        ensures !Before(Parse(r.value).value, Parse(docs[i].timestamp).value)
      {
        WellFormedOrder(r.value, docs[i].timestamp);
      }
    }
  }

  // ---------------------------------------------------------------------------
  // The ingestion loop (process_and_store_new_articles)

  /** `datetime.strptime(article['publishedAt'], "%Y-%m-%dT%H:%M:%SZ")`. */
  function Published(a: Article): (r: Result<DateTime, Failure>)
    ensures r.Ok? <==> a.publishedAt.Text? && Parse(a.publishedAt.text).Some?
    ensures r.Ok? ==> Some(r.value) == Parse(a.publishedAt.text)
  {
    match a.publishedAt
    case Missing => Err(KeyError("publishedAt"))
    case Null => Err(TypeError("publishedAt"))
    case Text(t) =>
      match Parse(t)
      case None => Err(ValueError(t))
      case Some(d) => Ok(d)
  }

  /** `latest_timestamp is None or article_timestamp > latest_timestamp`. */
  predicate IsNew(watermark: Option<DateTime>, t: DateTime)
  {
    watermark.None? || Before(watermark.value, t)
  }

  /** `'description' in article and article['description']`: present, not
      null, not empty. */
  predicate HasDescription(a: Article)
  {
    a.description.Text? && a.description.text != []
  }

  /** A stored value: a string, or `null`. */
  function Stored(f: Field): Option<string>
    requires !f.Missing?
  {
    if f.Text? then Some(f.text) else None
  }

  /** The classifier call and the document built for an article (lines
      61-70); reading an absent `title` or `source.name` raises KeyError. */
  function Enrich(a: Article, symbol: string, classify: Classifier): (r: Result<Doc, Failure>)
    requires a.publishedAt.Text? && HasDescription(a)
    ensures r.Ok? <==> !a.title.Missing? && !a.sourceName.Missing?
  {
    var sentiment := classify(a.description.text);
    if a.title.Missing? then Err(KeyError("title"))
    else if a.sourceName.Missing? then Err(KeyError("source.name"))
    else Ok(Doc(symbol, a.publishedAt.text, Stored(a.title), a.description.text, sentiment.0, sentiment.1, Stored(a.sourceName)))
  }

  /** One pass of the loop body: the exception it raises, or the document
      it inserts, or nothing when the article is skipped. */
  function Step(watermark: Option<DateTime>, a: Article, symbol: string, classify: Classifier): Result<Option<Doc>, Failure>
  {
    match Published(a)
    case Err(e) => Err(e)
    case Ok(t) =>
      if IsNew(watermark, t) && HasDescription(a) then
        match Enrich(a, symbol, classify)
        case Err(e) => Err(e)
        case Ok(doc) => Ok(Some(doc))
      else Ok(None)
  }

  function AsSeq(o: Option<Doc>): seq<Doc>
  {
    if o.Some? then [o.value] else []
  }

  /** The loop over one batch, with the watermark fixed before it. */
  function Ingest(watermark: Option<DateTime>, news: seq<Article>, symbol: string, classify: Classifier): Batch
  {
    if news == [] then Batch([], None)
    else
      match Step(watermark, news[0], symbol, classify)
      case Err(e) => Batch([], Some(e))
      case Ok(o) =>
        var rest := Ingest(watermark, news[1..], symbol, classify);
        Batch(AsSeq(o) + rest.inserted, rest.failure)
  }

  /** A whole invocation: read the watermark, then run the loop. */
  function Run(docs: seq<Doc>, news: seq<Article>, symbol: string, classify: Classifier): Batch
  {
    match Watermark(docs, symbol)
    case Err(e) => Batch([], Some(e))
    case Ok(watermark) => Ingest(watermark, news, symbol, classify)
  }

  /** A batch runs as its parts run one after the other: what the first part
      inserts comes first, and an exception in the first part ends the batch
      there. */
  lemma {:induction false} IngestAppend(watermark: Option<DateTime>, xs: seq<Article>, ys: seq<Article>,
                                        symbol: string, classify: Classifier)
    ensures var first := Ingest(watermark, xs, symbol, classify);
            var second := Ingest(watermark, ys, symbol, classify);
            Ingest(watermark, xs + ys, symbol, classify) ==
              if first.failure.Some? then first
              else Batch(first.inserted + second.inserted, second.failure)
  {
    if xs == [] {
      assert xs + ys == ys;
    } else {
      assert (xs + ys)[0] == xs[0];
      assert (xs + ys)[1..] == xs[1..] + ys;
      IngestAppend(watermark, xs[1..], ys, symbol, classify);
      var step := Step(watermark, xs[0], symbol, classify);
      if step.Ok? {
        var rest := Ingest(watermark, xs[1..], symbol, classify);
        var second := Ingest(watermark, ys, symbol, classify);
        assert AsSeq(step.value) + (rest.inserted + second.inserted) == (AsSeq(step.value) + rest.inserted) + second.inserted;
      }
    }
  }

  /** An article the loop inserts when nothing raises: newer than the
      watermark, or any when there is none, and carrying a description. */
  predicate Qualifies(watermark: Option<DateTime>, a: Article)
  {
    Published(a).Ok? && IsNew(watermark, Published(a).value) && HasDescription(a)
  }

  /** The qualifying articles of a batch, in input order. */
  function Selected(watermark: Option<DateTime>, news: seq<Article>): (r: seq<Article>)
    ensures |r| <= |news|
    ensures forall k :: 0 <= k < |r| ==> r[k] in news && Qualifies(watermark, r[k])
  {
    if news == [] then []
    else if Qualifies(watermark, news[0]) then [news[0]] + Selected(watermark, news[1..])
    else Selected(watermark, news[1..])
  }

  /** When the batch raises nothing, it inserts exactly one document per
      qualifying article, in input order, and nothing else. */
  lemma {:induction false} IngestInsertsSelected(watermark: Option<DateTime>, news: seq<Article>,
                                                 symbol: string, classify: Classifier)
    requires Ingest(watermark, news, symbol, classify).failure.None?
    ensures var b := Ingest(watermark, news, symbol, classify);
            var sel := Selected(watermark, news);
            |b.inserted| == |sel| &&
            forall k :: 0 <= k < |sel| ==> Step(watermark, sel[k], symbol, classify) == Ok(Some(b.inserted[k]))
  {
    if news != [] {
      IngestFirst(watermark, news, symbol, classify);
      IngestInsertsSelected(watermark, news[1..], symbol, classify);
      StepQualifies(watermark, news[0], symbol, classify);
      var head := Step(watermark, news[0], symbol, classify).value;
      var rest := Ingest(watermark, news[1..], symbol, classify).inserted;
      var sel := Selected(watermark, news[1..]);
      if Qualifies(watermark, news[0]) {
        var inserts := (x, d) => Step(watermark, x, symbol, classify) == Ok(Some(d));
        ConsPointwise(news[0], head.value, sel, rest, inserts);
      }
    }
  }

  lemma IngestFirst(watermark: Option<DateTime>, news: seq<Article>, symbol: string, classify: Classifier)
    requires news != [] && Ingest(watermark, news, symbol, classify).failure.None?
    ensures Step(watermark, news[0], symbol, classify).Ok?
    ensures Ingest(watermark, news[1..], symbol, classify).failure.None?
    ensures Ingest(watermark, news, symbol, classify).inserted ==
      AsSeq(Step(watermark, news[0], symbol, classify).value) + Ingest(watermark, news[1..], symbol, classify).inserted
    ensures Selected(watermark, news) ==
      (if Qualifies(watermark, news[0]) then [news[0]] else []) + Selected(watermark, news[1..])
  {
  }

  /** Pairing a head and pairing the tails pairs the whole sequences. */
  lemma ConsPointwise<A, B>(a: A, b: B, xs: seq<A>, ys: seq<B>, pairs: (A, B) -> bool)
    requires pairs(a, b) && |xs| == |ys| && forall k :: 0 <= k < |xs| ==> pairs(xs[k], ys[k])
    ensures forall k :: 0 <= k < |xs| + 1 ==> pairs(([a] + xs)[k], ([b] + ys)[k])
  {
    forall k | 0 <= k < |xs| + 1 ensures pairs(([a] + xs)[k], ([b] + ys)[k]) {
      if k > 0 {
        assert ([a] + xs)[k] == xs[k - 1] && ([b] + ys)[k] == ys[k - 1];
      }
    }
  }

  /** A step that raises nothing inserts exactly when its article qualifies. */
  lemma StepQualifies(watermark: Option<DateTime>, a: Article, symbol: string, classify: Classifier)
    requires Step(watermark, a, symbol, classify).Ok?
    ensures Step(watermark, a, symbol, classify).value.Some? <==> Qualifies(watermark, a)
  {
  }

  /** Every inserted document comes from a qualifying article of the batch,
      so its asset is the symbol, its timestamp parses to an instant strictly
      after the watermark (if any), and its description is not empty. */
  lemma {:induction false} InsertedDocumentsQualify(watermark: Option<DateTime>, news: seq<Article>,
                                                    symbol: string, classify: Classifier)
    ensures forall doc :: doc in Ingest(watermark, news, symbol, classify).inserted ==>
      exists a :: a in news && Qualifies(watermark, a) && Step(watermark, a, symbol, classify) == Ok(Some(doc))
    ensures forall doc :: doc in Ingest(watermark, news, symbol, classify).inserted ==>
      doc.asset == symbol && doc.description != [] &&
      Parse(doc.timestamp).Some? && IsNew(watermark, Parse(doc.timestamp).value)
  {
    if news != [] {
      InsertedDocumentsQualify(watermark, news[1..], symbol, classify);
      var b := Ingest(watermark, news, symbol, classify);
      var rest := Ingest(watermark, news[1..], symbol, classify);
      forall doc | doc in b.inserted
        ensures exists a :: a in news && Qualifies(watermark, a) && Step(watermark, a, symbol, classify) == Ok(Some(doc))
      {
        if doc in rest.inserted {
          var a :| a in news[1..] && Qualifies(watermark, a) && Step(watermark, a, symbol, classify) == Ok(Some(doc));
          assert a in news;
        } else {
          assert Step(watermark, news[0], symbol, classify) == Ok(Some(doc));
        }
      }
    }
  }

  /** The document inserted for an article: fields as lines 62-70 set them. */
  lemma InsertedFields(watermark: Option<DateTime>, a: Article, symbol: string, classify: Classifier, doc: Doc)
    requires Step(watermark, a, symbol, classify) == Ok(Some(doc))
    ensures Qualifies(watermark, a) && !a.title.Missing? && !a.sourceName.Missing?
    ensures doc.asset == symbol && doc.timestamp == a.publishedAt.text &&
            doc.title == Stored(a.title) && doc.description == a.description.text &&
            (doc.sentiment, doc.sentimentScore) == classify(a.description.text) &&
            doc.source == Stored(a.sourceName)
  {
  }

  /** An article stamped at or before the watermark is skipped. */
  lemma NotNewIsSkipped(watermark: DateTime, a: Article, symbol: string, classify: Classifier)
    requires Published(a).Ok? && !Before(watermark, Published(a).value)
    ensures Step(Some(watermark), a, symbol, classify) == Ok(None)
  {
  }

  /** An article without a description is never inserted, whatever its
      timestamp: it is skipped, or its timestamp raises. */
  lemma UndescribedIsNeverInserted(watermark: Option<DateTime>, a: Article, symbol: string, classify: Classifier)
    requires !HasDescription(a)
    ensures Step(watermark, a, symbol, classify) == if Published(a).Ok? then Ok(None) else Err(Published(a).error)
  {
  }

  /** A batch that raises nothing had no article whose loop body raised. */
  lemma {:induction false} NoFailureMeansEveryStepOk(watermark: Option<DateTime>, news: seq<Article>,
                                                     symbol: string, classify: Classifier)
    requires Ingest(watermark, news, symbol, classify).failure.None?
    ensures forall a :: a in news ==> Step(watermark, a, symbol, classify).Ok?
  {
    if news != [] {
      NoFailureMeansEveryStepOk(watermark, news[1..], symbol, classify);
    }
  }

  /** Every document the loop body produces is inserted, unless the batch
      raised. */
  lemma {:induction false} EveryProducedDocInserted(watermark: Option<DateTime>, news: seq<Article>,
                                                    symbol: string, classify: Classifier)
    requires Ingest(watermark, news, symbol, classify).failure.None?
    ensures forall a :: a in news && Step(watermark, a, symbol, classify).Ok? && Step(watermark, a, symbol, classify).value.Some? ==>
      Step(watermark, a, symbol, classify).value.value in Ingest(watermark, news, symbol, classify).inserted
  {
    if news != [] {
      EveryProducedDocInserted(watermark, news[1..], symbol, classify);
    }
  }

  /** With no watermark and nothing raised, every article with a description
      is inserted. */
  lemma NoWatermarkInsertsEveryDescribed(news: seq<Article>, symbol: string, classify: Classifier)
    requires Ingest(None, news, symbol, classify).failure.None?
    ensures forall a :: a in news && HasDescription(a) ==>
      Step(None, a, symbol, classify).Ok? && Step(None, a, symbol, classify).value.Some? &&
      Step(None, a, symbol, classify).value.value in Ingest(None, news, symbol, classify).inserted
  {
    NoFailureMeansEveryStepOk(None, news, symbol, classify);
    EveryProducedDocInserted(None, news, symbol, classify);
  }

  /** An article whose parsing fails stops the batch at that article: what
      came before stays inserted and nothing after it is looked at. */
  lemma MalformedTimestampStopsBatch(watermark: Option<DateTime>, xs: seq<Article>, a: Article, ys: seq<Article>,
                                     symbol: string, classify: Classifier)
    requires Ingest(watermark, xs, symbol, classify).failure.None?
    requires Published(a).Err?
    ensures Ingest(watermark, xs + [a] + ys, symbol, classify) ==
            Batch(Ingest(watermark, xs, symbol, classify).inserted, Some(Published(a).error))
  {
    IngestAppend(watermark, xs + [a], ys, symbol, classify);
    IngestAppend(watermark, xs, [a], symbol, classify);
    assert [a][1..] == [];
    assert Ingest(watermark, xs, symbol, classify).inserted + [] == Ingest(watermark, xs, symbol, classify).inserted;
  }

  /** Re-reading the watermark after inserting a document would skip any
      later article stamped no later than that document. */
  lemma RefreshedWatermarkSkips(docs: seq<Doc>, doc: Doc, b: Article)
    requires forall i :: 0 <= i < |docs| && docs[i].asset == doc.asset ==> WellFormed(docs[i].timestamp)
    requires WellFormed(doc.timestamp) && Published(b).Ok? && !Before(Parse(doc.timestamp).value, Published(b).value)
    ensures var refreshed := Watermark(docs + [doc], doc.asset);
            refreshed.Ok? && refreshed.value.Some? && !Qualifies(refreshed.value, b)
  {
    var docs' := docs + [doc];
    var symbol := doc.asset;
    forall i | 0 <= i < |docs'| && docs'[i].asset == symbol ensures WellFormed(docs'[i].timestamp) {
      if i < |docs| {
        assert docs'[i] == docs[i];
      }
    }
    WatermarkIsLatestInstant(docs', symbol);
    var w := Watermark(docs', symbol).value;
    assert docs'[|docs|] == doc;
    var wv := w.value;
    var td := Parse(doc.timestamp).value;
    var tb := Published(b).value;
    assert !Before(wv, td);
    BeforeIsStrictTotalOrder(wv, td, tb);
    BeforeIsStrictTotalOrder(td, wv, tb);
    BeforeIsStrictTotalOrder(td, tb, wv);
    BeforeIsStrictTotalOrder(wv, tb, td);
  }

  /** The watermark is not refreshed inside a batch: two qualifying articles
      with the same `publishedAt` are both inserted, although re-reading the
      watermark after the first insert would have skipped the second. */
  lemma SameTimestampBothInserted(docs: seq<Doc>, a: Article, b: Article, symbol: string, classify: Classifier)
    requires forall i :: 0 <= i < |docs| && docs[i].asset == symbol ==> WellFormed(docs[i].timestamp)
    requires Watermark(docs, symbol).Ok?
    requires Qualifies(Watermark(docs, symbol).value, a) && Qualifies(Watermark(docs, symbol).value, b)
    requires !a.title.Missing? && !a.sourceName.Missing? && !b.title.Missing? && !b.sourceName.Missing?
    requires a.publishedAt == b.publishedAt && WellFormed(a.publishedAt.text)
    ensures var w := Watermark(docs, symbol).value;
            Run(docs, [a, b], symbol, classify) ==
            Batch([Step(w, a, symbol, classify).value.value, Step(w, b, symbol, classify).value.value], None)
    ensures var refreshed := Watermark(docs + [Step(Watermark(docs, symbol).value, a, symbol, classify).value.value], symbol);
            refreshed.Ok? && !Qualifies(refreshed.value, b)
  {
    var w := Watermark(docs, symbol).value;
    var da := Step(w, a, symbol, classify).value.value;
    var db := Step(w, b, symbol, classify).value.value;
    assert [a, b][1..] == [b];
    assert [b][1..] == [];
    assert Ingest(w, [b], symbol, classify) == Batch([db], None);
    assert Ingest(w, [a, b], symbol, classify) == Batch([da] + [db], None);
    InsertedFields(w, a, symbol, classify, da);
    BeforeIsStrictTotalOrder(Published(a).value, Published(a).value, Published(a).value);
    RefreshedWatermarkSkips(docs, da, b);
  }

  /** The loop after one more article. */
  lemma IngestExtend(watermark: Option<DateTime>, news: seq<Article>, i: nat, symbol: string, classify: Classifier)
    requires i < |news|
    ensures var prefix := Ingest(watermark, news[..i], symbol, classify);
            Ingest(watermark, news[..i + 1], symbol, classify) ==
              if prefix.failure.Some? then prefix
              else match Step(watermark, news[i], symbol, classify)
                   case Err(e) => Batch(prefix.inserted, Some(e))
                   case Ok(o) => Batch(prefix.inserted + AsSeq(o), None)
  {
    assert news[..i + 1] == news[..i] + [news[i]];
    IngestAppend(watermark, news[..i], [news[i]], symbol, classify);
    assert [news[i]][1..] == [];
  }

  /** Once a prefix of the batch raises, the whole batch ends there. */
  lemma IngestStops(watermark: Option<DateTime>, news: seq<Article>, j: nat, symbol: string, classify: Classifier)
    requires j <= |news| && Ingest(watermark, news[..j], symbol, classify).failure.Some?
    ensures Ingest(watermark, news, symbol, classify) == Ingest(watermark, news[..j], symbol, classify)
  {
    assert news == news[..j] + news[j..];
    IngestAppend(watermark, news[..j], news[j..], symbol, classify);
  }

  /** A step that fails ends the batch with its failure. */
  lemma IngestFailsAt(watermark: Option<DateTime>, news: seq<Article>, i: nat, symbol: string, classify: Classifier, e: Failure)
    requires i < |news| && Ingest(watermark, news[..i], symbol, classify).failure.None?
    requires Step(watermark, news[i], symbol, classify) == Err(e)
    ensures Ingest(watermark, news, symbol, classify) == Batch(Ingest(watermark, news[..i], symbol, classify).inserted, Some(e))
  {
    IngestExtend(watermark, news, i, symbol, classify);
    IngestStops(watermark, news, i + 1, symbol, classify);
  }

  /** A step that succeeds appends what it produced. */
  lemma IngestContinues(watermark: Option<DateTime>, news: seq<Article>, i: nat, symbol: string, classify: Classifier, o: Option<Doc>)
    requires i < |news| && Ingest(watermark, news[..i], symbol, classify).failure.None?
    requires Step(watermark, news[i], symbol, classify) == Ok(o)
    ensures Ingest(watermark, news[..i + 1], symbol, classify) == Batch(Ingest(watermark, news[..i], symbol, classify).inserted + AsSeq(o), None)
  {
    IngestExtend(watermark, news, i, symbol, classify);
  }

  /** `process_and_store_new_articles(news_data, symbol)`: reads the
      watermark once, then inserts each qualifying article's document in
      input order; an exception ends the run, keeping what was inserted. */
  method ProcessAndStoreNewArticles(collection: NewsSentimentCollection, news: seq<Article>,
                                    symbol: string, classify: Classifier)
    returns (failure: Option<Failure>)
    modifies collection
    ensures var b := Run(old(collection.docs), news, symbol, classify);
            collection.docs == old(collection.docs) + b.inserted && failure == b.failure
  {
    var latest := Watermark(collection.docs, symbol);
    if latest.Err? {
      return Some(latest.error);
    }
    var watermark := latest.value;
    ghost var stored := collection.docs;
    var i := 0;
    while i < |news|
      invariant 0 <= i <= |news|
      invariant Ingest(watermark, news[..i], symbol, classify).failure.None?
      invariant collection.docs == stored + Ingest(watermark, news[..i], symbol, classify).inserted
    {
      var article := news[i];
      var published := Published(article);
      if published.Err? {
        IngestFailsAt(watermark, news, i, symbol, classify, published.error);
        return Some(published.error);
      }
      if IsNew(watermark, published.value) && HasDescription(article) {
        var doc := Enrich(article, symbol, classify);
        if doc.Err? {
          IngestFailsAt(watermark, news, i, symbol, classify, doc.error);
          return Some(doc.error);
        }
        IngestContinues(watermark, news, i, symbol, classify, Some(doc.value));
        collection.InsertOne(doc.value);
      } else {
        IngestContinues(watermark, news, i, symbol, classify, None);
      }
      i := i + 1;
    }
    assert news[..i] == news;
    return None;
  }
}
