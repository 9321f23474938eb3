/** The daily return series of analysis.py: `process_data` walks the dates of
    a daily quote table in ascending order, carrying the previous close, and
    `store_data` tags each processed entry with the asset's symbol. Close
    prices are exact reals, already parsed. */
module DailyReturns {
  import opened Wrappers
  import opened Exceptions
  import opened Strings

  /** The field of a daily quote that holds the close price. */
  const CloseKey: string := "4. close"

  /** One day's quote fields. */
  type Quote = map<string, real>

  /** The daily series: a quote per `YYYY-MM-DD` date. */
  type DailyData = map<string, Quote>

  /** `{"date": ..., "close_price": ..., "daily_return": ...}`. */
  datatype Entry = Entry(date: string, closePrice: real, dailyReturn: real)

  /** The document `store_data` builds for one entry. */
  datatype Document = Document(symbol: string, date: string, closePrice: real, dailyReturn: real)

  /** The return over one day. `previous` is `None` on the first day; a
      previous close of 0 fails the truthiness test of `if previous_close:`
      just like `None`, so the return is 0 rather than a division by zero.
      Otherwise the return is the one that compounds the previous close
      into the new one. */
  function Return(previous: Option<real>, close: real): real
  {
    if previous.Some? && previous.value != 0.0 then (close - previous.value) / previous.value else 0.0
  }

  /** No previous close, or a zero one, gives return 0; otherwise the
      previous close grown by the return is the new close. */
  lemma ReturnGrowth(previous: Option<real>, close: real)
    ensures previous.None? ==> Return(previous, close) == 0.0
    ensures previous.Some? && previous.value == 0.0 ==> Return(previous, close) == 0.0
    ensures previous.Some? && previous.value != 0.0 ==> previous.value * (1.0 + Return(previous, close)) == close
  {
  }

  /** With a positive previous close the return has the sign of the price move. */
  lemma ReturnSign(previous: real, close: real)
    requires previous > 0.0
    ensures Return(Some(previous), close) > 0.0 <==> close > previous
    ensures Return(Some(previous), close) == 0.0 <==> close == previous
    ensures Return(Some(previous), close) < 0.0 <==> close < previous
  {
    var r := Return(Some(previous), close);
    assert close - previous == previous * r;
    MulSign(previous, r);
  }

  lemma MulSign(p: real, r: real)
    requires p > 0.0
    ensures p * r > 0.0 <==> r > 0.0
    ensures p * r == 0.0 <==> r == 0.0
  {
    if r > 0.0 {
      assert p * r > 0.0;
    } else if r < 0.0 {
      assert p * (-r) > 0.0;
    }
  }

  /** `float(daily_data[date]["4. close"])`: a quote without the field is a
      `KeyError`. */
  function Close(data: DailyData, date: string): Result<real, Failure>
    requires date in data
  {
    if CloseKey in data[date] then Ok(data[date][CloseKey]) else Err(KeyError(CloseKey))
  }

  /** The close carried into the next day: that of the last entry, if any. */
  function Previous(processed: seq<Entry>): Option<real>
  {
    if |processed| == 0 then None else Some(processed[|processed| - 1].closePrice)
  }

  /** `processed_data` after the loop has handled `dates` in turn, or the
      `KeyError` of the first date without a close. */
  function Entries(dates: seq<string>, data: DailyData): Result<seq<Entry>, Failure>
    requires forall i :: 0 <= i < |dates| ==> dates[i] in data
  {
    if |dates| == 0 then Ok([])
    else
      var n := |dates| - 1;
      var processed :- Entries(dates[..n], data);
      var close :- Close(data, dates[n]);
      Ok(processed + [Entry(dates[n], close, Return(Previous(processed), close))])
  }

  /** The walk fails exactly when some date lacks a close, and then with the
      `KeyError` for the close field. */
  lemma {:induction false} EntriesOkIff(dates: seq<string>, data: DailyData)
    requires forall i :: 0 <= i < |dates| ==> dates[i] in data
    ensures Entries(dates, data).Ok? <==> forall i :: 0 <= i < |dates| ==> CloseKey in data[dates[i]]
    ensures Entries(dates, data).Err? ==> Entries(dates, data).error == KeyError(CloseKey)
  {
    if |dates| > 0 {
      var n := |dates| - 1;
      EntriesOkIff(dates[..n], data);
      assert forall i :: 0 <= i < n ==> dates[..n][i] == dates[i];
    }
  }

  /** What a successful walk produces: one entry per date, in the same order,
      each with that date's close; the first return is 0 and every later one
      is the return from the close of the immediately preceding date. */
  lemma {:induction false} EntriesMeaning(dates: seq<string>, data: DailyData)
    requires forall i :: 0 <= i < |dates| ==> dates[i] in data
    requires Entries(dates, data).Ok?
    ensures var r := Entries(dates, data).value;
            |r| == |dates| &&
            (forall i :: 0 <= i < |r| ==> r[i].date == dates[i] && CloseKey in data[dates[i]] && r[i].closePrice == data[dates[i]][CloseKey]) &&
            (|r| > 0 ==> r[0].dailyReturn == 0.0) &&
            (forall i :: 0 < i < |r| ==> r[i].dailyReturn == Return(Some(r[i - 1].closePrice), r[i].closePrice))
  {
    if |dates| > 0 {
      var n := |dates| - 1;
      var prefix := dates[..n];
      assert forall i :: 0 <= i < n ==> prefix[i] == dates[i];
      EntriesMeaning(prefix, data);
      var processed := Entries(prefix, data).value;
      var close := Close(data, dates[n]).value;
      var e := Entry(dates[n], close, Return(Previous(processed), close));
      EntriesAppend(processed, e);
    }
  }

  lemma EntriesAppend(processed: seq<Entry>, e: Entry)
    ensures var r := processed + [e];
            |r| == |processed| + 1 && r[|processed|] == e &&
            forall i :: 0 <= i < |processed| ==> r[i] == processed[i]
  {
  }

  /** The returns compound: each day's close is the previous close grown by
      that day's return, except after a zero close, where the return is 0. */
  lemma ReturnsCompound(r: seq<Entry>)
    requires forall i :: 0 < i < |r| ==> r[i].dailyReturn == Return(Some(r[i - 1].closePrice), r[i].closePrice)
    ensures forall i :: 0 < i < |r| ==>
              (r[i - 1].closePrice != 0.0 ==> r[i - 1].closePrice * (1.0 + r[i].dailyReturn) == r[i].closePrice) &&
              (r[i - 1].closePrice == 0.0 ==> r[i].dailyReturn == 0.0)
  {
    forall i | 0 < i < |r|
      ensures r[i - 1].closePrice != 0.0 ==> r[i - 1].closePrice * (1.0 + r[i].dailyReturn) == r[i].closePrice
      ensures r[i - 1].closePrice == 0.0 ==> r[i].dailyReturn == 0.0
    {
      Compound(r[i - 1].closePrice, r[i].closePrice, r[i].dailyReturn);
    }
  }

  lemma Compound(previous: real, close: real, r: real)
    requires r == Return(Some(previous), close)
    ensures previous != 0.0 ==> previous * (1.0 + r) == close
    ensures previous == 0.0 ==> r == 0.0
  {
  }

  /** Insert `x` into a strictly sorted listing. */
  function Insert(s: seq<string>, x: string): seq<string>
  {
    if |s| == 0 then [x]
    else if Less(x, s[0]) then [x] + s
    else [s[0]] + Insert(s[1..], x)
  }

  lemma ElemsCons(h: string, t: seq<string>)
    ensures Elems([h] + t) == {h} + Elems(t)
  {
    assert forall x :: x in [h] + t <==> x == h || x in t;
  }

  lemma ConsSorted(h: string, t: seq<string>)
    requires StrictlySorted(t)
    requires forall y :: y in t ==> Less(h, y)
    ensures StrictlySorted([h] + t)
  {
    var s := [h] + t;
    forall i, j | 0 <= i < j < |s| ensures Less(s[i], s[j]) {
      assert s[j] == t[j - 1];
      if i > 0 {
        assert s[i] == t[i - 1];
      }
    }
  }

  /** Inserting a new string keeps the listing strictly sorted and adds
      exactly that string. */
  lemma {:induction false} InsertSorted(s: seq<string>, x: string)
    requires StrictlySorted(s) && x !in s
    ensures StrictlySorted(Insert(s, x)) && Elems(Insert(s, x)) == Elems(s) + {x}
  {
    if |s| == 0 {
      assert Elems([x]) == {x} by { ElemsCons(x, []); }
    } else if Less(x, s[0]) {
      forall y | y in s ensures Less(x, y) {
        var k :| 0 <= k < |s| && s[k] == y;
        if k > 0 {
          LessTransitive(x, s[0], y);
        }
      }
      ConsSorted(x, s);
      ElemsCons(x, s);
    } else {
      var t := s[1..];
      LessTotal(x, s[0]);
      InsertSorted(t, x);
      forall y | y in Insert(t, x) ensures Less(s[0], y) {
        assert y in Elems(Insert(t, x));
        if y != x {
          var k :| 0 <= k < |t| && t[k] == y;
          assert s[k + 1] == y;
        }
      }
      ConsSorted(s[0], Insert(t, x));
      ElemsCons(s[0], Insert(t, x));
      ElemsCons(s[0], t);
      assert s == [s[0]] + t;
    }
  }

  /** `sorted(daily_data.keys())`: the dates in ascending order. */
  method SortedDates(keys: set<string>) returns (dates: seq<string>)
    ensures StrictlySorted(dates) && Elems(dates) == keys
  {
    dates := [];
    var rest := keys;
    while rest != {}
      invariant StrictlySorted(dates)
      invariant Elems(dates) + rest == keys && Elems(dates) !! rest
      decreases |rest|
    {
      var x :| x in rest;
      assert x !in Elems(dates);
      InsertSorted(dates, x);
      dates := Insert(dates, x);
      rest := rest - {x};
    }
    NoElems(dates);
  }

  /** The dates of processed entries. */
  function Dates(processed: seq<Entry>): (r: seq<string>)
    ensures |r| == |processed| && forall i :: 0 <= i < |r| ==> r[i] == processed[i].date
  {
    seq(|processed|, i requires 0 <= i < |processed| => processed[i].date)
  }

  /** `process_data`. It fails with the `KeyError` for the close field
      exactly when some date lacks a close. On success it lists every date of
      the table once, in ascending order, and the entries are those of the
      walk over that listing, which is the only strictly sorted one. */
  method ProcessData(data: DailyData) returns (r: Result<seq<Entry>, Failure>)
    ensures r.Err? <==> exists d :: d in data && CloseKey !in data[d]
    ensures r.Err? ==> r.error == KeyError(CloseKey)
    ensures r.Ok? ==> StrictlySorted(Dates(r.value)) && Elems(Dates(r.value)) == data.Keys
    ensures r.Ok? ==> forall i :: 0 <= i < |r.value| ==> r.value[i].date in data
    ensures r.Ok? ==> Entries(Dates(r.value), data) == r
  {
    var dates := SortedDates(data.Keys);
    assert forall i :: 0 <= i < |dates| ==> dates[i] in Elems(dates);
    var processed: seq<Entry> := [];
    var previous: Option<real> := None;
    for i := 0 to |dates|
      invariant Entries(dates[..i], data) == Ok(processed)
      invariant previous == Previous(processed)
    {
      var date := dates[i];
      if CloseKey !in data[date] {
        return Err(KeyError(CloseKey));
      }
      var close := data[date][CloseKey];
      var dailyReturn := 0.0;
      if previous.Some? && previous.value != 0.0 {
        dailyReturn := (close - previous.value) / previous.value;
      }
      assert dailyReturn == Return(previous, close);
      EntriesStep(dates, data, i, processed);
      processed := processed + [Entry(date, close, dailyReturn)];
      previous := Some(close);
    }
    assert dates[..|dates|] == dates;
    WalkComplete(dates, data, processed);
    r := Ok(processed);
  }

  /** One more date with a close extends the walk by its entry. */
  lemma EntriesStep(dates: seq<string>, data: DailyData, i: nat, processed: seq<Entry>)
    requires forall k :: 0 <= k < |dates| ==> dates[k] in data
    requires i < |dates| && Entries(dates[..i], data) == Ok(processed)
    requires CloseKey in data[dates[i]]
    ensures var close := data[dates[i]][CloseKey];
            Entries(dates[..i + 1], data) == Ok(processed + [Entry(dates[i], close, Return(Previous(processed), close))])
  {
    assert dates[..i + 1][..i] == dates[..i];
  }

  /** A walk over a listing of every date that succeeds lists the dates in
      that order, and then every date has a close. */
  lemma WalkComplete(dates: seq<string>, data: DailyData, processed: seq<Entry>)
    requires forall k :: 0 <= k < |dates| ==> dates[k] in data
    requires Elems(dates) == data.Keys && Entries(dates, data) == Ok(processed)
    ensures Dates(processed) == dates
    ensures forall d :: d in data ==> CloseKey in data[d]
  {
    EntriesMeaning(dates, data);
    assert Dates(processed) == dates;
    forall d | d in data ensures CloseKey in data[d] {
      assert d in Elems(dates);
      var k :| 0 <= k < |dates| && dates[k] == d;
    }
  }

  /** The entry a stored document carries. */
  function EntryOf(doc: Document): Entry
  {
    Entry(doc.date, doc.closePrice, doc.dailyReturn)
  }

  /** The documents of `store_data`: one per processed entry, in order, each
      tagged with the symbol and carrying its entry unchanged. */
  function Documents(symbol: string, processed: seq<Entry>): (r: seq<Document>)
    ensures |r| == |processed|
    ensures forall i :: 0 <= i < |r| ==> r[i].symbol == symbol && EntryOf(r[i]) == processed[i]
  {
    seq(|processed|, i requires 0 <= i < |processed| =>
      Document(symbol, processed[i].date, processed[i].closePrice, processed[i].dailyReturn))
  }

  /** The stored series of one symbol: its dates ascend, each document holds
      its date's close, the first return is 0 and every later return is taken
      from the close of the document before it. */
  lemma StoredSeries(symbol: string, data: DailyData, processed: seq<Entry>)
    requires forall i :: 0 <= i < |processed| ==> processed[i].date in data
    requires StrictlySorted(Dates(processed)) && Elems(Dates(processed)) == data.Keys
    requires Entries(Dates(processed), data) == Ok(processed)
    ensures var docs := Documents(symbol, processed);
            |docs| == |data| &&
            (forall i, j :: 0 <= i < j < |docs| ==> Less(docs[i].date, docs[j].date)) &&
            (forall i :: 0 <= i < |docs| ==> docs[i].symbol == symbol && CloseKey in data[docs[i].date] && docs[i].closePrice == data[docs[i].date][CloseKey]) &&
            (|docs| > 0 ==> docs[0].dailyReturn == 0.0) &&
            (forall i :: 0 < i < |docs| ==> docs[i].dailyReturn == Return(Some(docs[i - 1].closePrice), docs[i].closePrice))
  {
    var dates := Dates(processed);
    EntriesMeaning(dates, data);
    DistinctCount(dates);
  }

  /** A strictly sorted listing has as many elements as its set. */
  lemma {:induction false} DistinctCount(s: seq<string>)
    requires StrictlySorted(s)
    ensures |Elems(s)| == |s|
  {
    if |s| > 0 {
      var t := s[1..];
      assert StrictlySorted(t) by {
        forall i, j | 0 <= i < j < |t| ensures Less(t[i], t[j]) {
          assert t[i] == s[i + 1] && t[j] == s[j + 1];
        }
      }
      DistinctCount(t);
      assert s[0] !in t by {
        forall k | 0 <= k < |t| ensures t[k] != s[0] {
          assert Less(s[0], s[k + 1]);
          LessIrreflexive(s[0]);
        }
      }
      ElemsCons(s[0], t);
      assert s == [s[0]] + t;
    }
  }
}
