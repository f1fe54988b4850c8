/**
 * Phase 2 of the review pipeline: every configured review source is asked
 * for reviews; a source that raises is recorded with no reviews and adds
 * nothing to the total; substantial review texts become truncated quotes.
 */
module Reviews {
  import opened Wrappers
  import opened Trending

  /** One review as a source returns it; every field may be missing. */
  datatype Review = Review(text: Option<string>, rating: Option<real>, verified: Option<bool>)

  /**
   * What a source handler returns: its reviews, plus the optional top-level
   * `source` and `error` keys (the unknown-source answer carries an error).
   */
  datatype SourceReviews = SourceReviews(reviews: seq<Review>, source: Option<string>, error: Option<string>)

  /** A handler either returns its reviews or raises with a message. */
  datatype Fetch = Fetched(data: SourceReviews) | Raised(message: string)

  datatype Quote = Quote(text: string, source: string, rating: Option<real>, verified: bool)

  /** The record that `collect_reviews` builds (sentiment and pros/cons stay empty and are not modelled). */
  datatype ReviewsData = ReviewsData(
    product: Product,
    totalReviews: int,
    sources: map<string, SourceReviews>,
    keyQuotes: seq<Quote>)

  const MinQuoteSource: nat := 50
  const MaxQuoteText: nat := 200
  const Ellipsis: string := "..."

  /** The sources that have a handler; any other name is answered without raising. */
  predicate IsKnownSource(source: string) {
    source in {"amazon", "reddit", "youtube", "google"}
  }

  function ReviewText(r: Review): string {
    r.text.GetOr("")
  }

  /** Only reviews whose text is longer than 50 characters are quoted. */
  predicate IsSubstantial(r: Review) {
    |ReviewText(r)| > MinQuoteSource
  }

  /** The quoted text: at most 200 characters, with "..." appended when cut. */
  function QuoteText(text: string): (q: string)
    ensures |q| <= MaxQuoteText + |Ellipsis|
    ensures |text| <= MaxQuoteText ==> q == text
    ensures |text| > MaxQuoteText ==>
              |q| == MaxQuoteText + |Ellipsis| && q[..MaxQuoteText] == text[..MaxQuoteText] && q[MaxQuoteText..] == Ellipsis
    ensures |q| >= |text| || |q| == MaxQuoteText + |Ellipsis|
  {
    if |text| > MaxQuoteText then text[..MaxQuoteText] + Ellipsis else text
  }

  function QuoteOf(sr: SourceReviews, r: Review): Quote {
    Quote(QuoteText(ReviewText(r)), sr.source.GetOr("unknown"), r.rating, r.verified.GetOr(false))
  }

  /** Reference definition: the substantial reviews, in order, each turned into a quote. */
  function QuotesFor(sr: SourceReviews, rs: seq<Review>): seq<Quote> {
    if |rs| == 0 then []
    else QuotesFor(sr, rs[..|rs| - 1])
         + (if IsSubstantial(rs[|rs| - 1]) then [QuoteOf(sr, rs[|rs| - 1])] else [])
  }

  function CountSubstantial(rs: seq<Review>): nat {
    if |rs| == 0 then 0
    else CountSubstantial(rs[..|rs| - 1]) + (if IsSubstantial(rs[|rs| - 1]) then 1 else 0)
  }

  /** Each quote of a source comes from a substantial review and its text is between 51 and 203 characters. */
  lemma {:induction false} QuotesForShape(sr: SourceReviews, rs: seq<Review>)
    ensures |QuotesFor(sr, rs)| == CountSubstantial(rs)
    ensures forall k :: 0 <= k < |QuotesFor(sr, rs)| ==>
              MinQuoteSource < |QuotesFor(sr, rs)[k].text| <= MaxQuoteText + |Ellipsis|
  {
    if |rs| > 0 {
      QuotesForShape(sr, rs[..|rs| - 1]);
    }
  }

  /**
   * `_extract_insights`: appends one quote per substantial review, in review
   * order, after the quotes already collected.
   */
  method ExtractInsights(sr: SourceReviews, quotes: seq<Quote>) returns (r: seq<Quote>)
    ensures r == quotes + QuotesFor(sr, sr.reviews)
    ensures r[..|quotes|] == quotes
    ensures |r| == |quotes| + CountSubstantial(sr.reviews)
  {
    r := quotes;
    var i := 0;
    while i < |sr.reviews|
      invariant 0 <= i <= |sr.reviews|
      invariant r == quotes + QuotesFor(sr, sr.reviews[..i])
    {
      var review := sr.reviews[i];
      assert sr.reviews[..i + 1][..i] == sr.reviews[..i];
      if |ReviewText(review)| > MinQuoteSource {
        r := r + [QuoteOf(sr, review)];
      }
      i := i + 1;
    }
    assert sr.reviews[..i] == sr.reviews;
    QuotesForShape(sr, sr.reviews);
  }

  /**
   * `_collect_source_reviews`: a known source is answered by its handler,
   * whose outcome is the parameter `handled`; an unknown one gets an empty
   * review list with an error message, without raising.
   */
  function CollectSource(source: string, handled: Fetch): (r: Fetch)
    ensures IsKnownSource(source) ==> r == handled
    ensures !IsKnownSource(source) ==> r == Fetched(SourceReviews([], None, Some("Unknown source: " + source)))
    ensures !IsKnownSource(source) ==> r.Fetched? && |r.data.reviews| == 0
  {
    if IsKnownSource(source) then handled
    else Fetched(SourceReviews([], None, Some("Unknown source: " + source)))
  }

  /** The entry recorded in `sources` for one source: a raised error becomes an empty review list. */
  function EntryFor(source: string, handled: Fetch): SourceReviews {
    match CollectSource(source, handled)
    case Fetched(d) => d
    case Raised(m) => SourceReviews([], None, Some(m))
  }

  /**
   * Reviews a source adds to the total: the length of its handler's list,
   * or 0 when it raised or has no handler.
   */
  function ReviewsAdded(source: string, handled: Fetch): nat {
    if !IsKnownSource(source) then 0
    else match handled
      case Fetched(d) => |d.reviews|
      case Raised(_) => 0
  }

  /** Quotes a source adds: those of its handler's reviews, or none when it raised or has no handler. */
  function QuotesAdded(source: string, handled: Fetch): seq<Quote> {
    if !IsKnownSource(source) then []
    else match handled
      case Fetched(d) => QuotesFor(d, d.reviews)
      case Raised(_) => []
  }

  /** The two contributions are what the loop body adds for the outcome of `_collect_source_reviews`. */
  lemma ContributionsAgree(source: string, handled: Fetch)
    ensures CollectSource(source, handled).Fetched? ==>
              var d := CollectSource(source, handled).data;
              ReviewsAdded(source, handled) == |d.reviews| && QuotesAdded(source, handled) == QuotesFor(d, d.reviews)
    ensures CollectSource(source, handled).Raised? ==>
              ReviewsAdded(source, handled) == 0 && QuotesAdded(source, handled) == []
  {
  }

  /** Reference: the summed review counts of the first `n` sources that did not raise. */
  function SucceededTotal(sources: seq<string>, handled: seq<Fetch>, n: nat): nat
    requires n <= |sources| == |handled|
  {
    if n == 0 then 0
    else SucceededTotal(sources, handled, n - 1) + ReviewsAdded(sources[n - 1], handled[n - 1])
  }

  /** Reference: the quotes of the first `n` sources that did not raise, source by source. */
  function AllQuotes(sources: seq<string>, handled: seq<Fetch>, n: nat): seq<Quote>
    requires n <= |sources| == |handled|
  {
    if n == 0 then []
    else AllQuotes(sources, handled, n - 1) + QuotesAdded(sources[n - 1], handled[n - 1])
  }

  /** A source that raises contributes nothing, whatever it raised. */
  lemma FailedSourceAddsNothing(sources: seq<string>, handled: seq<Fetch>, n: nat)
    requires n < |sources| == |handled|
    requires IsKnownSource(sources[n]) && handled[n].Raised?
    ensures SucceededTotal(sources, handled, n + 1) == SucceededTotal(sources, handled, n)
    ensures AllQuotes(sources, handled, n + 1) == AllQuotes(sources, handled, n)
  {
  }

  /** The total never exceeds the number of reviews the handlers produced. */
  lemma {:induction false} TotalBounded(sources: seq<string>, handled: seq<Fetch>, n: nat)
    requires n <= |sources| == |handled|
    ensures SucceededTotal(sources, handled, n) <= Produced(handled, n)
  {
    if n > 0 {
      TotalBounded(sources, handled, n - 1);
    }
  }

  /** Reviews returned by the first `n` handlers, whether or not their source is known. */
  function Produced(handled: seq<Fetch>, n: nat): nat
    requires n <= |handled|
  {
    if n == 0 then 0
    else Produced(handled, n - 1)
         + match handled[n - 1] case Fetched(d) => |d.reviews| case Raised(_) => 0
  }

  /** No source after position `k` and before `i` repeats `sources[k]`. */
  ghost predicate LastBefore(sources: seq<string>, k: int, i: int)
    requires 0 <= k < i <= |sources|
  {
    forall j :: k < j < i ==> sources[j] != sources[k]
  }

  /**
   * The `sources` map has exactly the sources seen so far as keys, and holds
   * for each the entry of its last occurrence.
   */
  ghost predicate EntriesUpTo(m: map<string, SourceReviews>, sources: seq<string>, handled: seq<Fetch>, i: int)
    requires 0 <= i <= |sources| == |handled|
  {
    && (forall s :: s in m ==> s in sources[..i])
    && (forall k :: 0 <= k < i ==> sources[k] in m)
    && (forall k :: 0 <= k < i && LastBefore(sources, k, i) ==> m[sources[k]] == EntryFor(sources[k], handled[k]))
  }

  lemma EntriesStep(m: map<string, SourceReviews>, sources: seq<string>, handled: seq<Fetch>, i: int)
    requires 0 <= i < |sources| == |handled|
    requires EntriesUpTo(m, sources, handled, i)
    ensures EntriesUpTo(m[sources[i] := EntryFor(sources[i], handled[i])], sources, handled, i + 1)
  {
    var m' := m[sources[i] := EntryFor(sources[i], handled[i])];
    assert sources[..i + 1] == sources[..i] + [sources[i]];
    forall k | 0 <= k < i + 1 && LastBefore(sources, k, i + 1)
      ensures m'[sources[k]] == EntryFor(sources[k], handled[k])
    {
      if k < i {
        assert sources[i] != sources[k];
        assert LastBefore(sources, k, i);
      }
    }
  }

  /**
   * One pass of the loop body of `collect_reviews`: the entry recorded for
   * the source, the reviews it adds to the total, and the quote list after
   * its substantial reviews are appended.
   */
  method VisitSource(source: string, handled: Fetch, quotes: seq<Quote>)
    returns (entry: SourceReviews, added: nat, quotes': seq<Quote>)
    ensures entry == EntryFor(source, handled)
    ensures added == ReviewsAdded(source, handled)
    ensures quotes' == quotes + QuotesAdded(source, handled)
  {
    match CollectSource(source, handled) {
      case Fetched(d) =>
        entry, added := d, |d.reviews|;
        quotes' := ExtractInsights(d, quotes);
      case Raised(m) =>
        entry, added, quotes' := SourceReviews([], None, Some(m)), 0, quotes;
    }
    ContributionsAgree(source, handled);
  }

  /**
   * The record after the first `i` configured sources were visited: the
   * product is kept, the total sums the review counts of the sources that
   * did not raise, every source seen has the entry of its last occurrence,
   * and the quotes are those of the successful sources in visiting order.
   */
  ghost predicate CollectedUpTo(data: ReviewsData, product: Product, sources: seq<string>, handled: seq<Fetch>, i: int)
    requires 0 <= i <= |sources| == |handled|
  {
    && data.product == product
    && data.totalReviews == SucceededTotal(sources, handled, i)
    && EntriesUpTo(data.sources, sources, handled, i)
    && data.keyQuotes == AllQuotes(sources, handled, i)
  }

  /** Before any source is visited the record is empty. */
  lemma CollectStart(product: Product, sources: seq<string>, handled: seq<Fetch>)
    requires |sources| == |handled|
    ensures CollectedUpTo(ReviewsData(product, 0, map[], []), product, sources, handled, 0)
  {
    assert sources[..0] == [];
  }

  /** One visit of the collection loop extends the record from the first `i` sources to the first `i + 1`. */
  lemma CollectStep(data: ReviewsData, product: Product, sources: seq<string>, handled: seq<Fetch>, i: int,
                    entry: SourceReviews, added: nat, quotes: seq<Quote>)
    requires 0 <= i < |sources| == |handled|
    requires CollectedUpTo(data, product, sources, handled, i)
    requires entry == EntryFor(sources[i], handled[i])
    requires added == ReviewsAdded(sources[i], handled[i])
    requires quotes == data.keyQuotes + QuotesAdded(sources[i], handled[i])
    ensures CollectedUpTo(ReviewsData(product, data.totalReviews + added, data.sources[sources[i] := entry], quotes),
                          product, sources, handled, i + 1)
  {
    EntriesStep(data.sources, sources, handled, i);
  }

  /** Once every source is visited, the sources map has exactly the configured sources as keys. */
  lemma CollectedCoversSources(m: map<string, SourceReviews>, sources: seq<string>, handled: seq<Fetch>)
    requires |sources| == |handled|
    requires EntriesUpTo(m, sources, handled, |sources|)
    ensures forall s :: s in m <==> s in sources
  {
    assert sources[..|sources|] == sources;
  }

  /**
   * `collect_reviews`: the configured sources are visited in order;
   * `handled[i]` is what the handler for `sources[i]` returned or raised.
   * The total is the sum over sources that did not raise, every configured
   * source has an entry (a later duplicate overwrites an earlier one), and
   * the quotes are those of the successful sources in order.
   */
  method CollectReviews(product: Product, sources: seq<string>, handled: seq<Fetch>) returns (data: ReviewsData)
    requires |handled| == |sources|
    ensures CollectedUpTo(data, product, sources, handled, |sources|)
  {
    data := ReviewsData(product, 0, map[], []);
    CollectStart(product, sources, handled);
    var i := 0;
    while i < |sources|
      invariant 0 <= i <= |sources|
      invariant CollectedUpTo(data, product, sources, handled, i)
    {
      var source := sources[i];
      var entry, added, quotes := VisitSource(source, handled[i], data.keyQuotes);
      CollectStep(data, product, sources, handled, i, entry, added, quotes);
      data := ReviewsData(product, data.totalReviews + added, data.sources[source := entry], quotes);
      i := i + 1;
    }
  }
}
