/**
 `sample_pagerank`: a random surfer walks `n` steps through the corpus and
 each page's rank is the share of steps spent on it. The random draws are
 inputs: `start` stands for `random.choice` over the pages and `choices[i]`
 for the page `random.choices` draws after step `i`; each draw is a page of
 the corpus.
 */
module Sampling {

  import opened Sums
  import opened Corpus
  import opened Transition

  /** The pages whose counters the walk increments, in order: the start page, then each draw. */
  function Visits<Page>(start: Page, choices: seq<Page>, n: int): seq<Page>
    requires n <= |choices|
  {
    if n <= 0 then [] else [start] + choices[..n - 1]
  }

  /** The draws are pages of the corpus; on a non-empty corpus so is the start page. */
  predicate DrawsInCorpus<Page>(corpus: Links<Page>, n: int, start: Page, choices: seq<Page>) {
    && n <= |choices|
    && (corpus != map[] ==> start in corpus)
    && (forall c <- choices :: c in corpus)
  }

  /**
   What `sample_pagerank` returns for the given draws: an IndexError on an
   empty corpus, the KeyError of `transition_model` when the walk reaches a
   page with a link outside the corpus, a ZeroDivisionError when no sample
   was taken, and otherwise each page's visit count divided by `n`.
   */
  function SampleOutcome<Page>(corpus: Links<Page>, n: int, start: Page, choices: seq<Page>): Result<Table<Page>>
    requires DrawsInCorpus(corpus, n, start, choices)
  {
    if corpus == map[] then Err(EmptyCorpus)
    else
      var walk := Visits(start, choices, n);
      if exists k <- walk :: !LinksInside(corpus, k) then Err(LinkNotInCorpus)
      else if n <= 0 then Err(NoSamples)
      else Ok(map p | p in corpus :: Count(walk, {p}) as real / n as real)
  }

  /** Every visited page is a page of the corpus, and there is one visit per step. */
  lemma VisitsInCorpus<Page>(corpus: Links<Page>, n: int, start: Page, choices: seq<Page>)
    requires DrawsInCorpus(corpus, n, start, choices) && corpus != map[]
    ensures forall k <- Visits(start, choices, n) :: k in corpus
    ensures |Visits(start, choices, n)| == if n <= 0 then 0 else n
  {
  }

  /** One more step visits the current page. */
  lemma VisitsStep<Page>(start: Page, choices: seq<Page>, i: nat)
    requires i < |choices|
    ensures Visits(start, choices, i + 1)
         == Visits(start, choices, i) + [if i == 0 then start else choices[i - 1]]
  {
    if i > 0 {
      assert choices[..i] == choices[..i - 1] + [choices[i - 1]];
    }
  }

  /**
   The visit counters over the corpus add up to the number of steps: every
   step visits exactly one page of the corpus.
   */
  lemma CountersSumToSteps<Page>(pages: seq<Page>, corpus: Links<Page>, counts: map<Page, int>, walk: seq<Page>)
    requires IsOrder(pages, corpus)
    requires forall k <- walk :: k in corpus
    requires forall p <- pages :: p in counts && counts[p] == Count(walk, {p})
    ensures Tally(pages, counts) == |walk|
  {
    OrderDistinct(pages, corpus);
    TallyOfCounts(pages, counts, walk);
    CountAll(walk, Elements(pages));
  }

  /** Frequencies `count / total` of counts that tally to `total` add up to 1. */
  lemma FrequenciesSumToOne<Page>(pages: seq<Page>, t: Table<Page>, counts: map<Page, int>, total: nat)
    requires total > 0
    requires forall p <- pages :: p in t && p in counts && t[p] == counts[p] as real / total as real
    requires Tally(pages, counts) == total
    ensures Sum(pages, t) == 1.0
  {
    SumOfRatios(pages, t, counts, total as real);
    SelfRatio(Tally(pages, counts), total);
  }

  /** A total divided by itself is 1. */
  lemma SelfRatio(a: int, b: nat)
    requires a == b > 0
    ensures a as real / b as real == 1.0
  {
  }

  /** A count of at most `total` samples gives a frequency between 0 and 1. */
  lemma FrequencyBounds(c: nat, total: nat)
    requires 0 < total && c <= total
    ensures 0.0 <= c as real / total as real <= 1.0
  {
    var q := c as real / total as real;
    assert q * total as real == c as real;
  }

  /**
   A sampled rank table has an entry for every page, each entry lies in
   [0, 1], and the entries sum to exactly 1.
   */
  lemma SampleSumsToOne<Page>(corpus: Links<Page>, pages: seq<Page>, n: int, start: Page, choices: seq<Page>)
    requires IsOrder(pages, corpus)
    requires DrawsInCorpus(corpus, n, start, choices)
    requires SampleOutcome(corpus, n, start, choices).Ok?
    ensures SampleOutcome(corpus, n, start, choices).value.Keys == corpus.Keys
    ensures forall p :: p in corpus ==> 0.0 <= SampleOutcome(corpus, n, start, choices).value[p] <= 1.0
    ensures Sum(pages, SampleOutcome(corpus, n, start, choices).value) == 1.0
  {
    var walk := Visits(start, choices, n);
    var t := SampleOutcome(corpus, n, start, choices).value;
    var counts := map p | p in corpus :: Count(walk, {p});
    VisitsInCorpus(corpus, n, start, choices);
    CountersSumToSteps(pages, corpus, counts, walk);
    FrequenciesSumToOne(pages, t, counts, n);
    forall p | p in corpus ensures 0.0 <= t[p] <= 1.0 {
      CountBound(walk, {p});
      FrequencyBounds(Count(walk, {p}), n);
    }
  }

  /** Counters that hold the visit counts of a completed walk, divided by `n`, are the outcome. */
  lemma IsSampleOutcome<Page>(corpus: Links<Page>, n: int, start: Page, choices: seq<Page>,
                              counts: map<Page, int>, t: Table<Page>)
    requires DrawsInCorpus(corpus, n, start, choices) && corpus != map[] && n > 0
    requires forall k <- Visits(start, choices, n) :: LinksInside(corpus, k)
    requires counts.Keys == corpus.Keys
    requires forall p :: p in counts ==> counts[p] == Count(Visits(start, choices, n), {p})
    requires t == map p | p in counts :: counts[p] as real / n as real
    ensures SampleOutcome(corpus, n, start, choices) == Ok(t)
  {
    var walk := Visits(start, choices, n);
    assert !exists k <- walk :: !LinksInside(corpus, k);
    var expected := map p | p in corpus :: Count(walk, {p}) as real / n as real;
    assert expected.Keys == t.Keys;
    assert forall p :: p in t ==> t[p] == expected[p];
    assert expected == t;
    assert SampleOutcome(corpus, n, start, choices) == Ok(expected);
  }

  /**
   One step of the walk from `page`, a page whose links stay inside the
   corpus: counting it keeps the counters equal to the visit counts, and
   every visited page still has its links inside the corpus.
   */
  lemma WalkStep<Page>(corpus: Links<Page>, n: int, start: Page, choices: seq<Page>, i: nat,
                       page: Page, counts: map<Page, int>)
    requires DrawsInCorpus(corpus, n, start, choices) && corpus != map[] && i < n
    requires page == if i == 0 then start else choices[i - 1]
    requires page in counts && page in corpus && LinksInside(corpus, page)
    requires forall p :: p in counts ==> counts[p] == Count(Visits(start, choices, i), {p})
    requires forall k <- Visits(start, choices, i) :: LinksInside(corpus, k)
    ensures forall p :: p in counts[page := counts[page] + 1] ==>
      counts[page := counts[page] + 1][p] == Count(Visits(start, choices, i + 1), {p})
    ensures forall k <- Visits(start, choices, i + 1) :: LinksInside(corpus, k)
  {
    VisitsStep(start, choices, i);
    var before := Visits(start, choices, i);
    assert (before + [page])[..|before|] == before;
  }

  /** A visited page with a link outside the corpus makes the walk fail. */
  lemma WalkStops<Page>(corpus: Links<Page>, n: int, start: Page, choices: seq<Page>, i: nat, page: Page)
    requires DrawsInCorpus(corpus, n, start, choices) && i < n
    requires page == if i == 0 then start else choices[i - 1]
    requires page in corpus && !LinksInside(corpus, page)
    ensures exists k <- Visits(start, choices, n) :: !LinksInside(corpus, k)
  {
    assert Visits(start, choices, n)[i] == page;
  }

  /**
   The counting walk of `sample_pagerank`: counters start at zero, and each
   of the `n` steps counts the current page, builds its transition model
   (whose KeyError ends the walk) and moves to the next draw.
   */
  method CountVisits<Page(==)>(corpus: Links<Page>, pages: seq<Page>, damping: real, n: int,
                               start: Page, choices: seq<Page>)
    returns (r: Result<map<Page, int>>)
    requires IsOrder(pages, corpus)
    requires DrawsInCorpus(corpus, n, start, choices) && corpus != map[]
    ensures r.Err? <==> exists k <- Visits(start, choices, n) :: !LinksInside(corpus, k)
    ensures r.Err? ==> r.error == LinkNotInCorpus
    ensures r.Ok? ==> r.value.Keys == corpus.Keys
    ensures r.Ok? ==> forall p :: p in r.value ==> r.value[p] == Count(Visits(start, choices, n), {p})
    ensures r.Ok? ==> Tally(pages, r.value) == if n <= 0 then 0 else n
  {
    var pageRank: map<Page, int> := map p | p in corpus :: 0;
    var page := start;
    var steps := if n <= 0 then 0 else n;
    ghost var walk := Visits(start, choices, n);
    for i := 0 to steps
      invariant page in corpus
      invariant page == if i == 0 then start else choices[i - 1]
      invariant pageRank.Keys == corpus.Keys
      invariant forall p :: p in pageRank ==> pageRank[p] == Count(Visits(start, choices, i), {p})
      invariant forall k <- Visits(start, choices, i) :: LinksInside(corpus, k)
    {
      ghost var counted := pageRank;
      pageRank := pageRank[page := pageRank[page] + 1];
      var distribution := TransitionModel(corpus, pages, page, damping);
      if distribution.Err? {
        WalkStops(corpus, n, start, choices, i, page);
        return Err(distribution.error);
      }
      WalkStep(corpus, n, start, choices, i, page, counted);
      page := choices[i];
    }
    assert Visits(start, choices, steps) == walk;
    VisitsInCorpus(corpus, n, start, choices);
    CountersSumToSteps(pages, corpus, pageRank, walk);
    r := Ok(pageRank);
  }

  /** `sum(page_rank.values())`, added up in the order of the pages. */
  method TotalSamples<Page(==)>(pages: seq<Page>, counts: map<Page, int>) returns (total: int)
    requires forall p <- pages :: p in counts
    ensures total == Tally(pages, counts)
  {
    total := 0;
    for j := 0 to |pages|
      invariant total == Tally(pages[..j], counts)
    {
      assert pages[..j + 1][..j] == pages[..j];
      total := total + counts[pages[j]];
    }
    assert pages[..|pages|] == pages;
  }

  /**
   The Python `sample_pagerank`: the counting walk from a start page, then
   every counter divided by the total number of samples.
   */
  method SamplePageRank<Page(==)>(corpus: Links<Page>, pages: seq<Page>, damping: real, n: int,
                                  start: Page, choices: seq<Page>)
    returns (r: Result<Table<Page>>)
    requires IsOrder(pages, corpus)
    requires DrawsInCorpus(corpus, n, start, choices)
    ensures r == SampleOutcome(corpus, n, start, choices)
  {
    if corpus == map[] {
      return Err(EmptyCorpus);
    }
    var counted := CountVisits(corpus, pages, damping, n, start, choices);
    if counted.Err? {
      return Err(counted.error);
    }
    var pageRank := counted.value;
    var totalSamples := TotalSamples(pages, pageRank);
    if totalSamples == 0 {
      return Err(NoSamples);
    }
    r := Ok(map p | p in pageRank :: pageRank[p] as real / totalSamples as real);
    IsSampleOutcome(corpus, n, start, choices, pageRank, r.value);
  }
}
