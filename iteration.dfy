/**
 `iterate_pagerank`: start from the uniform table and sweep. One sweep gives
 every page the teleport share `(1 - d) / N` plus `d` times the rank that
 flows into it: a page `q` passes `rank[q] / |links of q|` along each of its
 links, and a dead end passes `rank[q] / N` to every page. Sweeps repeat
 until no entry moves by more than 0.001. The Python loop has no bound; here
 the number of sweeps is capped by `maxSweeps` and running out of sweeps is
 the error `NotConverged`.
 */
module Iteration {

  import opened Sums
  import opened Corpus

  /** The convergence tolerance of the sweeps. */
  const Threshold: real := 0.001

  function Abs(x: real): real {
    if x < 0.0 then -x else x
  }

  /** Every page of `qs` is a page of the corpus with an entry in `rank`. */
  predicate Senders<Page>(corpus: Links<Page>, rank: Table<Page>, qs: seq<Page>) {
    forall q <- qs :: q in corpus && q in rank
  }

  /**
   What `q` passes to `p` in one sweep. Both cases are checked for every `q`,
   as the inner loop does; at most one of them applies.
   */
  function Contribution<Page>(corpus: Links<Page>, rank: Table<Page>, q: Page, p: Page): real
    requires q in corpus && q in rank
  {
    (if p in corpus[q] then rank[q] / |corpus[q]| as real else 0.0)
    + (if |corpus[q]| == 0 then rank[q] / |corpus| as real else 0.0)
  }

  /** `rank_sum` for page `p`: what the pages `qs` pass to it, added up in order. */
  function Inflow<Page>(corpus: Links<Page>, rank: Table<Page>, qs: seq<Page>, p: Page): real
    requires Senders(corpus, rank, qs)
    decreases |qs|
  {
    if |qs| == 0 then 0.0
    else Inflow(corpus, rank, qs[..|qs| - 1], p) + Contribution(corpus, rank, qs[|qs| - 1], p)
  }

  /** What `q` passes to each page of the corpus. */
  function Outflow<Page>(corpus: Links<Page>, rank: Table<Page>, q: Page): (out: Table<Page>)
    requires q in corpus && q in rank
    ensures out.Keys == corpus.Keys
  {
    map p | p in corpus :: Contribution(corpus, rank, q, p)
  }

  /** What the pages `qs` pass to each page of the corpus. */
  function Received<Page>(corpus: Links<Page>, rank: Table<Page>, qs: seq<Page>): (got: Table<Page>)
    requires Senders(corpus, rank, qs)
    ensures got.Keys == corpus.Keys
  {
    map p | p in corpus :: Inflow(corpus, rank, qs, p)
  }

  /** The teleport share `(1 - d) / N` every page gets in a sweep (no page gets it in an empty corpus). */
  function Teleport<Page>(corpus: Links<Page>, damping: real): real
  {
    if |corpus| == 0 then 0.0 else (1.0 - damping) / |corpus| as real
  }

  /** `base + scale * t[p]` for every entry of `t`. */
  function Affine<Page>(base: real, scale: real, t: Table<Page>): (r: Table<Page>)
    ensures r.Keys == t.Keys
  {
    map p | p in t :: base + scale * t[p]
  }

  /**
   The table one sweep computes from `rank`: the teleport share plus `d`
   times what the pages `pages` pass on. An empty corpus sweeps to the empty table.
   */
  function Sweep<Page>(corpus: Links<Page>, pages: seq<Page>, damping: real, rank: Table<Page>): (next: Table<Page>)
    requires Senders(corpus, rank, pages)
    ensures next.Keys == corpus.Keys
  {
    Affine(Teleport(corpus, damping), damping, Received(corpus, rank, pages))
  }

  /** No page of the corpus moved by more than the threshold. */
  predicate Converged<Page>(corpus: Links<Page>, prev: Table<Page>, next: Table<Page>)
    requires corpus.Keys <= prev.Keys && corpus.Keys <= next.Keys
  {
    forall p <- corpus.Keys :: Abs(next[p] - prev[p]) <= Threshold
  }

  /** The starting table: `1 / N` on every page. */
  function Uniform<Page>(corpus: Links<Page>): (rank: Table<Page>)
    ensures rank.Keys == corpus.Keys
  {
    map p | p in corpus :: 1.0 / |corpus| as real
  }

  /**
   Sweeping from `rank` with at most `fuel` sweeps left: the first sweep
   whose result passes the convergence test gives the answer.
   */
  function Iterate<Page>(corpus: Links<Page>, pages: seq<Page>, damping: real, rank: Table<Page>, fuel: nat)
    : Result<Table<Page>>
    requires IsOrder(pages, corpus) && rank.Keys == corpus.Keys
    decreases fuel
  {
    if fuel == 0 then Err(NotConverged)
    else
      var next := Sweep(corpus, pages, damping, rank);
      if Converged(corpus, rank, next) then Ok(next)
      else Iterate(corpus, pages, damping, next, fuel - 1)
  }

  /** What `iterate_pagerank` returns with a budget of `maxSweeps` sweeps. */
  function IterationOutcome<Page>(corpus: Links<Page>, pages: seq<Page>, damping: real, maxSweeps: nat)
    : Result<Table<Page>>
    requires IsOrder(pages, corpus)
  {
    Iterate(corpus, pages, damping, Uniform(corpus), maxSweeps)
  }

  // ---------------------------------------------------------------------------
  // Mass conservation

  /** The uniform start sums to exactly 1 on a non-empty corpus. */
  lemma UniformSumsToOne<Page>(corpus: Links<Page>, pages: seq<Page>)
    requires IsOrder(pages, corpus) && corpus != map[]
    ensures Sum(pages, Uniform(corpus)) == 1.0
  {
    UniformMass(pages, Uniform(corpus), |corpus|);
  }

  /** `n` entries of `1 / n` add up to 1. */
  lemma UniformMass<Page>(pages: seq<Page>, t: Table<Page>, n: nat)
    requires |pages| == n > 0
    requires forall p <- pages :: p in t && t[p] == 1.0 / n as real
    ensures Sum(pages, t) == 1.0
  {
    SumConst(pages, t, 1.0 / n as real);
    Rescale(|pages|, n, 1.0);
  }

  /**
   In a closed corpus a page passes on exactly its own rank: spread over its
   links, or over all pages when it is a dead end.
   */
  lemma OutflowIsRank<Page>(corpus: Links<Page>, pages: seq<Page>, rank: Table<Page>, q: Page)
    requires IsOrder(pages, corpus) && Closed(corpus)
    requires q in corpus && q in rank
    ensures Sum(pages, Outflow(corpus, rank, q)) == rank[q]
  {
    OrderDistinct(pages, corpus);
    var links := corpus[q];
    assert LinksInside(corpus, q);
    if links != {} {
      assert links <= Elements(pages);
      LinkedOutflow(pages, Outflow(corpus, rank, q), links, rank[q]);
    } else {
      UniformOutflow(pages, Outflow(corpus, rank, q), |corpus|, rank[q]);
    }
  }

  /** `x / |links|` on each link of an order's pages, and nothing elsewhere, adds up to `x`. */
  lemma LinkedOutflow<Page>(pages: seq<Page>, out: Table<Page>, links: set<Page>, x: real)
    requires Distinct(pages) && links <= Elements(pages) && links != {}
    requires forall p <- pages :: p in out && out[p] == (if p in links then x / |links| as real else 0.0) + 0.0
    ensures Sum(pages, out) == x
  {
    CountMembers(pages, links);
    TwoLevels(pages, out, links, 0.0, x / |links| as real, |pages| as real, |links| as real);
    LinkShares(|pages| as real, |links| as real, x);
  }

  /** `l` shares of `x / l`, and nothing on `n` pages, make `x`. */
  lemma LinkShares(n: real, l: real, x: real)
    requires l > 0.0
    ensures n * 0.0 + l * (x / l) == x
  {
  }

  /** `x / n` on each of `n` pages adds up to `x`. */
  lemma UniformOutflow<Page>(pages: seq<Page>, out: Table<Page>, n: nat, x: real)
    requires |pages| == n > 0
    requires forall p <- pages :: p in out && out[p] == 0.0 + x / n as real
    ensures Sum(pages, out) == x
  {
    SumConst(pages, out, x / n as real);
    Rescale(|pages|, n, x);
  }

  /**
   Summed over all pages, what the pages `qs` pass on is their own total
   rank (the two sums can be swapped).
   */
  lemma {:induction false} ReceivedIsRank<Page>(corpus: Links<Page>, pages: seq<Page>, rank: Table<Page>, qs: seq<Page>)
    requires IsOrder(pages, corpus) && Closed(corpus)
    requires Senders(corpus, rank, qs)
    ensures Sum(pages, Received(corpus, rank, qs)) == Sum(qs, rank)
    decreases |qs|
  {
    if |qs| == 0 {
      SumConst(pages, Received(corpus, rank, qs), 0.0);
    } else {
      var init := qs[..|qs| - 1];
      var last := qs[|qs| - 1];
      ReceivedIsRank(corpus, pages, rank, init);
      OutflowIsRank(corpus, pages, rank, last);
      SumPointwise(pages, Received(corpus, rank, qs), Received(corpus, rank, init), Outflow(corpus, rank, last));
    }
  }

  /**
   On a closed corpus a sweep's total is `(1 - d)` from teleporting plus `d`
   times the old total `total`; so a table that sums to 1 sweeps to one that
   sums to 1.
   */
  lemma SweepSum<Page>(corpus: Links<Page>, pages: seq<Page>, damping: real, rank: Table<Page>, total: real)
    requires IsOrder(pages, corpus) && Closed(corpus) && corpus != map[]
    requires rank.Keys == corpus.Keys && total == Sum(pages, rank)
    ensures Sum(pages, Sweep(corpus, pages, damping, rank)) == (1.0 - damping) + damping * total
    ensures total == 1.0 ==> Sum(pages, Sweep(corpus, pages, damping, rank)) == 1.0
  {
    OrderRanked(corpus, pages, rank);
    var base := Teleport(corpus, damping);
    var got := Received(corpus, rank, pages);
    var next := Sweep(corpus, pages, damping, rank);
    ReceivedTotal(corpus, pages, rank, got, total);
    SweepIsAffine(corpus, pages, damping, rank, got, next, base);
    TeleportMass(corpus, pages, damping, base);
    AffineTotal(pages, next, base, damping, got, total);
  }

  /** Every page of an iteration order has a rank when the table covers the corpus. */
  lemma OrderRanked<Page>(corpus: Links<Page>, pages: seq<Page>, rank: Table<Page>)
    requires IsOrder(pages, corpus) && rank.Keys == corpus.Keys
    ensures Senders(corpus, rank, pages)
  {
  }

  /** What all pages of a closed corpus receive adds up to their total rank. */
  lemma ReceivedTotal<Page>(corpus: Links<Page>, pages: seq<Page>, rank: Table<Page>, got: Table<Page>, total: real)
    requires IsOrder(pages, corpus) && Closed(corpus) && Senders(corpus, rank, pages)
    requires got == Received(corpus, rank, pages) && total == Sum(pages, rank)
    ensures got.Keys == corpus.Keys && Sum(pages, got) == total
  {
    ReceivedIsRank(corpus, pages, rank, pages);
  }

  /** A sweep is the teleport share plus `d` times what each page receives. */
  lemma SweepIsAffine<Page>(corpus: Links<Page>, pages: seq<Page>, damping: real, rank: Table<Page>,
                            got: Table<Page>, next: Table<Page>, base: real)
    requires Senders(corpus, rank, pages)
    requires got == Received(corpus, rank, pages) && next == Sweep(corpus, pages, damping, rank)
    requires base == Teleport(corpus, damping)
    ensures next == Affine(base, damping, got)
  {
  }

  /**
   Entries `base + d * got[p]` whose bases add up to `1 - d` over the pages
   sum to `1 - d` plus `d` times the sum `total` of `got`.
   */
  lemma AffineTotal<Page>(pages: seq<Page>, t: Table<Page>, base: real, d: real, got: Table<Page>, total: real)
    requires forall p <- pages :: p in got
    requires t == Affine(base, d, got)
    requires |pages| as real * base == 1.0 - d
    requires Sum(pages, got) == total
    ensures Sum(pages, t) == (1.0 - d) + d * total
  {
    SumAffine(pages, t, base, d, got, |pages| as real);
  }

  /** The teleport shares of all pages add up to `1 - d`. */
  lemma TeleportMass<Page>(corpus: Links<Page>, pages: seq<Page>, damping: real, base: real)
    requires IsOrder(pages, corpus) && corpus != map[] && base == Teleport(corpus, damping)
    ensures |pages| as real * base == 1.0 - damping
  {
    Rescale(|pages|, |corpus|, 1.0 - damping);
  }

  // ---------------------------------------------------------------------------
  // Bounds

  /** A page passes at most its own rank to any one page, and never less than nothing. */
  lemma ContributionBounds<Page>(corpus: Links<Page>, rank: Table<Page>, q: Page, p: Page)
    requires q in corpus && q in rank && rank[q] >= 0.0
    ensures 0.0 <= Contribution(corpus, rank, q, p) <= rank[q]
  {
    var l := |corpus[q]|;
    if l > 0 {
      Shrink(rank[q], l as real);
    } else if p in corpus[q] {
      assert false;
    } else {
      assert q in corpus.Keys;
      assert |corpus| >= 1;
      Shrink(rank[q], |corpus| as real);
    }
  }

  /** With non-negative ranks, what flows into a page lies between 0 and the total rank of the senders. */
  lemma {:induction false} InflowBounds<Page>(corpus: Links<Page>, rank: Table<Page>, qs: seq<Page>, p: Page)
    requires forall q <- qs :: q in corpus && q in rank && rank[q] >= 0.0
    ensures 0.0 <= Inflow(corpus, rank, qs, p) <= Sum(qs, rank)
    decreases |qs|
  {
    if |qs| > 0 {
      InflowBounds(corpus, rank, qs[..|qs| - 1], p);
      ContributionBounds(corpus, rank, qs[|qs| - 1], p);
    }
  }

  /** Scaling by a non-negative factor keeps an order. */
  lemma ScaleMonotone(d: real, x: real, y: real)
    requires d >= 0.0 && 0.0 <= x <= y
    ensures 0.0 <= d * x <= d * y
  {
    assert d * y - d * x == d * (y - x);
  }

  /** With `0 <= d <= 1` the teleport share lies between 0 and `1 - d`. */
  lemma TeleportBounds<Page>(corpus: Links<Page>, damping: real)
    requires corpus != map[] && 0.0 <= damping <= 1.0
    ensures 0.0 <= Teleport(corpus, damping) <= 1.0 - damping
  {
    assert |corpus| >= 1 by {
      var p :| p in corpus;
    }
    Shrink(1.0 - damping, |corpus| as real);
  }

  /** The sweep's entry for a page: its teleport share `base` plus `d` times what flows into it. */
  lemma SweepAt<Page>(corpus: Links<Page>, pages: seq<Page>, damping: real, rank: Table<Page>, p: Page,
                      base: real, inflow: real)
    requires Senders(corpus, rank, pages) && p in corpus
    requires base == Teleport(corpus, damping) && inflow == Inflow(corpus, rank, pages, p)
    ensures Sweep(corpus, pages, damping, rank)[p] == base + damping * inflow
  {
    AffineAt(base, damping, Received(corpus, rank, pages), p, inflow);
  }

  /** The entry of `Affine(base, scale, t)` for a key whose entry in `t` is `x`. */
  lemma AffineAt<Page>(base: real, scale: real, t: Table<Page>, p: Page, x: real)
    requires p in t && t[p] == x
    ensures Affine(base, scale, t)[p] == base + scale * x
  {
  }

  /**
   A sweep of a non-negative table with `0 <= d <= 1` gives every page at
   least the teleport share; when the old table sums to 1, at most 1.
   */
  lemma SweepBounds<Page>(corpus: Links<Page>, pages: seq<Page>, damping: real, rank: Table<Page>)
    requires IsOrder(pages, corpus) && corpus != map[]
    requires rank.Keys == corpus.Keys && forall p :: p in rank ==> rank[p] >= 0.0
    requires 0.0 <= damping <= 1.0
    ensures forall p :: p in corpus ==> Teleport(corpus, damping) <= Sweep(corpus, pages, damping, rank)[p]
    ensures Sum(pages, rank) == 1.0 ==> forall p :: p in corpus ==> Sweep(corpus, pages, damping, rank)[p] <= 1.0
  {
    forall p | p in corpus
      ensures Teleport(corpus, damping) <= Sweep(corpus, pages, damping, rank)[p]
      ensures Sum(pages, rank) == 1.0 ==> Sweep(corpus, pages, damping, rank)[p] <= 1.0
    {
      PageBounds(corpus, pages, damping, rank, p, Sum(pages, rank));
    }
  }

  /** The bounds of `SweepBounds` for one page, with `total` the sum of the old table. */
  lemma PageBounds<Page>(corpus: Links<Page>, pages: seq<Page>, damping: real, rank: Table<Page>, p: Page, total: real)
    requires IsOrder(pages, corpus) && p in corpus
    requires rank.Keys == corpus.Keys && forall q :: q in rank ==> rank[q] >= 0.0
    requires 0.0 <= damping <= 1.0 && total == Sum(pages, rank)
    ensures Teleport(corpus, damping) <= Sweep(corpus, pages, damping, rank)[p]
    ensures total == 1.0 ==> Sweep(corpus, pages, damping, rank)[p] <= 1.0
  {
    OrderRanked(corpus, pages, rank);
    var base := Teleport(corpus, damping);
    var inflow := Inflow(corpus, rank, pages, p);
    SweepAt(corpus, pages, damping, rank, p, base, inflow);
    TeleportBounds(corpus, damping);
    InflowBounds(corpus, rank, pages, p);
    ScaleMonotone(damping, inflow, total);
    SweepEntry(Sweep(corpus, pages, damping, rank)[p], base, damping, inflow, total);
  }

  /** An entry `teleport + d * inflow` with `0 <= d * inflow <= d * total` is bounded by the two ends. */
  lemma SweepEntry(entry: real, teleport: real, d: real, inflow: real, total: real)
    requires entry == teleport + d * inflow
    requires 0.0 <= d * inflow <= d * total
    requires 0.0 <= d <= 1.0 && 0.0 <= teleport <= 1.0 - d
    ensures teleport <= entry
    ensures total == 1.0 ==> entry <= 1.0
  {
  }

  // ---------------------------------------------------------------------------
  // The sweep loop

  /** Sweeping fails only by running out of sweeps. */
  lemma {:induction false} IterateFailsOnlyByBudget<Page>(corpus: Links<Page>, pages: seq<Page>, damping: real,
                                                          rank: Table<Page>, fuel: nat)
    requires IsOrder(pages, corpus) && rank.Keys == corpus.Keys
    requires Iterate(corpus, pages, damping, rank, fuel).Err?
    ensures Iterate(corpus, pages, damping, rank, fuel).error == NotConverged
    decreases fuel
  {
    if fuel > 0 {
      var next := Sweep(corpus, pages, damping, rank);
      if !Converged(corpus, rank, next) {
        IterateFailsOnlyByBudget(corpus, pages, damping, next, fuel - 1);
      }
    }
  }

  /** A converged answer is the new table of a sweep that passed the convergence test. */
  lemma {:induction false} IterateEndsConverged<Page>(corpus: Links<Page>, pages: seq<Page>, damping: real,
                                                      rank: Table<Page>, fuel: nat)
    requires IsOrder(pages, corpus) && rank.Keys == corpus.Keys
    requires Iterate(corpus, pages, damping, rank, fuel).Ok?
    ensures exists prev: Table<Page> ::
      && prev.Keys == corpus.Keys
      && Sweep(corpus, pages, damping, prev) == Iterate(corpus, pages, damping, rank, fuel).value
      && Converged(corpus, prev, Sweep(corpus, pages, damping, prev))
    decreases fuel
  {
    var next := Sweep(corpus, pages, damping, rank);
    if Converged(corpus, rank, next) {
      assert Iterate(corpus, pages, damping, rank, fuel).value == next;
    } else {
      IterateEndsConverged(corpus, pages, damping, next, fuel - 1);
    }
  }

  /** More sweeps do not change an answer that has converged. */
  lemma {:induction false} IterateMoreSweeps<Page>(corpus: Links<Page>, pages: seq<Page>, damping: real,
                                                   rank: Table<Page>, fuel: nat, more: nat)
    requires IsOrder(pages, corpus) && rank.Keys == corpus.Keys
    requires fuel <= more
    requires Iterate(corpus, pages, damping, rank, fuel).Ok?
    ensures Iterate(corpus, pages, damping, rank, more) == Iterate(corpus, pages, damping, rank, fuel)
    decreases fuel
  {
    var next := Sweep(corpus, pages, damping, rank);
    if !Converged(corpus, rank, next) {
      IterateMoreSweeps(corpus, pages, damping, next, fuel - 1, more - 1);
    }
  }

  /**
   On a closed corpus, with `0 <= d <= 1`, sweeping from a non-negative
   table that sums to 1 can only answer with a table over the corpus that
   sums to 1 and whose entries lie between the teleport share and 1.
   */
  lemma {:induction false} IterateKeepsDistribution<Page>(corpus: Links<Page>, pages: seq<Page>, damping: real,
                                                          rank: Table<Page>, fuel: nat)
    requires IsOrder(pages, corpus) && Closed(corpus) && corpus != map[]
    requires 0.0 <= damping <= 1.0
    requires rank.Keys == corpus.Keys && Sum(pages, rank) == 1.0
    requires forall p :: p in rank ==> rank[p] >= 0.0
    requires Iterate(corpus, pages, damping, rank, fuel).Ok?
    ensures Iterate(corpus, pages, damping, rank, fuel).value.Keys == corpus.Keys
    ensures Sum(pages, Iterate(corpus, pages, damping, rank, fuel).value) == 1.0
    ensures forall p :: p in corpus ==>
      Teleport(corpus, damping) <= Iterate(corpus, pages, damping, rank, fuel).value[p] <= 1.0
    decreases fuel
  {
    var next := Sweep(corpus, pages, damping, rank);
    SweepSum(corpus, pages, damping, rank, 1.0);
    SweepBounds(corpus, pages, damping, rank);
    if !Converged(corpus, rank, next) {
      TeleportBounds(corpus, damping);
      IterateKeepsDistribution(corpus, pages, damping, next, fuel - 1);
    }
  }

  /**
   The ranks `iterate_pagerank` returns for a closed, non-empty corpus and
   `0 <= d <= 1`: one per page, summing to exactly 1, each at least
   `(1 - d) / N` and at most 1.
   */
  lemma IteratedRanks<Page>(corpus: Links<Page>, pages: seq<Page>, damping: real, maxSweeps: nat)
    requires IsOrder(pages, corpus) && Closed(corpus) && corpus != map[]
    requires 0.0 <= damping <= 1.0
    requires IterationOutcome(corpus, pages, damping, maxSweeps).Ok?
    ensures IterationOutcome(corpus, pages, damping, maxSweeps).value.Keys == corpus.Keys
    ensures Sum(pages, IterationOutcome(corpus, pages, damping, maxSweeps).value) == 1.0
    ensures forall p :: p in corpus ==>
      Teleport(corpus, damping) <= IterationOutcome(corpus, pages, damping, maxSweeps).value[p] <= 1.0
  {
    UniformSumsToOne(corpus, pages);
    assert forall p :: p in Uniform(corpus) ==> Uniform(corpus)[p] >= 0.0 by {
      assert |corpus| >= 1 by {
        var p :| p in corpus;
      }
      Shrink(1.0, |corpus| as real);
    }
    IterateKeepsDistribution(corpus, pages, damping, Uniform(corpus), maxSweeps);
  }

  // ---------------------------------------------------------------------------
  // The Python code

  /** The inner loop: `rank_sum` for `page`, over the pages in order. */
  method RankSum<Page(==)>(corpus: Links<Page>, pages: seq<Page>, rank: Table<Page>, page: Page)
    returns (rankSum: real)
    requires Senders(corpus, rank, pages)
    ensures rankSum == Inflow(corpus, rank, pages, page)
  {
    var numPages := |corpus|;
    rankSum := 0.0;
    for j := 0 to |pages|
      invariant rankSum == Inflow(corpus, rank, pages[..j], page)
    {
      var p := pages[j];
      assert pages[..j + 1][..j] == pages[..j];
      if page in corpus[p] {
        rankSum := rankSum + rank[p] / |corpus[p]| as real;
      }
      if |corpus[p]| == 0 {
        rankSum := rankSum + rank[p] / numPages as real;
      }
    }
    assert pages[..|pages|] == pages;
  }

  /**
   One sweep: `new_page_rank` starts as a copy of `page_rank` and every page's
   entry is overwritten with its new rank, computed from the old table only.
   */
  method SweepTable<Page(==)>(corpus: Links<Page>, pages: seq<Page>, damping: real, rank: Table<Page>)
    returns (next: Table<Page>)
    requires IsOrder(pages, corpus) && rank.Keys == corpus.Keys
    ensures next == Sweep(corpus, pages, damping, rank)
  {
    var numPages := |corpus|;
    OrderRanked(corpus, pages, rank);
    ghost var target := Sweep(corpus, pages, damping, rank);
    next := rank;
    for i := 0 to |pages|
      invariant next.Keys == corpus.Keys
      invariant forall p :: p in pages[..i] ==> next[p] == target[p]
    {
      var rankSum := RankSum(corpus, pages, rank, pages[i]);
      var entry := (1.0 - damping) / numPages as real + damping * rankSum;
      SweepStep(corpus, pages, damping, rank, target, next, i, rankSum, entry);
      next := next[pages[i] := entry];
    }
    SweepDone(corpus, pages, target, next);
  }

  /** Writing the new rank of the `i`-th page extends the part of the table that is already swept. */
  lemma SweepStep<Page>(corpus: Links<Page>, pages: seq<Page>, damping: real, rank: Table<Page>,
                        target: Table<Page>, next: Table<Page>, i: nat, rankSum: real, entry: real)
    requires IsOrder(pages, corpus) && Senders(corpus, rank, pages) && i < |pages|
    requires target == Sweep(corpus, pages, damping, rank)
    requires rankSum == Inflow(corpus, rank, pages, pages[i])
    requires entry == (1.0 - damping) / |corpus| as real + damping * rankSum
    requires forall p :: p in pages[..i] ==> p in next && next[p] == target[p]
    ensures forall p :: p in pages[..i + 1] ==> p in next[pages[i] := entry] && next[pages[i] := entry][p] == target[p]
  {
    assert |corpus| != 0 by {
      assert pages[i] in corpus;
    }
    SweepAt(corpus, pages, damping, rank, pages[i], Teleport(corpus, damping), rankSum);
    assert pages[..i + 1] == pages[..i] + [pages[i]];
  }

  /** A table over the corpus that agrees with `target` on every page of the order is `target`. */
  lemma SweepDone<Page>(corpus: Links<Page>, pages: seq<Page>, target: Table<Page>, next: Table<Page>)
    requires IsOrder(pages, corpus) && target.Keys == corpus.Keys && next.Keys == corpus.Keys
    requires forall p :: p in pages[..|pages|] ==> next[p] == target[p]
    ensures next == target
  {
    assert pages[..|pages|] == pages;
  }

  /** The convergence test: every page is checked and any move above the threshold fails it. */
  method HasConverged<Page(==)>(corpus: Links<Page>, pages: seq<Page>, prev: Table<Page>, next: Table<Page>)
    returns (converged: bool)
    requires IsOrder(pages, corpus) && prev.Keys == corpus.Keys && next.Keys == corpus.Keys
    ensures converged == Converged(corpus, prev, next)
  {
    converged := true;
    for i := 0 to |pages|
      invariant converged <==> forall k :: 0 <= k < i ==> Abs(next[pages[k]] - prev[pages[k]]) <= Threshold
    {
      if Abs(next[pages[i]] - prev[pages[i]]) > Threshold {
        converged := false;
      }
    }
  }

  /**
   The Python `iterate_pagerank`, with at most `maxSweeps` sweeps: the uniform
   table, then sweeps until one passes the convergence test.
   */
  method IteratePageRank<Page(==)>(corpus: Links<Page>, pages: seq<Page>, damping: real, maxSweeps: nat)
    returns (r: Result<Table<Page>>)
    requires IsOrder(pages, corpus)
    ensures r == IterationOutcome(corpus, pages, damping, maxSweeps)
  {
    var numPages := |corpus|;
    var pageRank: Table<Page> := map p | p in corpus :: 1.0 / numPages as real;
    var newPageRank := pageRank;
    var converged := false;
    var sweeps: nat := 0;
    while !converged
      invariant sweeps <= maxSweeps
      invariant pageRank.Keys == corpus.Keys
      invariant IterationOutcome(corpus, pages, damping, maxSweeps)
        == if converged then Ok(pageRank) else Iterate(corpus, pages, damping, pageRank, maxSweeps - sweeps)
      decreases maxSweeps - sweeps
    {
      if sweeps == maxSweeps {
        return Err(NotConverged);
      }
      newPageRank := SweepTable(corpus, pages, damping, pageRank);
      converged := HasConverged(corpus, pages, pageRank, newPageRank);
      pageRank := newPageRank;
      sweeps := sweeps + 1;
    }
    r := Ok(pageRank);
  }
}
