/**
 `transition_model`: where the random surfer goes next from a page. With
 probability `damping` it follows one of the page's links, chosen uniformly;
 otherwise it jumps to any page of the corpus, chosen uniformly. A page
 without links sends the surfer to every page with the same probability.
 */
module Transition {

  import opened Sums
  import opened Corpus

  /** The next-page distribution from `page`, as a table over the whole corpus. */
  function Distribution<Page>(corpus: Links<Page>, page: Page, damping: real): (dist: Table<Page>)
    requires page in corpus
    ensures dist.Keys == corpus.Keys
    ensures 0.0 <= damping <= 1.0 ==> forall p :: p in dist ==> 0.0 <= dist[p] <= 1.0
  {
    var n := |corpus| as real;
    var links := corpus[page];
    ShareBounds(damping, n, |links| as real);
    if links != {} then
      map p | p in corpus :: (1.0 - damping) / n + (if p in links then damping / |links| as real else 0.0)
    else
      map p | p in corpus :: 1.0 / n
  }

  /** The teleport share and the link share are probabilities, and so is their sum. */
  lemma ShareBounds(damping: real, n: real, l: real)
    requires n >= 1.0
    ensures 0.0 < 1.0 / n <= 1.0
    ensures 0.0 <= damping <= 1.0 && l >= 1.0 ==>
      0.0 <= (1.0 - damping) / n && (1.0 - damping) / n + damping / l <= 1.0
  {
    Shrink(1.0, n);
    if 0.0 <= damping <= 1.0 && l >= 1.0 {
      Shrink(1.0 - damping, n);
      Shrink(damping, l);
    }
  }

  /**
   The distribution sums to exactly 1, whatever the damping, as long as the
   links of `page` stay inside the corpus.
   */
  lemma DistributionSumsToOne<Page>(corpus: Links<Page>, pages: seq<Page>, page: Page, damping: real)
    requires IsOrder(pages, corpus)
    requires page in corpus && LinksInside(corpus, page)
    ensures Sum(pages, Distribution(corpus, page, damping)) == 1.0
  {
    OrderDistinct(pages, corpus);
    if corpus[page] != {} {
      assert corpus[page] <= Elements(pages);
      LinkedMass(pages, Distribution(corpus, page, damping), corpus[page], |corpus|, damping);
    } else {
      SumConst(pages, Distribution(corpus, page, damping), 1.0 / |corpus| as real);
      Rescale(|pages|, |corpus|, 1.0);
    }
  }

  /**
   Over an iteration order of `n` pages, `(1 - d) / n` on every page and
   `d / |links|` more on each of the links adds up to 1.
   */
  lemma LinkedMass<Page>(pages: seq<Page>, dist: Table<Page>, links: set<Page>, n: nat, d: real)
    requires Distinct(pages) && |pages| == n && links <= Elements(pages) && links != {}
    requires forall p <- pages :: p in dist && dist[p] == (1.0 - d) / n as real + (if p in links then d / |links| as real else 0.0)
    ensures Sum(pages, dist) == 1.0
  {
    CountMembers(pages, links);
    TwoLevels(pages, dist, links, (1.0 - d) / n as real, d / |links| as real, n as real, |links| as real);
    Combine(n as real, |links| as real, d);
  }

  /** Teleport shares over all `n` pages and link shares over all `l` links add up to 1. */
  lemma Combine(n: real, l: real, d: real)
    requires n > 0.0 && l > 0.0
    ensures n * ((1.0 - d) / n) + l * (d / l) == 1.0
  {
  }

  /** From a dead end every page gets exactly `1 / N`, and the damping plays no part. */
  lemma DeadEndIsUniform<Page>(corpus: Links<Page>, page: Page, damping: real, other: real)
    requires page in corpus && corpus[page] == {}
    ensures Distribution(corpus, page, damping) == Distribution(corpus, page, other)
    ensures forall p :: p in corpus ==> Distribution(corpus, page, damping)[p] == 1.0 / |corpus| as real
  {
  }

  /**
   From a page with links, a table is the distribution exactly when it has an
   entry for every page, holding the teleport share `(1 - d) / N`, plus the
   link share `d / |L|` on each of the `L` links and nothing more elsewhere.
   */
  lemma IsLinkedDistribution<Page>(corpus: Links<Page>, page: Page, damping: real, t: Table<Page>)
    requires page in corpus && corpus[page] != {}
    ensures t == Distribution(corpus, page, damping) <==>
      && t.Keys == corpus.Keys
      && forall p :: p in t ==>
           t[p] == (1.0 - damping) / |corpus| as real + (if p in corpus[page] then damping / |corpus[page]| as real else 0.0)
  {
  }

  /** From a dead end, a table is the distribution exactly when it holds `1 / N` on every page. */
  lemma IsUniformDistribution<Page>(corpus: Links<Page>, page: Page, damping: real, t: Table<Page>)
    requires page in corpus && corpus[page] == {}
    ensures t == Distribution(corpus, page, damping) <==>
      t.Keys == corpus.Keys && forall p :: p in t ==> t[p] == 1.0 / |corpus| as real
  {
  }

  /**
   The Python `transition_model`, which fills a fresh dict: first the
   teleport share for every page, then one more share per link. It raises
   KeyError for an unknown page and for a link that is not a page.
   */
  method TransitionModel<Page(==)>(corpus: Links<Page>, pages: seq<Page>, page: Page, damping: real)
    returns (r: Result<Table<Page>>)
    requires IsOrder(pages, corpus)
    ensures page !in corpus ==> r == Err(PageNotInCorpus)
    ensures page in corpus && !LinksInside(corpus, page) ==> r == Err(LinkNotInCorpus)
    ensures page in corpus && LinksInside(corpus, page) ==> r == Ok(Distribution(corpus, page, damping))
  {
    if page !in corpus {
      return Err(PageNotInCorpus);
    }
    var distribution: Table<Page> := map[];
    var numPages := |corpus|;
    var links := corpus[page];
    if links != {} {
      var teleport := (1.0 - damping) / numPages as real;
      for i := 0 to |pages|
        invariant forall p :: p in distribution <==> p in pages[..i]
        invariant forall p :: p in distribution ==> distribution[p] == teleport
      {
        distribution := distribution[pages[i] := teleport];
      }
      assert pages[..|pages|] == pages;
      var share := damping / |links| as real;
      var todo := links;
      while todo != {}
        invariant todo <= links
        invariant links - todo <= corpus.Keys
        invariant distribution.Keys == corpus.Keys
        invariant forall p :: p in distribution ==>
          distribution[p] == teleport + (if p in links - todo then share else 0.0)
        decreases todo
      {
        var link :| link in todo;
        if link !in distribution {
          return Err(LinkNotInCorpus);
        }
        distribution := distribution[link := distribution[link] + share];
        todo := todo - {link};
      }
      IsLinkedDistribution(corpus, page, damping, distribution);
    } else {
      for i := 0 to |pages|
        invariant forall p :: p in distribution <==> p in pages[..i]
        invariant forall p :: p in distribution ==> distribution[p] == 1.0 / numPages as real
      {
        distribution := distribution[pages[i] := 1.0 / numPages as real];
      }
      assert pages[..|pages|] == pages;
      IsUniformDistribution(corpus, page, damping, distribution);
    }
    r := Ok(distribution);
  }
}
