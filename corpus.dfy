/**
 The corpus is the link graph the PageRank engine works on: a map from each
 page to the set of pages it links to. A Python dict also has an iteration
 order; it is carried beside the map as a sequence of its keys.
 */
module Corpus {

  import opened Sums

  /** Page -> the pages it links to. */
  type Links<Page> = map<Page, set<Page>>

  /** Page -> probability or rank. */
  type Table<Page> = map<Page, real>

  /** The exceptions the Python code raises, each under its cause. */
  datatype Error =
    | PageNotInCorpus   // KeyError: `corpus[page]` for an unknown page
    | LinkNotInCorpus   // KeyError: `distribution[link]` for a link that is not a page
    | EmptyCorpus       // IndexError / ZeroDivisionError on an empty corpus
    | NoSamples         // ZeroDivisionError: dividing by a total of zero samples
    | NotConverged      // the sweep budget ran out before the 0.001 test passed

  datatype Result<T> = Ok(value: T) | Err(error: Error)

  /**
   `pages` lists every key of `corpus` exactly once: its iteration order. It
   holds only keys, all of them, and no more entries than there are keys.
   */
  predicate IsOrder<Page(==)>(pages: seq<Page>, corpus: Links<Page>) {
    && |pages| == |corpus|
    && (forall p <- pages :: p in corpus)
    && (forall p <- corpus.Keys :: p in pages)
  }

  /** Every link of `page` points at a page of the corpus. */
  predicate LinksInside<Page(==)>(corpus: Links<Page>, page: Page)
    requires page in corpus
  {
    corpus[page] <= corpus.Keys
  }

  /** The graph is closed: every link target is a key. */
  predicate Closed<Page(==)>(corpus: Links<Page>) {
    forall p :: p in corpus ==> LinksInside(corpus, p)
  }

  /** An iteration order has no repetitions, and its elements are the keys. */
  lemma OrderDistinct<Page>(pages: seq<Page>, corpus: Links<Page>)
    requires IsOrder(pages, corpus)
    ensures Distinct(pages) && Elements(pages) == corpus.Keys
  {
    assert Elements(pages) == corpus.Keys;
    CardDistinct(pages);
  }
}
