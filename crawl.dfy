/**
 The part of `crawl` that turns the links found in each HTML file into a
 closed corpus. Reading the directory and extracting `href` targets from
 the files is outside the model: `extracted` maps each file name to the
 set of link targets found in it.
 */
module LinkGraph {

  import opened Corpus

  /**
   The corpus `crawl` returns: each file keeps the links to other files of
   the corpus, without itself.
   */
  function Closure<Page>(extracted: Links<Page>): (corpus: Links<Page>)
    ensures corpus.Keys == extracted.Keys
    ensures Closed(corpus)
    ensures forall f :: f in corpus ==> f !in corpus[f] && corpus[f] <= extracted[f]
  {
    map f | f in extracted :: set l | l in extracted[f] && l != f && l in extracted
  }

  /** A closed corpus without self-links is left as it is. */
  lemma ClosureKeepsClosed<Page>(corpus: Links<Page>)
    requires Closed(corpus)
    requires forall f :: f in corpus ==> f !in corpus[f]
    ensures Closure(corpus) == corpus
  {
    forall f | f in corpus ensures Closure(corpus)[f] == corpus[f] {
      assert LinksInside(corpus, f);
    }
  }

  /** Filtering twice is filtering once. */
  lemma ClosureIdempotent<Page>(extracted: Links<Page>)
    ensures Closure(Closure(extracted)) == Closure(extracted)
  {
    ClosureKeepsClosed(Closure(extracted));
  }

  /**
   Links that point at another page of the corpus are kept: the filter
   drops exactly the self-links and the links that leave the corpus.
   */
  lemma ClosureKeepsInternalLinks<Page>(extracted: Links<Page>, f: Page, l: Page)
    requires f in extracted && l in extracted[f]
    ensures l in Closure(extracted)[f] <==> l != f && l in extracted
  {
  }

  /**
   `crawl` after the files are read: first each file's links minus the file
   itself, then, in a second pass over the pages, only links to pages of the
   corpus.
   */
  method Crawl<Page(==)>(extracted: Links<Page>) returns (pages: Links<Page>)
    ensures pages == Closure(extracted)
  {
    pages := map[];
    var files := extracted.Keys;
    while files != {}
      invariant files <= extracted.Keys
      invariant pages.Keys == extracted.Keys - files
      invariant forall f :: f in pages ==> pages[f] == extracted[f] - {f}
      decreases files
    {
      var f :| f in files;
      pages := pages[f := extracted[f] - {f}];
      files := files - {f};
    }
    var todo := pages.Keys;
    while todo != {}
      invariant todo <= pages.Keys
      invariant pages.Keys == extracted.Keys
      invariant forall f :: f in pages ==>
        pages[f] == if f in todo then extracted[f] - {f} else Closure(extracted)[f]
      decreases todo
    {
      var f :| f in todo;
      pages := pages[f := set link | link in pages[f] && link in pages];
      todo := todo - {f};
    }
  }
}
