# PageRank engine, modelled in Dafny

`pagerank.py` ranks the pages of a small corpus of HTML files in two ways.
Both use the random-surfer model with damping factor `d`:

- `sample_pagerank` follows a random walk of `n` steps and reports how often each page was visited.
- `iterate_pagerank` starts from the uniform table and repeats the PageRank
  sweep until no page's rank moves by more than 0.001.

Both build on `transition_model`, the next-page distribution from one page.
`crawl` turns the links found in the files into a corpus: it drops
self-links and links to files outside the corpus.

This project models those four pieces. It proves what their results are and
the properties their docstrings promise: each distribution and each rank
table has one entry per page, lies in [0, 1] and sums to 1.

Files and modules:

- `corpus.dfy` (`Corpus`): the corpus as `map<Page, set<Page>>`. A Python
  dict's iteration order is carried beside it as a sequence `pages` of its
  keys (`IsOrder`). It also holds the `Error`/`Result` types for the
  exceptions the code raises, and the closedness of a link graph.
- `sums.dfy` (`Sums`): sums and counts over a sequence of keys, added up in
  order as Python's `for` loops and `sum` do, with the algebra the proofs need.
- `crawl.dfy` (`LinkGraph`): the link filtering of `crawl`.
- `transition.dfy` (`Transition`): `transition_model`.
- `sampling.dfy` (`Sampling`): `sample_pagerank`. The random draws are inputs.
- `iteration.dfy` (`Iteration`): `iterate_pagerank`, with a sweep budget.

The operations follow the code's own form:

- The imperative loops are methods with loop invariants:
  - the dict filling of `transition_model`;
  - the counting walk of `sample_pagerank`;
  - the nested sweep loops and the convergence test of `iterate_pagerank`;
  - the two passes of `crawl`.
- Each of these methods is proved equal to a specification function:
  `Transition.Distribution`, `Sampling.SampleOutcome`,
  `Iteration.Sweep`/`Iteration.IterationOutcome` and `LinkGraph.Closure`.
- The properties are lemmas about those functions.

Real numbers are exact (`real`), so "sums to 1" holds exactly.

Python's exceptions are modelled as `Err` results, not as preconditions:

- `corpus[page]` for an unknown page (KeyError);
- `distribution[link]` for a link that is not a page (KeyError);
- `random.choice` on an empty corpus (IndexError);
- dividing by zero samples (ZeroDivisionError).

At two points the code does not do what a reader might expect of it, and the model follows the code:

- `iterate_pagerank` on an empty corpus returns `{}`. No division runs, and
  the convergence test passes at once. So `Iteration.IterationOutcome` is
  `Ok(map[])` for any budget of at least one sweep; it does not fail.
- No function checks that the damping lies in [0, 1], or that `n >= 1`
  before the walk. The model states the range of the damping as a
  hypothesis of the lemmas that need it. `n <= 0` ends in the
  ZeroDivisionError of the normalisation (`NoSamples`).

## Model

| member | source | states |
|---|---|---|
| LinkGraph.Closure | pagerank.py:39-46 | the filtered corpus has the same files, is closed (every link is a file of the corpus), no file links to itself, and no link is invented |
| LinkGraph.ClosureKeepsInternalLinks | pagerank.py:39-46 | a link found in a file is kept exactly when it points at another file of the corpus |
| LinkGraph.ClosureKeepsClosed | pagerank.py:42-46 | a corpus that is already closed and without self-links passes through the filter unchanged |
| LinkGraph.ClosureIdempotent | pagerank.py:39-46 | filtering twice gives the same corpus as filtering once |
| LinkGraph.Crawl | pagerank.py:39-46 | the two passes over the files (drop the self-link, then keep only links to files of the corpus) produce exactly `Closure` of the extracted links |
| Transition.Distribution | pagerank.py:60-72 | the next-page table has an entry for exactly the pages of the corpus, each in [0, 1] when the damping is in [0, 1] |
| Transition.IsLinkedDistribution | pagerank.py:65-69 | from a page with links, a table is the distribution exactly when every page has `(1-d)/N` and each linked page `d/|L|` more |
| Transition.IsUniformDistribution | pagerank.py:70-72 | from a dead end, a table is the distribution exactly when every page has `1/N` |
| Transition.DeadEndIsUniform | pagerank.py:70-72 | from a dead end every page gets `1/N`, whatever the damping |
| Transition.DistributionSumsToOne | pagerank.py:65-72 | when the page's links are pages of the corpus, the distribution sums to exactly 1, for any damping |
| Transition.TransitionModel | pagerank.py:51-74 | KeyError for an unknown page and for a link outside the corpus; otherwise the filled dict is `Distribution` |
| Sampling.VisitsInCorpus | pagerank.py:87-92 | every page the walk visits is a page of the corpus, and there is one visit per step |
| Sampling.CountersSumToSteps | pagerank.py:86-94 | the visit counters over all pages add up to the number of visits |
| Sampling.FrequenciesSumToOne | pagerank.py:94-95 | counts divided by their total sum to exactly 1 |
| Sampling.SampleSumsToOne | pagerank.py:94-97 | a successful sample has one entry per page, each in [0, 1], summing to exactly 1 |
| Sampling.CountVisits | pagerank.py:86-93 | the walk fails (KeyError) exactly when a visited page links outside the corpus; otherwise each counter is that page's number of visits and the counters add up to `n` |
| Sampling.TotalSamples | pagerank.py:94 | `sum(page_rank.values())` is the tally of the counters in page order |
| Sampling.SamplePageRank | pagerank.py:77-97 | the Python function returns `SampleOutcome`: IndexError on an empty corpus, the KeyError of the walk, ZeroDivisionError for no samples, else count / n per page |
| Iteration.UniformSumsToOne | pagerank.py:110 | the starting table `1/N` per page sums to exactly 1 |
| Iteration.OutflowIsRank | pagerank.py:119-122 | in a closed corpus a page passes on exactly its own rank in one sweep: spread over its links, or over all pages from a dead end |
| Iteration.ReceivedIsRank | pagerank.py:116-122 | summed over all pages, the `rank_sum`s of a sweep equal the total old rank |
| Iteration.SweepSum | pagerank.py:116-123 | on a closed corpus a sweep's total is `(1-d) + d * old total`; a table summing to 1 sweeps to one summing to 1 |
| Iteration.ContributionBounds | pagerank.py:119-122 | what one page passes to another lies between 0 and that page's rank |
| Iteration.InflowBounds | pagerank.py:117-122 | with non-negative ranks, `rank_sum` lies between 0 and the total old rank |
| Iteration.TeleportBounds | pagerank.py:123 | with `0 <= d <= 1` the teleport share `(1-d)/N` lies in [0, 1-d] |
| Iteration.SweepAt | pagerank.py:123 | a page's new rank is `(1-d)/N + d * rank_sum` of the old table |
| Iteration.SweepBounds | pagerank.py:116-123 | a sweep of a non-negative table gives every page at least `(1-d)/N`, and at most 1 when the old table sums to 1 |
| Iteration.IterateFailsOnlyByBudget | pagerank.py:114-131 | the sweeps can only fail by running out of budget |
| Iteration.IterateEndsConverged | pagerank.py:114-131 | an answer is the new table of a sweep in which no page moved by more than 0.001 |
| Iteration.IterateMoreSweeps | pagerank.py:114-131 | once the budget suffices, a larger budget gives the same answer |
| Iteration.IterateKeepsDistribution | pagerank.py:110-131 | from a non-negative table summing to 1, every answer has one entry per page, sums to 1, and has each entry in [(1-d)/N, 1] |
| Iteration.IteratedRanks | pagerank.py:100-131 | the ranks `iterate_pagerank` returns for a closed, non-empty corpus sum to 1, and each lies in [(1-d)/N, 1] |
| Iteration.RankSum | pagerank.py:117-122 | the inner loop computes `Inflow`, both checks included for every page, in corpus order |
| Iteration.SweepTable | pagerank.py:111-123 | one sweep overwrites every entry of the copy with its new rank, computed from the old table only, giving `Sweep` |
| Iteration.HasConverged | pagerank.py:125-127 | the flag stays true exactly when no page moved by more than 0.001 |
| Iteration.IteratePageRank | pagerank.py:100-131 | the Python loop, with at most `maxSweeps` sweeps, returns `IterationOutcome` |

## Left out

- `main` (pagerank.py:10-21): argument handling, `sys.exit` and printing.
- The file I/O of `crawl` (pagerank.py:30-38): reading the directory, the
  `.html` filter, and `re.findall` over each file. Its result is the
  input `extracted` of `LinkGraph.Crawl`, a map from file name to the set of
  link targets found in the file.
- The random number generator (pagerank.py:87, 92). `random.choice` and
  `random.choices` become inputs: a start page, and one drawn page per step,
  each a page of the corpus. Nothing is said about the draws' distribution,
  or about the walk's estimate approaching the iterated ranks.
- Sampling.SamplePageRank: the damping reaches the transition model only as
  the weights of `random.choices`. Because the draws are inputs, the outcome
  does not depend on the damping.
- IEEE floating point: all arithmetic is on exact reals, so the threshold
  0.001 and every quotient are exact.
- Termination of the `while not converged` loop (pagerank.py:114). It rests on
  the sweep being a contraction for `d < 1`, and that is not proved. The
  loop is bounded by `maxSweeps`; running out of sweeps is the error
  `NotConverged`, which the Python code cannot raise.
- Dict iteration order is the sequence `pages` of the corpus keys. The
  results do not depend on it, but the sums are added up in that order.
