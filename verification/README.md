# Template resolution of the imgflip meme server, in Dafny

The server turns a free-text hint such as "men's warehouse" into one meme
template from a catalog that it fetches from the imgflip API. It then asks
the API to caption that template. This project models the part of the
server that makes decisions:

- **The catalog cache of `ImgflipClient`** (module `Imgflip`, `client.dfy`).
  The cache is `None` until the catalog is first read. After that it holds a
  list, which is `[]` after a failed fetch (for a payload whose template list
  is a list; see "Left out"). The HTTP request becomes a
  `FetchOutcome` value supplied by the caller, so every transition is a pure
  function. `Step.fetches` counts the catalog requests an operation issues.
  The module also models the listing, name-search and id-lookup views of the
  cache, and the credential guard of `generate_meme`.
- **The alias table and alias pass of `TemplateMatcher`** (module `Aliases`,
  `aliases.dfy`). These are the 30 curated phrases in declaration order. A
  phrase matches when `alias in hint or hint in alias`.
- **The similarity scorer** (module `Scoring`, `scoring.dfy`). A hint or name
  that contains the other scores exactly 0.9. Otherwise the score is
  0.6 × sequence ratio + 0.4 × the Jaccard overlap of the `\w+` word sets.
  The module also has the scan that keeps the first best score strictly
  above 0.3.
- **`find_best_match` and `search_templates` of the matcher** (module
  `TemplateMatcher`, `matcher.dfy`). The stable descending sort that
  `search_templates` uses is in module `Ranking` (`ranking.dfy`).
- **Whole sessions** (module `Session`, `session.dfy`). These are arbitrary
  sequences of client and matcher calls against one client. Over any such
  sequence the catalog is requested at most once.

The supporting modules are `Text` (`text.dfy`: `lower`, `strip`, substring
test, `\w+` tokens), `Lists` (`lists.dfy`: Python's `s[:limit]`, "first
element such that", filtering) and `Wrappers` (`Option`). Scores are exact
`real`s. difflib's `SequenceMatcher(None, a, b).ratio()` is a parameter of
type `Scoring.Ratio`: any function into [0, 1].

Three points about the code are easy to misread:

- The alias pass returns the first catalog entry, in catalog order, whose id
  is in the matching alias's list (`template_matcher.py:65-67`). It does not
  try the alias's ids in list order. Every alias in the table has exactly one
  id (`Aliases.AliasTableShape`), so the two readings agree on today's table.
- The sequence ratio is difflib's, which is not symmetric in general, so the
  score is not symmetric either. `ScoreSymmetricWhereRatioIs` proves the
  symmetry the code does have: the score is symmetric wherever the ratio is.
- `ImgflipClient` takes no lock around the first fetch. The model is
  sequential, and "at most one catalog request" is proved for sequential
  sessions only.

One observation about the table: "drake", "drake pointing", "drake approve",
"drake disapprove", the three boyfriend phrases and "expanding brain" all
list the same id, 112126428. These hints therefore resolve to the same
template.

## Model

| member | source | states |
|---|---|---|
| Imgflip.NewClient | src/imgflip_meme_mcp/imgflip_client.py:17-20 | A new client keeps the credentials it was given and has no catalog cached yet. |
| Imgflip.Fetched | src/imgflip_meme_mcp/imgflip_client.py:43-50 | A payload whose `success` flag is set yields its template list. A falsy flag or any exception yields `[]`, never "no cache". |
| Imgflip.Load | src/imgflip_meme_mcp/imgflip_client.py:24-25 | The fetch happens exactly when the cache is `None`. Afterwards the cache holds the list that is returned. A cached list is returned unchanged and the client is untouched. |
| Imgflip.GetPopularTemplates | src/imgflip_meme_mcp/imgflip_client.py:22-31 | The result is always a prefix of the catalog. It is the whole catalog when `limit` is `None` or 0, and it has length min(limit, catalog size) for a positive limit. The stored cache stays the full catalog. The operation fetches only when nothing is cached. |
| Imgflip.SearchTemplates | src/imgflip_meme_mcp/imgflip_client.py:96-111 | The result is the subsequence of the catalog, in catalog order, whose lower-cased names contain the lower-cased query. So a template is in it exactly when it is in the catalog and matches, with its catalog multiplicity. The empty-cache early return gives the same answer. The operation fetches only when nothing is cached. |
| Imgflip.GetTemplateById | src/imgflip_meme_mcp/imgflip_client.py:113-122 | The result is `None` exactly when nothing is cached or no cached template has the id. Otherwise it is the earliest cached template with that id. The client is never changed and nothing is fetched. |
| Imgflip.GenerateMeme | src/imgflip_meme_mcp/imgflip_client.py:52-78 | No request is sent exactly when a username or password is missing or empty, and then the answer is the configuration failure message. Otherwise one request carries the given template id, credentials and texts, and its reply is returned unchanged. |
| Imgflip.FailedFetchIsRemembered | src/imgflip_meme_mcp/imgflip_client.py:24-31 | After a failed fetch the cache is `[]`. A later listing returns `[]` and issues no request, whatever the network would now answer. |
| Lists.FirstIndex | src/imgflip_meme_mcp/imgflip_client.py:118-122 | The index returned is the earliest element satisfying the test, and `None` means no element does. This is the first-match-wins loop. |
| Lists.First | src/imgflip_meme_mcp/template_matcher.py:65-67 | The element returned is a catalog member that satisfies the test, and every earlier element fails it. `None` means no member satisfies it. |
| Lists.Filter | src/imgflip_meme_mcp/imgflip_client.py:105-111 | The result keeps exactly the elements that pass the test, with their multiplicities. |
| Lists.Slice | src/imgflip_meme_mcp/imgflip_client.py:28-29 | Python's `s[:limit]` returns a prefix. For a non-negative limit its length is min(limit, size). A negative limit drops min(-limit, size) trailing elements. |
| Lists.FilterAppend | src/imgflip_meme_mcp/imgflip_client.py:107-109 | Filtering distributes over concatenation, so kept elements stay in catalog order. |
| Lists.FilterKeepsAll | src/imgflip_meme_mcp/imgflip_client.py:107-109 | The filter returns its whole input exactly when every element passes. |
| Text.Lower | src/imgflip_meme_mcp/template_matcher.py:58 | Lower-casing keeps the length and lower-cases each character in place. |
| Text.LowerIdempotent | src/imgflip_meme_mcp/template_matcher.py:95-96 | Lower-casing again text that is already lower-cased, as the word split does, changes nothing. |
| Text.Strip | src/imgflip_meme_mcp/template_matcher.py:58 | The result is an infix of the input. It neither starts nor ends with whitespace, and only whitespace was removed on either side. |
| Text.StrippedLowerIsNormal | src/imgflip_meme_mcp/template_matcher.py:58 | Stripping lower-cased text leaves it lower-case and unpadded. |
| Text.WhitespaceNormalisesToEmpty | src/imgflip_meme_mcp/template_matcher.py:58 | A whitespace-only hint normalises to the empty string. |
| Text.Normalise | src/imgflip_meme_mcp/template_matcher.py:58 | `hint.lower().strip()` has no upper-case letters and no surrounding whitespace. Only whitespace was removed from the lower-cased hint, and only at its ends. |
| Text.NormaliseFixesNormalForm | src/imgflip_meme_mcp/template_matcher.py:58 | A lower-case, unpadded string is left unchanged by `lower().strip()`. |
| Text.NormaliseIdempotent | src/imgflip_meme_mcp/template_matcher.py:58 | Normalising twice is normalising once. |
| Text.ContainsIff | src/imgflip_meme_mcp/template_matcher.py:62 | The `in` test holds exactly when the needle occurs at some offset of the haystack. |
| Text.ContainsTrivial | src/imgflip_meme_mcp/template_matcher.py:62 | The empty string is in every string, and every string is in itself. |
| Text.ContainsShorter | src/imgflip_meme_mcp/template_matcher.py:88 | A string contains only strings no longer than itself. |
| Text.Tokens | src/imgflip_meme_mcp/template_matcher.py:95-96 | Every token of `\w+` is a non-empty run of word characters. |
| Text.TokensOfWord | src/imgflip_meme_mcp/template_matcher.py:95-96 | A single run of word characters is exactly one token. |
| Text.TokensOfSeparators | src/imgflip_meme_mcp/template_matcher.py:95-96 | Text without word characters has no tokens. |
| Text.TokensSplitAtSeparator | src/imgflip_meme_mcp/template_matcher.py:95-96 | A separator splits the token list in two. With TokensOfWord this fixes the tokens as the maximal runs. |
| Text.Words | src/imgflip_meme_mcp/template_matcher.py:95-96 | Every member of the word set is a token. |
| Scoring.Jaccard | src/imgflip_meme_mcp/template_matcher.py:98-101 | The overlap lies in [0, 1]. It is 0 when either set is empty or the sets are disjoint, and 1 for equal non-empty sets. |
| Scoring.JaccardSymmetric | src/imgflip_meme_mcp/template_matcher.py:99 | The word overlap does not depend on argument order. |
| Scoring.JaccardOneIff | src/imgflip_meme_mcp/template_matcher.py:99 | The overlap is 1 exactly for equal non-empty word sets. |
| Scoring.WordOverlap | src/imgflip_meme_mcp/template_matcher.py:94-101 | The word sub-score lies in [0, 1]. |
| Scoring.Score | src/imgflip_meme_mcp/template_matcher.py:85-104 | The score always lies in [0, 1] and is exactly 0.9 when either string contains the other. Otherwise it is at most 0.6 × ratio + 0.4. |
| Scoring.ScoreSymmetricWhereRatioIs | src/imgflip_meme_mcp/template_matcher.py:88-104 | The score is symmetric at every pair where the sequence ratio is. |
| Scoring.NoSharedWordNeedsHighRatio | src/imgflip_meme_mcp/template_matcher.py:79-104 | Without containment and without a shared word, a score above the 0.3 threshold needs a sequence ratio above one half. |
| Scoring.Scan | src/imgflip_meme_mcp/template_matcher.py:77-81 | The loop ends with no choice only if it started with none and no later score beat both the best so far and 0.3. A position it picks is one it visited, with a score above both. |
| Scoring.ScanCorrect | src/imgflip_meme_mcp/template_matcher.py:74-83 | The scan's state after any prefix determines its answer. The answer is `None` when no score exceeds 0.3, and otherwise the first position of the maximum. |
| Scoring.BestAbove | src/imgflip_meme_mcp/template_matcher.py:74-83 | The result is `None` exactly when no score exceeds 0.3. Otherwise it is the earliest position whose score is above 0.3 and not beaten by any other. |
| Scoring.FirstBestUnique | src/imgflip_meme_mcp/template_matcher.py:77-81 | Ties go to the first entry, so the similarity pass's choice is determined by the scores. |
| Ranking.Insert | src/imgflip_meme_mcp/template_matcher.py:117 | Insertion adds exactly one entry, and the head of the result is the new entry or the old head. |
| Ranking.InsertKeepsOrder | src/imgflip_meme_mcp/template_matcher.py:117 | Inserting into a non-increasing list keeps it non-increasing. |
| Ranking.SortDescending | src/imgflip_meme_mcp/template_matcher.py:117 | The sorted list is a permutation of its input with non-increasing scores. |
| Ranking.InsertWithScore | src/imgflip_meme_mcp/template_matcher.py:117 | An inserted entry lands ahead of later entries with an equal score. |
| Ranking.SortIsStable | src/imgflip_meme_mcp/template_matcher.py:117 | For every score, the entries carrying it appear in their original order, as in Python's stable `sort(reverse=True)`. |
| Ranking.UniformScoresSortIsIdentity | src/imgflip_meme_mcp/template_matcher.py:117 | When all scores are equal the sort returns its input unchanged. |
| Aliases.Resolve | src/imgflip_meme_mcp/template_matcher.py:64-67 | A resolved alias yields the first catalog entry, in catalog order, whose id is in the alias's list: every earlier entry has an unlisted id. `None` means no catalog entry has such an id. |
| Aliases.AliasTableShape | src/imgflip_meme_mcp/template_matcher.py:14-54 | The table has 30 aliases, each standing for exactly one template id. |
| Aliases.AliasMatches | src/imgflip_meme_mcp/template_matcher.py:62 | An alias matches exactly when its phrase occurs somewhere in the hint or the hint occurs somewhere in the phrase. |
| Aliases.AliasPass | src/imgflip_meme_mcp/template_matcher.py:61-67 | The alias pass only ever returns catalog entries. |
| Aliases.AliasPassIsFirstHit | src/imgflip_meme_mcp/template_matcher.py:61-67 | The alias pass answers with the first alias, in declaration order, that both matches the hint and resolves in the catalog. A matching alias without a catalog hit falls through to the next alias. |
| Aliases.TemplateSuggestions | src/imgflip_meme_mcp/template_matcher.py:120-122 | The suggestions are the alias phrases in declaration order, and no phrase is offered twice, as the keys of a dict cannot repeat. |
| Aliases.SuggestionsResolve | src/imgflip_meme_mcp/template_matcher.py:61-67 | A suggestion given back as the hint gets an answer from the alias pass whenever its own alias resolves in the catalog. |
| TemplateMatcher.Scores | src/imgflip_meme_mcp/template_matcher.py:77-78 | There is one score per catalog entry, each in [0, 1]. |
| TemplateMatcher.SimilarityPass | src/imgflip_meme_mcp/template_matcher.py:70-83 | The result is `None` exactly when no entry scores above 0.3, which includes the empty catalog. Otherwise it is the catalog entry at the first position of the highest score. |
| TemplateMatcher.BestMatchIn | src/imgflip_meme_mcp/template_matcher.py:56-83 | Resolution against a catalog returns only entries of that catalog. The alias table is a parameter, as `_template_aliases` is an instance attribute. |
| TemplateMatcher.FindBestMatch | src/imgflip_meme_mcp/template_matcher.py:56-83 | `find_best_match` as written returns a member of the catalog. It leaves the catalog cached and issues one request exactly when nothing was cached. |
| TemplateMatcher.AliasLoop | src/imgflip_meme_mcp/template_matcher.py:61-67 | The loop that reads the catalog once per matching alias returns only catalog entries. It issues at most one request, none when something is cached, and leaves the client either untouched or loaded. |
| TemplateMatcher.AliasLoopReadsOnce | src/imgflip_meme_mcp/template_matcher.py:61-67 | Reading the catalog once per matching alias gives the same answer as the alias pass on one loaded catalog, and it loads the client at most once. |
| TemplateMatcher.FindBestMatchResolvesLoadedCatalog | src/imgflip_meme_mcp/template_matcher.py:56-83 | `find_best_match` equals loading the catalog once and then resolving the normalised hint against it. |
| TemplateMatcher.SimilarityChoiceBeatsThreshold | src/imgflip_meme_mcp/template_matcher.py:77-83 | A template chosen by the similarity pass scores above 0.3, and no catalog entry scores higher. |
| TemplateMatcher.NoMatchBelowThreshold | src/imgflip_meme_mcp/template_matcher.py:69-83 | With no alias hit and no score above 0.3, the result is `None`. |
| TemplateMatcher.BlankHintPicksFirstAlias | src/imgflip_meme_mcp/template_matcher.py:58-67 | For any alias table, a whitespace-only hint normalises to "", which every phrase contains. It therefore resolves through the first alias whenever that alias's template is in the catalog. |
| TemplateMatcher.BlankHintPicksMensWarehouse | src/imgflip_meme_mcp/template_matcher.py:16-17 | With the program's table, a whitespace-only hint resolves to a template with id 181913649 whenever the catalog has one. |
| TemplateMatcher.FirstAliasMissesMensWarehouse | src/imgflip_meme_mcp/template_matcher.py:16-17 | Neither of "mens warehouse" and "men's warehouse" contains the other. |
| TemplateMatcher.AliasPassOnMensWarehouse | src/imgflip_meme_mcp/template_matcher.py:16-17 | The hint "men's warehouse" stops at the second alias whenever that alias resolves. |
| TemplateMatcher.MensWarehouseHintIsNormal | src/imgflip_meme_mcp/template_matcher.py:58 | The hint "men's warehouse" is unchanged by normalisation. |
| TemplateMatcher.MensWarehouseExample | src/imgflip_meme_mcp/template_matcher.py:16-67 | If the catalog has a template with id 181913649, "men's warehouse" resolves to the earliest such template, whatever else is in the catalog. |
| TemplateMatcher.RankByScore | src/imgflip_meme_mcp/template_matcher.py:110-117 | Ranking returns a permutation of its input, with every template as often as before, in non-increasing score order. Templates with equal scores keep their input order. |
| TemplateMatcher.RankingIsPermutation | src/imgflip_meme_mcp/template_matcher.py:110-118 | Scoring, sorting and unpacking the pairs returns every template exactly as often as the input holds it. |
| TemplateMatcher.RankingIsStable | src/imgflip_meme_mcp/template_matcher.py:117 | For every score, the templates carrying it appear in the ranking in their input order. |
| Ranking.ItemCount | src/imgflip_meme_mcp/template_matcher.py:110-118 | When every entry holding a template carries the same score, the template occurs among the unpacked items exactly as often as that scored entry occurs among the entries. |
| TemplateMatcher.RankedItemsAreOrdered | src/imgflip_meme_mcp/template_matcher.py:110-117 | After sorting, every entry still carries its own template's score, so the templates come out in non-increasing score order. |
| TemplateMatcher.RankAndCut | src/imgflip_meme_mcp/template_matcher.py:110-118 | The result is a prefix of the stable ranking `RankByScore`. With `limit` `None` it is the whole ranking, a permutation of the input. With a non-negative limit it is the first min(limit, n) templates. Either way the templates come in non-increasing score order. |
| TemplateMatcher.SearchTemplates | src/imgflip_meme_mcp/template_matcher.py:106-118 | The result holds at most `limit` templates when a non-negative limit is given. Each is a catalog template whose name contains the query, and they come in non-increasing score order. The operation fetches only when nothing is cached. |
| TemplateMatcher.SearchIsFilteredPrefix | src/imgflip_meme_mcp/template_matcher.py:106-118 | Every name that passes the client's filter contains the query and scores exactly 0.9. So the ranked search is exactly `[:limit]` of the name matches in catalog order, and all of them when `limit` is `None`. |
| Session.Perform | src/imgflip_meme_mcp/imgflip_client.py:24-25 | A call requests the catalog exactly when it reads the catalog and nothing is cached. Lookups and caption requests never change the client. |
| Session.FetchAtMostOnce | src/imgflip_meme_mcp/imgflip_client.py:24-25 | Over any sequence of calls the catalog is requested at most once. It is never requested when something, even `[]`, is already cached. |
| Session.FirstReaderFetches | src/imgflip_meme_mcp/imgflip_client.py:43-50 | The first catalog-reading call of a session issues the one request, and what it stored stays the catalog for the rest of the session. |

## Left out

- `difflib.SequenceMatcher.ratio()` is a parameter of type `Scoring.Ratio`, known only to lie in [0, 1]. Its matching-blocks algorithm and junk heuristics are not modelled, and it is not assumed symmetric.
- Floating point: scores are exact reals, so IEEE rounding of `0.6 * a + 0.4 * b` and of the Jaccard division is not modelled.
- `str.lower()` and `\w` are modelled over ASCII only. Non-ASCII letters are not lower-cased and are not word characters. `str.strip()` uses Python's full whitespace set.
- HTTP, `asyncio` and `run_in_executor`, the 10 s and 30 s timeouts, and the log line printed on a failed fetch are not modelled. The catalog request is a `FetchOutcome` argument.
- Imgflip.GenerateMeme: the exception handling after the request (`imgflip_client.py:80-94`) is not modelled. The request's normalised answer is the `reply` argument, so the three failure messages are not distinguished.
- Template records carry only `id` and `name`. The other fields the API returns (url, width, height, box count) are passed through unread by the code and are omitted.
- The `success` field of the catalog payload is modelled as a boolean rather than an arbitrary truthy value.
- Imgflip.FetchOutcome: a successful payload's `data.memes` is taken to be a list of records with `id` and `name`. For a payload whose `memes` is `null`, `_fetch_templates` stores `None` (`imgflip_client.py:45`). Every later read would then request the catalog again, so `Session.FetchAtMostOnce` does not cover that payload. Records without a `name` make `search_templates` raise, and that is not modelled either.
- TemplateMatcher.SearchTemplates: `limit` is `Option<int>`, as the server passes `Optional[int]`. The server's default of 10 is not modelled. The `None` case is stated exactly by `SearchIsFilteredPrefix` and `RankAndCut`, not in this member's own contract.
- Concurrency: the code has no locking, so the model is sequential. Concurrent first reads may each request the catalog, and that is not covered.
- The server module (tool schemas, dispatch, message text), the interactive setup script and the live-network test script are not modelled. The server and the matcher each build their own client, and the model covers one client per `Session.Run`.
- Aliases.SuggestionsResolve: stated for the phrase used directly as the hint. That normalising each of the 30 phrases leaves it unchanged is not proved for the table.
