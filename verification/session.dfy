/** A sequence of operations against one client instance, as the server
    process issues them over its lifetime. Each call comes with the outcome
    the catalog request would have if that call issued it. */
module Session {
  import opened Wrappers
  import opened Imgflip
  import opened Scoring
  import opened Aliases
  import TemplateMatcher

  /** The operations that go through one client. */
  datatype Call =
    | ListPopular(popularLimit: Option<int>)
    | SearchNames(query: string)
    | LookupId(id: string)
    | Generate(templateId: string, topText: string, bottomText: string, reply: MemeResult)
    | BestMatch(hint: string)
    | RankedSearch(rankedQuery: string, limit: Option<int>)

  /** The client after `call`, and the catalog requests it issued. */
  function Perform(aliases: seq<AliasEntry>, c: Client, ratio: Ratio, call: Call, outcome: FetchOutcome)
    : (r: (Client, nat))
    ensures r.1 == if c.cache.None? && ReadsCatalog(call) then 1 else 0
    ensures ReadsCatalog(call) ==> r.0.cache == Some(Catalog(c, outcome))
    ensures !ReadsCatalog(call) || c.cache.Some? ==> r.0 == c
  {
    match call
    case ListPopular(limit) =>
      var s := GetPopularTemplates(c, outcome, limit); (s.client, s.fetches)
    case SearchNames(query) =>
      var s := Imgflip.SearchTemplates(c, outcome, query); (s.client, s.fetches)
    case LookupId(_) => (c, 0)
    case Generate(_, _, _, _) => (c, 0)
    case BestMatch(hint) =>
      TemplateMatcher.FindBestMatchResolvesLoadedCatalog(aliases, c, outcome, ratio, hint);
      var s := TemplateMatcher.FindBestMatch(aliases, c, outcome, ratio, hint); (s.client, s.fetches)
    case RankedSearch(query, limit) =>
      var s := TemplateMatcher.SearchTemplates(c, outcome, ratio, query, limit); (s.client, s.fetches)
  }

  /** Calls that read the catalog and so load it on first use. Lookup by id
      and meme generation never do. */
  predicate ReadsCatalog(call: Call) {
    !call.LookupId? && !call.Generate?
  }

  /** Runs the calls in order, the matcher's calls with alias table
      `aliases`; `outcomes[k]` is what the catalog request of call `k` would
      return. Yields the final client and the total number of catalog
      requests. */
  function Run(aliases: seq<AliasEntry>, c: Client, ratio: Ratio, calls: seq<Call>,
               outcomes: seq<FetchOutcome>)
    : (Client, nat)
    requires |outcomes| == |calls|
    decreases |calls|
  {
    if |calls| == 0 then (c, 0)
    else
      var (c', n) := Perform(aliases, c, ratio, calls[0], outcomes[0]);
      var (final, m) := Run(aliases, c', ratio, calls[1..], outcomes[1..]);
      (final, n + m)
  }

  /** The catalog is requested at most once over any run; never when it is
      already cached (including a cached empty list from a failed fetch),
      and a cached catalog is never replaced or dropped. */
  lemma {:induction false} FetchAtMostOnce(aliases: seq<AliasEntry>, c: Client, ratio: Ratio,
                                           calls: seq<Call>, outcomes: seq<FetchOutcome>)
    requires |outcomes| == |calls|
    ensures Run(aliases, c, ratio, calls, outcomes).1 <= 1
    ensures c.cache.Some? ==> Run(aliases, c, ratio, calls, outcomes) == (c, 0)
    decreases |calls|
  {
    if |calls| > 0 {
      var (c', n) := Perform(aliases, c, ratio, calls[0], outcomes[0]);
      FetchAtMostOnce(aliases, c', ratio, calls[1..], outcomes[1..]);
    }
  }

  /** The first call that reads the catalog issues the one request, and
      what it stored is the catalog for the rest of the run. */
  lemma {:induction false} FirstReaderFetches(aliases: seq<AliasEntry>, c: Client, ratio: Ratio,
                                              calls: seq<Call>, outcomes: seq<FetchOutcome>,
                                              k: nat)
    requires |outcomes| == |calls|
    requires c.cache.None?
    requires k < |calls| && ReadsCatalog(calls[k])
    requires forall j :: 0 <= j < k ==> !ReadsCatalog(calls[j])
    ensures Run(aliases, c, ratio, calls, outcomes).1 == 1
    ensures Run(aliases, c, ratio, calls, outcomes).0.cache == Some(Fetched(outcomes[k]))
    decreases k
  {
    var (c', n) := Perform(aliases, c, ratio, calls[0], outcomes[0]);
    if k == 0 {
      FetchAtMostOnce(aliases, c', ratio, calls[1..], outcomes[1..]);
    } else {
      assert c' == c;
      FirstReaderFetches(aliases, c', ratio, calls[1..], outcomes[1..], k - 1);
    }
  }
}
