/** The catalog cache and credential guard of the upstream-service client
    (`ImgflipClient`). The cache is `None` until the first catalog read and
    a list afterwards; the HTTP exchange is replaced by an outcome value the
    caller supplies, so every state transition is a pure function. */
module Imgflip {
  import opened Wrappers
  import opened Lists
  import opened Text

  /** One catalog entry; `id` is its identity. */
  datatype Template = Template(id: string, name: string)

  /** What the catalog request produced: a decoded JSON payload with its
      `success` flag and template list, or an exception anywhere on the way
      (network error, HTTP error status, undecodable body, missing keys).
      The payload's template list is taken to be a list, never `null`. */
  datatype FetchOutcome = Payload(success: bool, memes: seq<Template>) | Raised

  /** The client's state: credentials read from the environment at start-up
      and the memoised catalog (`None` means never fetched). */
  datatype Client = Client(username: Option<string>, password: Option<string>,
                           cache: Option<seq<Template>>)

  /** A client operation's answer, the client afterwards, and how many
      catalog requests the operation issued. */
  datatype Step<T> = Step(value: T, client: Client, fetches: nat)

  /** A freshly constructed client: nothing cached yet. */
  function NewClient(username: Option<string>, password: Option<string>): (c: Client)
    ensures c.cache.None?
    ensures c.username == username && c.password == password
  {
    Client(username, password, None)
  }

  /** The list `_fetch_templates` stores: the payload's templates when its
      `success` flag is set, the empty list on every failure. */
  function Fetched(outcome: FetchOutcome): (memes: seq<Template>)
    ensures outcome.Payload? && outcome.success ==> memes == outcome.memes
    ensures !(outcome.Payload? && outcome.success) ==> memes == []
  {
    match outcome
    case Payload(success, memes) => if success then memes else []
    case Raised => []
  }

  /** The catalog a client sees from now on: what it already holds, or what
      the pending fetch will store. */
  function Catalog(c: Client, outcome: FetchOutcome): seq<Template> {
    if c.cache.Some? then c.cache.value else Fetched(outcome)
  }

  /** Fetches the catalog when nothing is cached, then returns the cached
      list. */
  function Load(c: Client, outcome: FetchOutcome): (r: Step<seq<Template>>)
    ensures r.fetches == if c.cache.None? then 1 else 0
    ensures r.client.cache == Some(r.value)
    ensures c.cache.Some? ==> r.client == c && r.value == c.cache.value
    ensures c.cache.None? ==> r.value == Fetched(outcome)
    ensures r.client.username == c.username && r.client.password == c.password
  {
    if c.cache.None? then
      var memes := Fetched(outcome);
      Step(memes, c.(cache := Some(memes)), 1)
    else Step(c.cache.value, c, 0)
  }

  /** `get_popular_templates(limit)`: the cached catalog, cut to `limit`
      when `limit` is truthy (neither `None` nor 0), with Python's slice
      semantics for negative limits. The stored catalog is never cut. */
  function GetPopularTemplates(c: Client, outcome: FetchOutcome, limit: Option<int>)
    : (r: Step<seq<Template>>)
    ensures r.fetches == if c.cache.None? then 1 else 0
    ensures r.client.cache == Some(Catalog(c, outcome))
    ensures c.cache.Some? ==> r.client == c
    ensures r.value <= Catalog(c, outcome)
    ensures limit.None? || limit == Some(0) ==> r.value == Catalog(c, outcome)
    ensures limit.Some? && 0 < limit.value
            ==> |r.value| == Min(limit.value, |Catalog(c, outcome)|)
  {
    var loaded := Load(c, outcome);
    var templates := loaded.value;
    var view := if limit.Some? && limit.value != 0 then Slice(templates, limit.value) else templates;
    Step(view, loaded.client, loaded.fetches)
  }

  /** The name filter of `search_templates`: the lower-cased query occurs
      in the lower-cased name. */
  predicate NameMatches(query: string, t: Template) {
    Contains(Lower(t.name), Lower(query))
  }

  /** `search_templates(query)`: the cached templates whose name contains
      the query, case-insensitively, in catalog order. */
  function SearchTemplates(c: Client, outcome: FetchOutcome, query: string)
    : (r: Step<seq<Template>>)
    ensures r.fetches == if c.cache.None? then 1 else 0
    ensures r.client.cache == Some(Catalog(c, outcome))
    ensures c.cache.Some? ==> r.client == c
    ensures r.value == Filter(Catalog(c, outcome), (t: Template) => NameMatches(query, t))
    ensures forall t :: t in r.value <==> t in Catalog(c, outcome) && NameMatches(query, t)
    ensures forall t :: multiset(r.value)[t]
                        == if NameMatches(query, t) then multiset(Catalog(c, outcome))[t] else 0
  {
    var loaded := Load(c, outcome);
    if |loaded.value| == 0 then Step([], loaded.client, loaded.fetches)
    else Step(Filter(loaded.value, t => NameMatches(query, t)), loaded.client, loaded.fetches)
  }

  /** `get_template_by_id(id)`: the first cached template with that id. It
      reads the cache as it is and never fetches, so an unfetched cache
      answers `None`. */
  function GetTemplateById(c: Client, id: string): (r: Option<Template>)
    ensures r.Some? ==> c.cache.Some? && r.value in c.cache.value && r.value.id == id
    ensures r.None? <==> c.cache.None? || forall t :: t in c.cache.value ==> t.id != id
    ensures r.Some? ==> exists i :: 0 <= i < |c.cache.value| && c.cache.value[i] == r.value
                            && forall j :: 0 <= j < i ==> c.cache.value[j].id != id
  {
    if c.cache.None? || |c.cache.value| == 0 then None
    else First(c.cache.value, (t: Template) => t.id == id)
  }

  /** The form fields of a caption request. */
  datatype CaptionRequest = CaptionRequest(templateId: string, username: string, password: string,
                                           text0: string, text1: string)

  /** The normalised answer of a caption request. */
  datatype MemeResult = Captioned(url: string, pageUrl: string) | Failed(errorMessage: string)

  /** What `generate_meme` did: the request it sent, if any, and its answer. */
  datatype Generation = Generation(request: Option<CaptionRequest>, result: MemeResult)

  const CredentialsMessage: string :=
    "Imgflip credentials not configured. Please set IMGFLIP_USERNAME and IMGFLIP_PASSWORD environment variables."

  /** A credential is configured when it is set and not empty (Python
      truthiness of an optional string). */
  predicate Configured(credential: Option<string>) {
    credential.Some? && credential.value != ""
  }

  /** `generate_meme`: without both credentials it answers the configuration
      failure and sends nothing; otherwise it sends exactly one request and
      answers `reply`, the normalised outcome of that request. */
  function GenerateMeme(c: Client, templateId: string, topText: string, bottomText: string,
                        reply: MemeResult): (g: Generation)
    ensures g.request.None? <==> !Configured(c.username) || !Configured(c.password)
    ensures g.request.None? ==> g.result == Failed(CredentialsMessage)
    ensures g.request.Some? ==> g.result == reply
    ensures g.request.Some? ==> g.request.value == CaptionRequest(templateId, c.username.value,
                                  c.password.value, topText, bottomText)
  {
    if !Configured(c.username) || !Configured(c.password) then
      Generation(None, Failed(CredentialsMessage))
    else
      Generation(Some(CaptionRequest(templateId, c.username.value, c.password.value,
                                     topText, bottomText)), reply)
  }

  /** A failed fetch caches an empty list, which is not the never-fetched
      state: later reads get the empty list without
      requesting again. */
  lemma FailedFetchIsRemembered(c: Client, outcome: FetchOutcome, later: FetchOutcome,
                                limit: Option<int>)
    requires c.cache.None?
    requires !(outcome.Payload? && outcome.success)
    ensures GetPopularTemplates(c, outcome, limit).client.cache == Some([])
    ensures var c' := GetPopularTemplates(c, outcome, limit).client;
            GetPopularTemplates(c', later, limit) == Step([], c', 0)
  {
  }
}
