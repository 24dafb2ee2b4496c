/** `TemplateMatcher`: resolving a free-text hint to one catalog template
    (`find_best_match`) and ranking name-search results (`search_templates`).
    The matcher reads the catalog through its own client, whose cache it
    threads through every operation. */
module TemplateMatcher {
  import opened Wrappers
  import opened Lists
  import opened Text
  import opened Imgflip
  import opened Scoring
  import opened Aliases
  import opened Ranking

  /** The similarity score of every catalog entry against the normalised
      hint, in catalog order. */
  function Scores(ratio: Ratio, catalog: seq<Template>, hint: string): (s: seq<real>)
    ensures |s| == |catalog|
    ensures forall i :: 0 <= i < |s| ==> 0.0 <= s[i] <= 1.0
  {
    seq(|catalog|, i requires 0 <= i < |catalog| => Score(ratio, hint, Lower(catalog[i].name)))
  }

  /** The similarity pass: `None` for an empty catalog or when no entry
      scores above the threshold, otherwise the first entry, in catalog
      order, with the highest score. */
  function SimilarityPass(ratio: Ratio, catalog: seq<Template>, hint: string)
    : (r: Option<Template>)
    ensures r.None? <==> forall i :: 0 <= i < |catalog| ==> Scores(ratio, catalog, hint)[i] <= Threshold
    ensures r.Some? ==> exists k :: 0 <= k < |catalog| && catalog[k] == r.value
                                    && IsFirstBest(Scores(ratio, catalog, hint), k)
  {
    if |catalog| == 0 then None
    else match BestAbove(Scores(ratio, catalog, hint))
      case None => None
      case Some(k) => Some(catalog[k])
  }

  /** Hint resolution against a fixed catalog: the alias pass on the
      normalised hint, and the similarity pass only when no alias hits.
      `aliases` is the matcher's table, `AliasTable` for every matcher the
      program builds. */
  function BestMatchIn(aliases: seq<AliasEntry>, ratio: Ratio, catalog: seq<Template>, hint: string)
    : (r: Option<Template>)
    ensures r.Some? ==> r.value in catalog
  {
    var h := Normalise(hint);
    match AliasPass(aliases, catalog, h)
    case Some(t) => Some(t)
    case None => SimilarityPass(ratio, catalog, h)
  }

  /** The alias loop of `find_best_match` as written: every matching alias
      reads the catalog through `get_popular_templates()` before scanning
      it for the alias's ids. */
  function AliasLoop(c: Client, outcome: FetchOutcome, table: seq<AliasEntry>, h: string)
    : (r: Step<Option<Template>>)
    ensures r.value.Some? ==> r.value.value in Catalog(c, outcome)
    ensures r.fetches <= if c.cache.None? then 1 else 0
    ensures r.client == c || r.client == Load(c, outcome).client
    decreases |table|
  {
    if |table| == 0 then Step(None, c, 0)
    else if AliasMatches(table[0].phrase, h) then
      var loaded := GetPopularTemplates(c, outcome, None);
      match First(loaded.value, (t: Template) => t.id in table[0].ids)
      case Some(t) => Step(Some(t), loaded.client, loaded.fetches)
      case None =>
        var rest := AliasLoop(loaded.client, outcome, table[1..], h);
        Step(rest.value, rest.client, loaded.fetches + rest.fetches)
    else AliasLoop(c, outcome, table[1..], h)
  }

  /** `find_best_match(hint)` as written: the alias loop, then, if it found
      nothing, one more catalog read and the similarity pass over it. */
  function FindBestMatch(aliases: seq<AliasEntry>, c: Client, outcome: FetchOutcome, ratio: Ratio,
                         hint: string)
    : (r: Step<Option<Template>>)
    ensures r.value.Some? ==> r.value.value in Catalog(c, outcome)
    ensures r.client.cache == Some(Catalog(c, outcome))
    ensures r.fetches == if c.cache.None? then 1 else 0
  {
    var h := Normalise(hint);
    var aliased := AliasLoop(c, outcome, aliases, h);
    AliasLoopReadsOnce(c, outcome, aliases, h);
    if aliased.value.Some? then aliased
    else
      var loaded := GetPopularTemplates(aliased.client, outcome, None);
      var best := if |loaded.value| == 0 then None else SimilarityPass(ratio, loaded.value, h);
      Step(best, loaded.client, aliased.fetches + loaded.fetches)
  }

  /** The alias loop sees one catalog however often it reads it: it answers
      what the alias pass answers on that catalog, and it either leaves the
      client alone or loads it exactly as a single read would. */
  lemma {:induction false} AliasLoopReadsOnce(c: Client, outcome: FetchOutcome,
                                              table: seq<AliasEntry>, h: string)
    ensures var r := AliasLoop(c, outcome, table, h);
            && r.value == AliasPass(table, Catalog(c, outcome), h)
            && ((r.client == c && r.fetches == 0)
                || (r.client == Load(c, outcome).client && r.fetches == Load(c, outcome).fetches))
            && (r.value.Some? ==> r.client == Load(c, outcome).client)
    decreases |table|
  {
    if |table| > 0 {
      if AliasMatches(table[0].phrase, h) {
        var loaded := GetPopularTemplates(c, outcome, None);
        assert loaded.value == Catalog(c, outcome);
        assert Catalog(loaded.client, outcome) == Catalog(c, outcome);
        AliasLoopReadsOnce(loaded.client, outcome, table[1..], h);
      } else {
        AliasLoopReadsOnce(c, outcome, table[1..], h);
      }
    }
  }

  /** `find_best_match` behaves as "load the catalog once, then resolve
      against it": the repeated catalog reads change nothing. */
  lemma FindBestMatchResolvesLoadedCatalog(aliases: seq<AliasEntry>, c: Client,
                                           outcome: FetchOutcome, ratio: Ratio, hint: string)
    ensures FindBestMatch(aliases, c, outcome, ratio, hint)
            == Step(BestMatchIn(aliases, ratio, Catalog(c, outcome), hint), Load(c, outcome).client,
                    Load(c, outcome).fetches)
  {
    var h := Normalise(hint);
    AliasLoopReadsOnce(c, outcome, aliases, h);
  }

  /** A template chosen by the similarity pass scores above the threshold
      and no catalog entry scores higher. */
  lemma SimilarityChoiceBeatsThreshold(aliases: seq<AliasEntry>, ratio: Ratio,
                                       catalog: seq<Template>, hint: string)
    requires AliasPass(aliases, catalog, Normalise(hint)).None?
    requires BestMatchIn(aliases, ratio, catalog, hint).Some?
    ensures var h := Normalise(hint);
            var t := BestMatchIn(aliases, ratio, catalog, hint).value;
            && Score(ratio, h, Lower(t.name)) > Threshold
            && forall u :: u in catalog ==> Score(ratio, h, Lower(u.name)) <= Score(ratio, h, Lower(t.name))
  {
    var h := Normalise(hint);
    var s := Scores(ratio, catalog, h);
    var k :| 0 <= k < |catalog| && catalog[k] == BestMatchIn(aliases, ratio, catalog, hint).value
             && IsFirstBest(s, k);
    forall u | u in catalog
      ensures Score(ratio, h, Lower(u.name)) <= Score(ratio, h, Lower(catalog[k].name))
    {
      var j :| 0 <= j < |catalog| && catalog[j] == u;
      assert s[j] <= s[k];
    }
  }

  /** When no alias hits and nothing in the catalog scores above the
      threshold, the hint resolves to nothing. */
  lemma NoMatchBelowThreshold(aliases: seq<AliasEntry>, ratio: Ratio, catalog: seq<Template>,
                              hint: string)
    requires AliasPass(aliases, catalog, Normalise(hint)).None?
    requires forall t :: t in catalog ==> Score(ratio, Normalise(hint), Lower(t.name)) <= Threshold
    ensures BestMatchIn(aliases, ratio, catalog, hint).None?
  {
  }

  /** A whitespace-only hint normalises to "", which every alias phrase
      contains, so the first alias is tried first (in the program's table,
      "mens warehouse"): if its template is in the catalog, that is the
      answer. */
  lemma BlankHintPicksFirstAlias(aliases: seq<AliasEntry>, ratio: Ratio, catalog: seq<Template>,
                                 hint: string)
    requires AllSpace(hint)
    requires |aliases| > 0 && Resolve(aliases[0], catalog).Some?
    ensures BestMatchIn(aliases, ratio, catalog, hint) == Resolve(aliases[0], catalog)
  {
    WhitespaceNormalisesToEmpty(hint);
    ContainsTrivial(aliases[0].phrase);
  }

  /** With the program's table a blank hint resolves to the first catalog
      template with the Men's Warehouse id, when there is one. */
  lemma BlankHintPicksMensWarehouse(ratio: Ratio, catalog: seq<Template>, hint: string)
    requires AllSpace(hint)
    requires exists t :: t in catalog && t.id == MensWarehouseId
    ensures var r := BestMatchIn(AliasTable, ratio, catalog, hint);
            r.Some? && r.value.id == MensWarehouseId
  {
    var e := AliasTable[0];
    assert e.ids == [MensWarehouseId];
    BlankHintPicksFirstAlias(AliasTable, ratio, catalog, hint);
  }

  const MensWarehouseHint: string := "men's warehouse"

  /** The first alias, "mens warehouse", neither contains nor is contained
      in "men's warehouse". */
  lemma FirstAliasMissesMensWarehouse()
    ensures !AliasMatches("mens warehouse", MensWarehouseHint)
  {
    var h, p := MensWarehouseHint, "mens warehouse";
    if Contains(h, p) {
      assert !(p <= h) by { assert h[3] != p[3]; }
      assert !(p <= h[1..]) by { assert h[1..][0] != p[0]; }
      ContainsShorter(h[1..][1..], p);
    }
    if Contains(p, h) {
      ContainsShorter(p, h);
    }
  }

  /** The alias pass on "men's warehouse" stops at the second alias,
      "men's warehouse" itself, when its id is in the catalog. */
  lemma AliasPassOnMensWarehouse(catalog: seq<Template>)
    requires Resolve(AliasTable[1], catalog).Some?
    ensures AliasPass(AliasTable, catalog, MensWarehouseHint) == Resolve(AliasTable[1], catalog)
  {
    var table := AliasTable;
    assert table[0].phrase == "mens warehouse";
    FirstAliasMissesMensWarehouse();
    assert table[1..][0] == table[1];
    assert table[1].phrase == MensWarehouseHint;
    ContainsTrivial(MensWarehouseHint);
  }

  lemma MensWarehouseHintIsNormal()
    ensures Normalise(MensWarehouseHint) == MensWarehouseHint
  {
    assert NormalForm(MensWarehouseHint);
    NormaliseFixesNormalForm(MensWarehouseHint);
  }

  /** "men's warehouse" resolves through its alias to the first catalog
      entry with id 181913649 whenever the catalog has one, whatever the
      other entries are. */
  lemma MensWarehouseExample(ratio: Ratio, catalog: seq<Template>)
    requires exists t :: t in catalog && t.id == MensWarehouseId
    ensures var r := BestMatchIn(AliasTable, ratio, catalog, MensWarehouseHint);
            && r.Some? && r.value.id == MensWarehouseId
            && exists i :: 0 <= i < |catalog| && catalog[i] == r.value
                           && forall j :: 0 <= j < i ==> catalog[j].id != MensWarehouseId
  {
    MensWarehouseHintIsNormal();
    SecondAliasIsMensWarehouse();
    var r := Resolve(AliasTable[1], catalog);
    assert r.Some?;
    AliasPassOnMensWarehouse(catalog);
    assert BestMatchIn(AliasTable, ratio, catalog, MensWarehouseHint) == r;
  }

  /** The program's table lists "men's warehouse" second. */
  lemma SecondAliasIsMensWarehouse()
    ensures AliasTable[1] == AliasEntry(MensWarehouseHint, [MensWarehouseId])
  {
  }

  /** Each template paired with its score against `query`. */
  function ScoreAll(ratio: Ratio, query: string, ts: seq<Template>): (s: seq<Ranked<Template>>)
    ensures |s| == |ts|
    ensures forall i :: 0 <= i < |s| ==> s[i] == Ranked(Score(ratio, query, Lower(ts[i].name)), ts[i])
  {
    seq(|ts|, i requires 0 <= i < |ts| => Ranked(Score(ratio, query, Lower(ts[i].name)), ts[i]))
  }

  /** The templates of `ts` whose score against `query` is `k`, in order. */
  function ScoreClass(ratio: Ratio, query: string, ts: seq<Template>, k: real): seq<Template> {
    if |ts| == 0 then []
    else (if Score(ratio, query, Lower(ts[0].name)) == k then [ts[0]] else [])
         + ScoreClass(ratio, query, ts[1..], k)
  }

  /** The score class of the items is the items of the score class, as long
      as every entry carries its own template's score. */
  lemma {:induction false} ScoreClassOfItems(ratio: Ratio, query: string, s: seq<Ranked<Template>>,
                                             k: real)
    requires forall i :: 0 <= i < |s| ==> s[i].score == Score(ratio, query, Lower(s[i].item.name))
    ensures ScoreClass(ratio, query, Items(s), k) == Items(WithScore(s, k))
    decreases |s|
  {
    if |s| > 0 {
      ScoreClassOfItems(ratio, query, s[1..], k);
      assert Items(s)[1..] == Items(s[1..]);
      var w := WithScore(s[1..], k);
      if s[0].score == k {
        assert ([s[0]] + w)[1..] == w;
      } else {
        assert WithScore(s, k) == w;
      }
    }
  }

  /** Reordering by score: a permutation of the templates, by non-increasing
      score, in which templates of equal score keep their input order. */
  function RankByScore(ratio: Ratio, query: string, ts: seq<Template>): (r: seq<Template>)
    ensures |r| == |ts|
    ensures multiset(r) == multiset(ts)
    ensures forall i, j :: 0 <= i < j < |r|
              ==> Score(ratio, query, Lower(r[i].name)) >= Score(ratio, query, Lower(r[j].name))
    ensures forall k :: ScoreClass(ratio, query, r, k) == ScoreClass(ratio, query, ts, k)
  {
    RankedItemsAreOrdered(ratio, query, ts);
    RankingIsPermutation(ratio, query, ts);
    RankingIsStable(ratio, query, ts);
    Items(SortDescending(ScoreAll(ratio, query, ts)))
  }

  /** Any rearrangement of the scored templates, the sorted one included,
      still pairs every template with its own score. */
  lemma EntriesKeepScores(ratio: Ratio, query: string, ts: seq<Template>, s: seq<Ranked<Template>>)
    requires multiset(s) == multiset(ScoreAll(ratio, query, ts))
    ensures forall i :: 0 <= i < |s| ==> s[i].score == Score(ratio, query, Lower(s[i].item.name))
  {
    var scored := ScoreAll(ratio, query, ts);
    forall i | 0 <= i < |s| ensures s[i].score == Score(ratio, query, Lower(s[i].item.name)) {
      assert s[i] in multiset(scored);
      var j :| 0 <= j < |scored| && scored[j] == s[i];
    }
  }

  lemma RankedItemsAreOrdered(ratio: Ratio, query: string, ts: seq<Template>)
    ensures var r := Items(SortDescending(ScoreAll(ratio, query, ts)));
            && |r| == |ts|
            && (forall i, j :: 0 <= i < j < |r|
                 ==> Score(ratio, query, Lower(r[i].name)) >= Score(ratio, query, Lower(r[j].name)))
  {
    var sorted := SortDescending(ScoreAll(ratio, query, ts));
    var r := Items(sorted);
    EntriesKeepScores(ratio, query, ts, sorted);
    forall i, j | 0 <= i < j < |r|
      ensures Score(ratio, query, Lower(r[i].name)) >= Score(ratio, query, Lower(r[j].name))
    {
      assert sorted[i].score >= sorted[j].score;
    }
  }

  /** The ranking returns each template as often as the input holds it. */
  lemma RankingIsPermutation(ratio: Ratio, query: string, ts: seq<Template>)
    ensures multiset(Items(SortDescending(ScoreAll(ratio, query, ts)))) == multiset(ts)
  {
    var scored := ScoreAll(ratio, query, ts);
    var sorted := SortDescending(scored);
    assert Items(scored) == ts;
    EntriesKeepScores(ratio, query, ts, sorted);
    forall t ensures multiset(Items(sorted))[t] == multiset(ts)[t] {
      var k := Score(ratio, query, Lower(t.name));
      ItemCount(sorted, t, k);
      ItemCount(scored, t, k);
    }
  }

  /** The ranking keeps the order of templates with equal scores, because
      the sort is stable and every sorted entry keeps its own score. */
  lemma RankingIsStable(ratio: Ratio, query: string, ts: seq<Template>)
    ensures var r := Items(SortDescending(ScoreAll(ratio, query, ts)));
            forall k :: ScoreClass(ratio, query, r, k) == ScoreClass(ratio, query, ts, k)
  {
    var scored := ScoreAll(ratio, query, ts);
    var sorted := SortDescending(scored);
    assert Items(scored) == ts;
    EntriesKeepScores(ratio, query, ts, sorted);
    forall k ensures ScoreClass(ratio, query, Items(sorted), k) == ScoreClass(ratio, query, ts, k) {
      ScoreClassOfItems(ratio, query, sorted, k);
      ScoreClassOfItems(ratio, query, scored, k);
      SortIsStable(scored, k);
    }
  }

  /** Ranks `ts` against `query` and keeps `[:limit]`: the first
      `min(limit, |ts|)` templates of the stable ranking, or all of it when
      there is no limit. */
  function RankAndCut(ratio: Ratio, query: string, ts: seq<Template>, limit: Option<int>)
    : (r: seq<Template>)
    ensures r <= RankByScore(ratio, query, ts)
    ensures limit.None? ==> r == RankByScore(ratio, query, ts)
    ensures limit.None? ==> multiset(r) == multiset(ts)
    ensures limit.Some? && 0 <= limit.value ==> |r| == Min(limit.value, |ts|)
    ensures forall t :: t in r ==> t in ts
    ensures forall i, j :: 0 <= i < j < |r|
              ==> Score(ratio, query, Lower(r[i].name)) >= Score(ratio, query, Lower(r[j].name))
  {
    var ranked := RankByScore(ratio, query, ts);
    SliceToKeepsPrefix(ranked, limit);
    assert forall t :: t in SliceTo(ranked, limit) ==> t in ts by {
      forall t | t in SliceTo(ranked, limit) ensures t in ts {
        assert t in multiset(ranked);
      }
    }
    SliceTo(ranked, limit)
  }

  /** The matcher's `search_templates(query, limit)` as written: name
      search through the client, score each hit against the lower-cased
      query, stable sort by non-increasing score, keep `[:limit]`. */
  function SearchTemplates(c: Client, outcome: FetchOutcome, ratio: Ratio, query: string,
                           limit: Option<int>): (r: Step<seq<Template>>)
    ensures r.fetches == if c.cache.None? then 1 else 0
    ensures r.client.cache == Some(Catalog(c, outcome))
    ensures limit.Some? && 0 <= limit.value ==> |r.value| <= limit.value
    ensures forall t :: t in r.value ==> t in Catalog(c, outcome) && NameMatches(query, t)
    ensures forall i, j :: 0 <= i < j < |r.value|
              ==> Score(ratio, Lower(query), Lower(r.value[i].name))
                  >= Score(ratio, Lower(query), Lower(r.value[j].name))
  {
    var found := Imgflip.SearchTemplates(c, outcome, query);
    Step(RankAndCut(ratio, Lower(query), found.value, limit), found.client, found.fetches)
  }

  /** Every template the client's name filter passes contains the query,
      so every score is exactly 0.9, the stable sort keeps catalog order,
      and the result is just the first `limit` name matches. */
  lemma SearchIsFilteredPrefix(c: Client, outcome: FetchOutcome, ratio: Ratio, query: string,
                               limit: Option<int>)
    ensures SearchTemplates(c, outcome, ratio, query, limit).value
            == SliceTo(Filter(Catalog(c, outcome), (t: Template) => NameMatches(query, t)), limit)
  {
    var found := Imgflip.SearchTemplates(c, outcome, query);
    var matches := Filter(Catalog(c, outcome), (t: Template) => NameMatches(query, t));
    assert found.value == matches;
    var scored := ScoreAll(ratio, Lower(query), matches);
    forall i | 0 <= i < |scored| ensures scored[i].score == ContainmentScore {
      assert matches[i] in matches;
    }
    UniformScoresSortIsIdentity(scored, ContainmentScore);
    assert Items(scored) == matches;
    assert RankByScore(ratio, Lower(query), matches) == matches;
    assert SearchTemplates(c, outcome, ratio, query, limit).value
           == RankAndCut(ratio, Lower(query), matches, limit);
  }
}
