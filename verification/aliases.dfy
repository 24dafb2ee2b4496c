/** The curated alias table of `TemplateMatcher` and the alias pass of
    `find_best_match`. The table is a dict literal, so its entries are
    tried in declaration order. */
module Aliases {
  import opened Wrappers
  import opened Lists
  import opened Text
  import opened Imgflip

  /** One alias: a lower-case phrase and the template ids it stands for. */
  datatype AliasEntry = AliasEntry(phrase: string, ids: seq<string>)

  const MensWarehouseId: string := "181913649"

  /** The alias table, in declaration order. */
  const AliasTable: seq<AliasEntry> := [
    // Men's Warehouse meme
    AliasEntry("mens warehouse", [MensWarehouseId]),
    AliasEntry("men's warehouse", [MensWarehouseId]),
    AliasEntry("mens", [MensWarehouseId]),
    AliasEntry("guarantee", [MensWarehouseId]),
    AliasEntry("i guarantee it", [MensWarehouseId]),
    // Drake pointing/approving
    AliasEntry("drake", ["112126428"]),
    AliasEntry("drake pointing", ["112126428"]),
    AliasEntry("drake approve", ["112126428"]),
    AliasEntry("drake disapprove", ["112126428"]),
    // Distracted boyfriend
    AliasEntry("distracted boyfriend", ["112126428"]),
    AliasEntry("boyfriend looking back", ["112126428"]),
    AliasEntry("cheating boyfriend", ["112126428"]),
    // Popular memes
    AliasEntry("two buttons", ["87743020"]),
    AliasEntry("expanding brain", ["112126428"]),
    AliasEntry("woman yelling at cat", ["188390779"]),
    AliasEntry("surprised pikachu", ["155067746"]),
    AliasEntry("change my mind", ["129242436"]),
    AliasEntry("this is fine", ["55311130"]),
    AliasEntry("uno reverse", ["124055727"]),
    AliasEntry("always has been", ["216951317"]),
    // Classic memes
    AliasEntry("one does not simply", ["61579"]),
    AliasEntry("most interesting man", ["61532"]),
    AliasEntry("y u no", ["61527"]),
    AliasEntry("philosoraptor", ["61516"]),
    AliasEntry("success kid", ["61544"]),
    AliasEntry("bad luck brian", ["61585"]),
    AliasEntry("scumbag steve", ["61522"]),
    AliasEntry("good guy greg", ["61520"]),
    AliasEntry("first world problems", ["61539"]),
    AliasEntry("overly attached girlfriend", ["61518"])
  ]

  /** Every alias in the table stands for exactly one template id. */
  lemma AliasTableShape()
    ensures |AliasTable| == 30
    ensures forall i :: 0 <= i < |AliasTable| ==> |AliasTable[i].ids| == 1
  {
  }

  /** `alias in hint or hint in alias`: one of the two occurs in the other. */
  function AliasMatches(phrase: string, hint: string): (b: bool)
    ensures b <==> (exists i :: OccursAt(hint, phrase, i)) || (exists i :: OccursAt(phrase, hint, i))
  {
    ContainsIff(hint, phrase);
    ContainsIff(phrase, hint);
    Contains(hint, phrase) || Contains(phrase, hint)
  }

  /** The catalog entry an alias resolves to: the first template, in catalog
      order, whose id is one of the alias's ids. */
  function Resolve(e: AliasEntry, catalog: seq<Template>): (r: Option<Template>)
    ensures r.Some? ==> r.value in catalog && r.value.id in e.ids
    ensures r.None? <==> forall t :: t in catalog ==> t.id !in e.ids
    ensures r.Some? ==> exists i :: 0 <= i < |catalog| && catalog[i] == r.value
                                    && forall j :: 0 <= j < i ==> catalog[j].id !in e.ids
  {
    First(catalog, (t: Template) => t.id in e.ids)
  }

  /** An alias that matches the hint and resolves in the catalog. */
  predicate Hits(e: AliasEntry, catalog: seq<Template>, hint: string) {
    AliasMatches(e.phrase, hint) && Resolve(e, catalog).Some?
  }

  /** The alias pass, as the loop runs it: try each alias in order; a
      matching alias returns its first catalog hit, and a matching alias
      without one lets the loop go on. */
  function AliasPass(table: seq<AliasEntry>, catalog: seq<Template>, hint: string)
    : (r: Option<Template>)
    ensures r.Some? ==> r.value in catalog
  {
    if |table| == 0 then None
    else if AliasMatches(table[0].phrase, hint) && Resolve(table[0], catalog).Some? then
      Resolve(table[0], catalog)
    else AliasPass(table[1..], catalog, hint)
  }

  /** The alias pass answers with the first alias that hits: `None` when no
      alias hits, otherwise the resolution of the earliest one that does. */
  lemma {:induction false} AliasPassIsFirstHit(table: seq<AliasEntry>, catalog: seq<Template>,
                                               hint: string)
    ensures var k := FirstIndex(table, (e: AliasEntry) => Hits(e, catalog, hint));
            AliasPass(table, catalog, hint)
            == if k.None? then None else Resolve(table[k.value], catalog)
    decreases |table|
  {
    if |table| > 0 && !Hits(table[0], catalog, hint) {
      AliasPassIsFirstHit(table[1..], catalog, hint);
    }
  }

  /** `get_template_suggestions()`: the alias phrases, in table order. They
      are the keys of a dict, so no phrase is offered twice. */
  function TemplateSuggestions(): (r: seq<string>)
    ensures |r| == |AliasTable|
    ensures forall i :: 0 <= i < |r| ==> r[i] == AliasTable[i].phrase
    ensures forall i, j :: 0 <= i < j < |r| ==> r[i] != r[j]
  {
    seq(|AliasTable|, i requires 0 <= i < |AliasTable| => AliasTable[i].phrase)
  }

  /** Offering a suggestion back as a hint reaches an answer in the alias
      pass whenever that suggestion's alias has a template in the catalog:
      the phrase matches its own alias, so some alias at or before it hits. */
  lemma SuggestionsResolve(i: nat, catalog: seq<Template>)
    requires i < |AliasTable|
    requires Resolve(AliasTable[i], catalog).Some?
    ensures AliasPass(AliasTable, catalog, TemplateSuggestions()[i]).Some?
  {
    var h := TemplateSuggestions()[i];
    ContainsTrivial(h);
    assert Hits(AliasTable[i], catalog, h);
    AliasPassIsFirstHit(AliasTable, catalog, h);
  }
}
