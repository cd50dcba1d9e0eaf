/**
 * The template picker: the category list, the search/category filter and the
 * preview and variable chips of a template card.
 */
module TemplateModal {
  import opened Wrappers
  import opened Text
  import opened Types
  import Seqs

  const PreviewLength := 150

  /** `Array.from(new Set(templates.map((t) => t.category)))`. */
  function Categories(templates: seq<WhatsAppTemplate>): (cs: seq<string>)
    ensures Seqs.NoDuplicates(cs)
    ensures forall k :: 0 <= k < |templates| ==> templates[k].category in cs
    ensures forall c :: c in cs ==> exists k :: 0 <= k < |templates| && templates[k].category == c
    ensures forall i :: 0 <= i < |cs| ==> cs[i] in CategoryList(templates)
    ensures forall i, j :: 0 <= i < j < |cs| ==> FirstCategoryIndex(templates, cs[i]) < FirstCategoryIndex(templates, cs[j])
  {
    var all := CategoryList(templates);
    assert forall k :: 0 <= k < |templates| ==> templates[k].category == all[k];
    assert forall k :: 0 <= k < |templates| ==> all[k] in all;
    Seqs.Distinct(all)
  }

  /** The templates' categories, one per template. */
  function CategoryList(templates: seq<WhatsAppTemplate>): (all: seq<string>)
    ensures |all| == |templates|
    ensures forall k :: 0 <= k < |templates| ==> all[k] == templates[k].category
  {
    seq(|templates|, k requires 0 <= k < |templates| => templates[k].category)
  }

  /** The index of the first template of category `c`. */
  function FirstCategoryIndex(templates: seq<WhatsAppTemplate>, c: string): (i: nat)
    requires c in CategoryList(templates)
    ensures i < |templates| && templates[i].category == c
    ensures forall j :: 0 <= j < i ==> templates[j].category != c
  {
    Seqs.FirstIndex(CategoryList(templates), c)
  }

  /** The search part of the filter: an empty query, or a case-insensitive hit in name or content. */
  predicate MatchesSearch(t: WhatsAppTemplate, query: string): (b: bool)
    ensures b <==>
      || query == ""
      || (exists i: nat :: OccursAt(ToLower(t.name), ToLower(query), i))
      || (exists i: nat :: OccursAt(ToLower(t.content), ToLower(query), i))
  {
    ContainsIffOccurs(ToLower(t.name), ToLower(query));
    ContainsIffOccurs(ToLower(t.content), ToLower(query));
    query == "" || ContainsIgnoringCase(t.name, query) || ContainsIgnoringCase(t.content, query)
  }

  /** The category part: `!selectedCategory` (null or "") or an equal category. */
  predicate MatchesCategory(t: WhatsAppTemplate, selected: Option<string>): (b: bool)
    ensures selected.None? || selected == Some("") ==> b
    ensures selected.Some? && selected.value != "" ==> (b <==> t.category == selected.value)
  {
    selected.None? || selected.value == "" || t.category == selected.value
  }

  /** Both parts of the filter, AND-ed. */
  predicate TemplateVisible(t: WhatsAppTemplate, query: string, selected: Option<string>) {
    MatchesSearch(t, query) && MatchesCategory(t, selected)
  }

  /** `filteredTemplates`: the visible templates, in list order. */
  function FilteredTemplates(templates: seq<WhatsAppTemplate>, query: string, selected: Option<string>): (r: seq<WhatsAppTemplate>)
    ensures Seqs.IsSubsequence(r, templates)
    ensures forall t :: t in r ==> MatchesSearch(t, query) && MatchesCategory(t, selected)
    ensures forall t :: t in templates && MatchesSearch(t, query) && MatchesCategory(t, selected) ==> t in r
    ensures forall t :: t in templates ==>
      multiset(r)[t] == if MatchesSearch(t, query) && MatchesCategory(t, selected) then multiset(templates)[t] else 0
  {
    Seqs.Filter(templates, t => TemplateVisible(t, query, selected))
  }

  /** With no query and no category every template is shown. */
  lemma FilteredTemplatesUnconstrained(templates: seq<WhatsAppTemplate>, selected: Option<string>)
    requires selected.None? || selected.value == ""
    ensures FilteredTemplates(templates, "", selected) == templates
  {
    Seqs.FilterKeepsAll(templates, t => TemplateVisible(t, "", selected));
  }

  /** The search ignores case: a query and its lower-cased form select the same templates. */
  lemma FilteredTemplatesIgnoresQueryCase(templates: seq<WhatsAppTemplate>, query: string, selected: Option<string>)
    ensures FilteredTemplates(templates, ToLower(query), selected) == FilteredTemplates(templates, query, selected)
  {
    ToLowerIdempotent(query);
    Seqs.FilterCongruent(templates, t => TemplateVisible(t, ToLower(query), selected), t => TemplateVisible(t, query, selected));
  }

  /** `template.content.substring(0, 150)` followed by the literal "...". */
  function Preview(content: string): (r: string)
    ensures |content| <= PreviewLength ==> r == content + "..."
    ensures |content| > PreviewLength ==> |r| == PreviewLength + 3 && r[..PreviewLength] == content[..PreviewLength]
    ensures r[|r| - 3..] == "..."
  {
    var cut := if |content| < PreviewLength then |content| else PreviewLength;
    content[..cut] + "..."
  }

  /** The chip text of one placeholder name: `{{v}}`. */
  function VariableChip(v: string): (r: string)
    ensures |r| == |v| + 4
    ensures r[..2] == "{{" && r[2..|r| - 2] == v && r[|r| - 2..] == "}}"
  {
    "{{" + v + "}}"
  }

  /** The chips of a card: one per listed variable, none when the list is missing or empty. */
  function VariableChips(t: WhatsAppTemplate): (chips: seq<string>)
    ensures t.variables.None? ==> chips == []
    ensures t.variables.Some? ==> |chips| == |t.variables.value|
    ensures t.variables.Some? ==> forall k :: 0 <= k < |chips| ==> chips[k] == VariableChip(t.variables.value[k])
  {
    match t.variables
    case None => []
    case Some(vs) => seq(|vs|, k requires 0 <= k < |vs| => VariableChip(vs[k]))
  }
}
