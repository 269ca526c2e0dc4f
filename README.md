# Compatibility aggregation of the nutrition guide backend, in Dafny

This project models the request logic of the backend's two controllers. It
leaves out the database and the HTTP layer, and proves what that logic
promises.

- **Disease guide** (`POST /api/diseases/guide`).
  - It validates the `diseases` list and looks the diseases up by their
    lower-cased names.
  - It fetches the AVOID and BENEFICIAL disease–ingredient relations of the
    diseases it found.
  - It folds each kind into one record per ingredient, in an
    insertion-ordered map. Each record keeps the largest severity, adds
    every disease to `affectedDiseases`, and appends `"; " + reason` only
    when the reason is not already in the text. The sources come from the
    relation that opened the record.
  - The `filter` value decides which of the two lists the reply carries.
- **Ingredient compatibility** (`GET /api/ingredients/:name/compatibility`).
  - It looks the ingredient up by its lower-cased name.
  - Every interaction and every beneficial pairing involving it becomes one
    record about the ingredient on the other side.
  - The filter rule is the same as for the guide.
- **Ingredient search** (`GET /api/ingredients/search?q=`). It returns at most
  ten ingredients whose name contains the lower-cased query, in ascending name
  order.

The modules:

- `Common` (`common.dfy`): the shared entities and reply type. It also holds
  the JavaScript behaviour both controllers rely on: falsiness of a request
  parameter, `includes`, `toLowerCase`, `url || null`, and the `filter`
  if-chain.
- `MergeByTarget` (`merge_by_target.dfy`): the merge-by-ingredient fold.
  - `Aggregate` states declaratively what the fold yields: one record per
    distinct ingredient, in first-seen order, built from the group of
    relations naming it.
  - `Merge` is the controller's loop over an ordered map, kept as a key
    sequence plus a `map`. Its invariant `Folded` ties the map to `Aggregate`
    of the relations consumed so far, and `Merge` is proved to return exactly
    `Aggregate`.
  - The properties of the fold are lemmas about `Aggregate`.
- `DiseaseController` (`disease_controller.dfy`). `GuideReply` specifies the
  guide endpoint's outcome. `GetDiseaseGuide` is the handler, written as the
  source writes it: it runs `Merge` twice and then sets the response keys
  conditionally. It is proved to return `GuideReply`.
- `IngredientController` (`ingredient_controller.dfy`): the compatibility
  endpoint and the search, as functions and lemmas.
  - The formatting is a `.map` with a ternary.
  - The search is a filter/sort/take query.
  - The `let response` object whose keys an if-chain sets is modelled as a
    function returning optional fields.
- `Scenarios` (`scenarios.dfy`): worked examples on the repository's seed
  data.

The database is passed in as sequences.

- `catalog` is a table.
- `table`, `interactions` and `benefits` are relation tables. Each row
  carries the rows it includes: the disease, the ingredient or both sides,
  and the sources.
- Relation tables are given in the order of the query's `orderBy`.
  Filtering keeps that order.

The model follows the code as written:

- **Order of merged records.** They stay in first-seen order and are not
  re-sorted by merged severity.
- **Sources of a merged record.** Only the first relation's sources are
  kept. Later relations' sources are dropped.
- **Unrecognised `filter` values.** They yield neither list.
- **Pairings that do not involve the queried ingredient.** They resolve to
  side A. No integrity error is raised.

## Model

| member | source | states |
|---|---|---|
| Common.Max | src/controllers/diseaseController.ts:86 | `Math.max` of two severities is at least both and equal to one of them |
| Common.FormatSource | src/controllers/diseaseController.ts:77-80 | a source view keeps the label; its url is present exactly when the stored url is present and non-empty (`url \|\| null`), and then it is the stored url |
| Common.FormatSources | src/controllers/ingredientController.ts:74-77 | one view per stored source, in order, each with the label kept and a falsy url replaced by null |
| Common.Contains | src/controllers/diseaseController.ts:88 | `includes` as a substring test: some position of `s` starts an occurrence of `t`; its basic facts are in ContainsBasics |
| Common.ContainsBasics | src/controllers/diseaseController.ts:88 | a string never contains a longer one, always contains the empty string, and contains itself |
| Common.ContainsExtends | src/controllers/diseaseController.ts:88-90 | a substring of the accumulated reason stays a substring after the reason is extended |
| Common.ContainsSuffix | src/controllers/diseaseController.ts:89 | after `reason += "; " + r`, the reason contains `r` |
| Common.NotContainsByFirstChar | src/controllers/diseaseController.ts:88 | `includes` is false when the first character of the needle occurs nowhere an occurrence could start |
| Common.Lower | src/controllers/diseaseController.ts:18 | lower-casing keeps the length, leaves no upper-case ASCII letter, and changes exactly the upper-case letters, each by +32 |
| Common.LowerKeepsLower | src/controllers/ingredientController.ts:21 | a name with no upper-case letter is looked up unchanged, so lower-casing is idempotent |
| Common.LowerAll | src/controllers/diseaseController.ts:18 | the normalized names are the requested names lower-cased, position by position |
| Common.Falsy | src/controllers/diseaseController.ts:127 | `!filter`: true for a missing parameter, for the empty string and for a falsy non-string value; false for every non-empty string |
| Common.Presence | src/controllers/diseaseController.ts:127-134 | `avoid` is shown exactly for a falsy filter, "all" or "avoid"; `beneficial` exactly for a falsy filter, "all" or "beneficial"; any other value shows neither |
| MergeByTarget.Key | src/controllers/diseaseController.ts:70 | the map key of a relation is its ingredient's name |
| MergeByTarget.EdgesFor | src/controllers/diseaseController.ts:69-71 | the group of an ingredient is no longer than the input, and is non-empty exactly when some relation names that ingredient |
| MergeByTarget.Snoc | src/controllers/diseaseController.ts:69-71 | one more relation adds itself to its own ingredient's group and leaves other groups alone |
| MergeByTarget.SnocOther | src/controllers/diseaseController.ts:69-71 | a relation naming another ingredient changes neither the group nor the mention of `k` |
| MergeByTarget.EdgesForMembers | src/controllers/diseaseController.ts:69-71 | a group holds exactly the relations of the input that name its ingredient |
| MergeByTarget.FirstSeen | src/controllers/diseaseController.ts:71-81 | the map's keys: each distinct ingredient named in the input exactly once, and nothing else |
| MergeByTarget.FirstIndex | src/controllers/diseaseController.ts:71 | the position of the relation that creates an ingredient's entry: it names the ingredient, no earlier relation does, and it heads the group |
| MergeByTarget.NotMentioned | src/controllers/diseaseController.ts:71 | when an ingredient is not mentioned, no relation of the input names it |
| MergeByTarget.MaxSeverity | src/controllers/diseaseController.ts:75-86 | the folded `Math.max` is at least every severity of the group and equal to one of them |
| MergeByTarget.AppendReason | src/controllers/diseaseController.ts:88-90 | the reason only grows and always ends up containing the new reason; it is unchanged when the reason already occurs, and otherwise grows by exactly `"; " + reason` |
| MergeByTarget.MergedReason | src/controllers/diseaseController.ts:74-90 | the merged reason starts with the first relation's reason |
| MergeByTarget.MergedReasonContainsAll | src/controllers/diseaseController.ts:88-90 | the merged reason contains the reason of every relation of its group |
| MergeByTarget.DiseaseNames | src/controllers/diseaseController.ts:76-84 | the disease names of a group, one per relation, in order |
| MergeByTarget.RecordFor | src/controllers/diseaseController.ts:72-90 | the record of an ingredient's group names that ingredient, starts its reason with the first relation's reason, has one affected disease per relation and keeps the first relation's formatted sources |
| MergeByTarget.Aggregate | src/controllers/diseaseController.ts:68-92 | one record per distinct ingredient in first-seen order, no ingredient twice, never more records than relations |
| MergeByTarget.AggregateAt | src/controllers/diseaseController.ts:119 | the record at each position is the one built from its ingredient's group |
| MergeByTarget.Opened | src/controllers/diseaseController.ts:72-80 | the `map.set` record literal built from one relation; OpenedIsSingleGroup ties it to the specification |
| MergeByTarget.OpenedIsSingleGroup | src/controllers/diseaseController.ts:72-80 | the record a relation opens is the record of a group holding that relation alone |
| MergeByTarget.Extended | src/controllers/diseaseController.ts:82-90 | the in-place update keeps the food and sources and pushes the disease. The severity becomes exactly `Math.max` of the old and new severities. The reason stays as it is when it already contains the new reason, and otherwise grows by exactly `"; " + reason` |
| MergeByTarget.OpenStep | src/controllers/diseaseController.ts:71-81 | a relation with a new ingredient adds its key at the end and creates the record from that relation alone |
| MergeByTarget.ExtendStep | src/controllers/diseaseController.ts:82-91 | a relation with a known ingredient keeps the keys and extends that record: disease pushed, larger severity, reason step, sources untouched |
| MergeByTarget.AggregateOpensAt | src/controllers/diseaseController.ts:71-81 | opening a new record leaves every earlier record unchanged |
| MergeByTarget.AggregateOpens | src/controllers/diseaseController.ts:71-81 | appending a relation with a new ingredient appends the record it opens to the output |
| MergeByTarget.AggregateExtends | src/controllers/diseaseController.ts:82-91 | appending a relation with a known ingredient keeps the output's length and order and extends only that ingredient's record |
| MergeByTarget.FoldedStep | src/controllers/diseaseController.ts:69-91 | storing the right record under the relation's key keeps the map in step with the specification |
| MergeByTarget.FoldedOther | src/controllers/diseaseController.ts:69-91 | the record stored under an ingredient other than the new relation's stays equal to the record of that ingredient's group |
| MergeByTarget.Absorb | src/controllers/diseaseController.ts:69-91 | one `forEach` callback (`has`/`set`, or push, `Math.max` and the `includes` test) keeps the map equal to the specification of the longer prefix |
| MergeByTarget.Values | src/controllers/diseaseController.ts:119 | `Array.from(map.values())` lists the stored records in key order |
| MergeByTarget.Merge | src/controllers/diseaseController.ts:67-120 | the loop over the relations followed by `Array.from` returns exactly `Aggregate` of the relations |
| MergeByTarget.AggregateCoversIngredients | src/controllers/diseaseController.ts:69-81 | every relation's ingredient has a record, and every record's ingredient comes from some relation |
| MergeByTarget.SeverityIsMaximum | src/controllers/diseaseController.ts:75-86 | a record's severity is the maximum severity over all relations naming its ingredient, and is attained by one of them |
| MergeByTarget.ReasonCoversAll | src/controllers/diseaseController.ts:74-90 | a record's reason contains every such relation's reason and starts with the first one's |
| MergeByTarget.FirstRelationFixesSources | src/controllers/diseaseController.ts:76-91 | a record's sources are the formatted sources of the first relation naming its ingredient; its disease list has one entry per such relation, in input order, starting with the first one's disease |
| MergeByTarget.AffectedFromRelations | src/controllers/diseaseController.ts:76-84 | every entry of `affectedDiseases` is the disease of a relation naming the record's ingredient |
| MergeByTarget.FirstSeenOrder | src/controllers/diseaseController.ts:119-120 | records appear in the order in which their ingredients first appear in the input; nothing is re-sorted |
| MergeByTarget.GroupSizesSnoc | src/controllers/diseaseController.ts:84 | one more relation adds one to the group sizes of its own key only |
| MergeByTarget.GroupSizesAppend | src/controllers/diseaseController.ts:72 | a new key at the end does not change the sizes of the keys before it |
| MergeByTarget.GroupSizesOfFirstSeen | src/controllers/diseaseController.ts:68-92 | the groups of all keys together have exactly as many relations as the input |
| MergeByTarget.AffectedLength | src/controllers/diseaseController.ts:76-84 | a record's `affectedDiseases` is as long as its ingredient's group |
| MergeByTarget.AffectedSumsAgree | src/controllers/diseaseController.ts:76-84 | when every record's list is as long as its key's group, the list lengths add up to the group sizes |
| MergeByTarget.TotalAffectedIsGroupSizes | src/controllers/diseaseController.ts:76-84 | the `affectedDiseases` lengths of the first n records add up to the sizes of their groups |
| MergeByTarget.AffectedDiseasesConserved | src/controllers/diseaseController.ts:76-110 | the lengths of all `affectedDiseases` lists add up to the number of relations: each relation is counted exactly once |
| DiseaseController.FindDiseases | src/controllers/diseaseController.ts:21-27 | the found diseases are exactly the stored diseases whose name is among the normalized names |
| DiseaseController.Ids | src/controllers/diseaseController.ts:37 | the found diseases' ids, position by position |
| DiseaseController.Names | src/controllers/diseaseController.ts:124 | the found diseases' names, position by position |
| DiseaseController.FetchRelations | src/controllers/diseaseController.ts:40-65 | the fetched relations are exactly the stored relations of the given kind whose disease was found, so AVOID and BENEFICIAL never mix |
| DiseaseController.GuideReply | src/controllers/diseaseController.ts:9-136 | 400 exactly when `diseases` is missing, not an array or empty; 404 with the lower-cased names exactly when none is stored; otherwise `diseases` lists exactly the requested names that are stored, the list keys follow the filter rule, and each list present is the fold (`Aggregate`) of the found diseases' relations of its own kind |
| DiseaseController.GetDiseaseGuide | src/controllers/diseaseController.ts:5-136 | the handler, with both folds and the conditional response keys, returns exactly `GuideReply` |
| DiseaseController.NamesOfFound | src/controllers/diseaseController.ts:124 | the reply's `diseases` are the normalized names that are stored |
| DiseaseController.FetchedDiseaseIsFound | src/controllers/diseaseController.ts:37-42 | in a store with unique disease ids, a fetched relation's disease is one of the found diseases |
| DiseaseController.AffectedIsFound | src/controllers/diseaseController.ts:76-84 | every disease in a fold's `affectedDiseases` is one of the found diseases |
| DiseaseController.GuideListsFromFoundDiseases | src/controllers/diseaseController.ts:119-134 | in a successful reply, every disease named in either list is in the reply's `diseases` |
| IngredientController.OtherSide | src/controllers/ingredientController.ts:65-68 | the pick is one of the two sides; for a pairing of two different ingredients involving the queried one it is the other one; when neither side is the queried one it falls back to side A; when side A is the queried one (a self-pairing included) it is side B |
| IngredientController.FormatPairing | src/controllers/ingredientController.ts:65-78 | one pairing's record names one of its two sides: side B when side A is the queried one; side A when side B is the queried one, and also when neither is. It copies reason and severity, and its sources are the stored sources formatted as `{label, url \|\| null}` |
| IngredientController.FormatPairings | src/controllers/ingredientController.ts:64-97 | exactly one record per pairing, in order, naming the other side and copying reason, severity and formatted sources |
| IngredientController.FormatPairingsAppend | src/controllers/ingredientController.ts:64-79 | formatting is per pairing: nothing is merged or de-duplicated across pairings |
| IngredientController.Involving | src/controllers/ingredientController.ts:32-61 | the fetched pairings are exactly the stored ones with the ingredient on either side |
| IngredientController.FindIngredient | src/controllers/ingredientController.ts:20-22 | an ingredient is found exactly when one with that name is stored, and the one found has that name |
| IngredientController.CompatReply | src/controllers/ingredientController.ts:13-114 | 400 exactly for an empty name; 404 carrying the name as given exactly when no stored name equals it lower-cased; otherwise the stored ingredient's name and category, the list keys following the filter rule, and each list present the formatted interactions (for `avoid`) or beneficial pairings (for `beneficial`) involving that ingredient, one record per pairing |
| IngredientController.OtherIsAnother | src/controllers/ingredientController.ts:65-68 | with unique ids and names and no self-pairing, the other side never has the queried ingredient's name |
| IngredientController.CompatListsNameOthers | src/controllers/ingredientController.ts:64-112 | in a well-formed store, no record of either list names the queried ingredient itself |
| IngredientController.ListingOf | src/controllers/ingredientController.ts:142-145 | `select: {name, category}`: a search hit carries only the ingredient's name and category |
| IngredientController.NameLe | src/controllers/ingredientController.ts:147-149 | ascending name order by character code; a prefix comes no later than the names it begins |
| IngredientController.NameLeAntisymmetric | src/controllers/ingredientController.ts:147-149 | two names ordered both ways are equal |
| IngredientController.NameLeTotal | src/controllers/ingredientController.ts:147-149 | any two names are ordered one way or the other |
| IngredientController.NameLeTransitive | src/controllers/ingredientController.ts:147-149 | the name order is transitive |
| IngredientController.Insert | src/controllers/ingredientController.ts:147-149 | inserting into a name-sorted list keeps it sorted and adds exactly the one listing |
| IngredientController.BelowHead | src/controllers/ingredientController.ts:147-149 | a name no later than the head of a sorted list is no later than any of its elements |
| IngredientController.BelowAll | src/controllers/ingredientController.ts:147-149 | a lower bound of the inserted listing and of the old elements bounds the new list |
| IngredientController.SortedCons | src/controllers/ingredientController.ts:147-149 | a listing no later than every element of a sorted list can go in front |
| IngredientController.SortByName | src/controllers/ingredientController.ts:147-149 | the ordered listings are sorted by name and are a permutation of the matches |
| IngredientController.Matching | src/controllers/ingredientController.ts:136-145 | the matches are exactly the listings of the stored ingredients whose name contains the needle |
| IngredientController.SearchResults | src/controllers/ingredientController.ts:136-150 | at most ten hits, sorted by name |
| IngredientController.SearchIsFirstTenMatches | src/controllers/ingredientController.ts:136-150 | every hit is a stored ingredient whose name contains the needle; a matching ingredient is left out only when there are ten hits, none after it in name order |
| IngredientController.SearchReply | src/controllers/ingredientController.ts:127-155 | never 404; 400 exactly when `q` is missing, empty or not a string; otherwise the query echoed as given and at most ten results, which are the search results for the lower-cased query (the first ten matches by name, per SearchIsFirstTenMatches) |
| Scenarios.BaconMerges | prisma/seed.ts:162-195 | bacon's relations to hypertension (severity 5) and diabetes (severity 4) merge into one record: severity 5, both reasons joined by "; ", both diseases, only the first relation's source |
| Scenarios.TwoRelationsOneRecord | src/controllers/diseaseController.ts:71-91 | two relations naming one ingredient fold into one record: the first opens it, the second extends it |
| Scenarios.SodiumReasonHasNoCapitalH | prisma/seed.ts:184 | no occurrence of the diabetes reason can start inside the hypertension reason |
| Scenarios.RepeatedReasonIsNotAppended | src/controllers/diseaseController.ts:88-90 | a reason already present is not appended again, while its disease is still added |
| Scenarios.UnknownDiseaseNotFound | src/controllers/diseaseController.ts:18-35 | asking for "Gout" answers 404 with `["gout"]` |
| Scenarios.CitrusBeneficialOnly | prisma/seed.ts:62-77 | citrus with `filter=beneficial` answers an empty `beneficial` list and no `avoid` key |
| Scenarios.SpinachSteps | prisma/seed.ts:79-94 | spinach is found under its own name, and only the milk–spinach interaction involves it |
| Scenarios.SpinachSeesMilk | src/controllers/ingredientController.ts:65-68 | spinach is side B of its interaction with milk, so its record names milk |
| Scenarios.SpinachRecord | prisma/seed.ts:79-94 | that record keeps the seeded reason, severity and source with its url |
| Scenarios.UnknownFilterShowsNeither | src/controllers/ingredientController.ts:105-112 | an unrecognised filter value yields neither list |

## Left out

- **Database and web framework.**
  - Prisma is not modelled: its connection, queries and the `findMany`/`findUnique` calls become the input sequences and the functions over them.
  - The query's `orderBy` pre-sort is not modelled. The relation tables are taken to be listed already in that order.
  - The store order of found diseases is taken as catalog order.
- **HTTP transport.** Express request and response handling and the HTTP status transport are not modelled. A reply is a `Reply` value.
- **The 500 handlers.** The catch-all handlers (`src/controllers/diseaseController.ts:137-143`, `src/controllers/ingredientController.ts:115-121`) are not modelled. Nothing can fail inside the model.
- **Non-string disease entries.** Such an entry makes `toLowerCase` throw, which ends in the 500 handler. The model takes `diseases` to be absent, a non-array value or a list of strings.
- **`getAllDiseases`** (`src/controllers/diseaseController.ts:147-171`): a plain database read with nothing to prove.
- **Other files.**
  - `prisma/seed.ts` is fixture data. It appears only as the worked examples.
  - `src/routes/voice.ts`, `src/routes/ai.ts`, `src/index.ts` and the route files are file I/O, calls to an external AI service, and server and route wiring.
- Common.Lower: handles ASCII letters only. JavaScript's full Unicode `toLowerCase` is not modelled.
- IngredientController.Matching: `contains` is modelled as case-sensitive substring matching on the stored names. The database's collation and case rules are not modelled.
- IngredientController.NameLe: the name order is by character code. The database collation's order is not modelled.
- IngredientController.Matching: search results are listed by name only. Ties between equal names are not ordered, because ingredient names are unique in the store.
