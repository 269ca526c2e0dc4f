/** `POST /api/diseases/guide`: validate the requested disease names, look
    them up lower-cased, fetch the AVOID and BENEFICIAL relations of the
    diseases found, merge each kind by ingredient, and show the lists the
    `filter` asks for.

    The store is passed in as sequences: `catalog` is the disease table and
    `table` the disease-ingredient relations with their disease, ingredient
    and sources attached, listed in the order of the query's `orderBy`
    (severity descending, then ingredient name). Filtering a list keeps its
    order, so the fetched relations of each kind reach the fold in that
    order. */
module DiseaseController {
  import opened Common
  import opened MergeByTarget

  /** The JSON body of a successful guide request. A `None` list is a key the
      response object does not carry. */
  datatype Guide = Guide(
    diseases: seq<string>,
    avoid: Option<seq<GuideRecord>>,
    beneficial: Option<seq<GuideRecord>>)

  /** `prisma.disease.findMany({where: {name: {in: names}}})`: the stored
      diseases whose name is one of `names`, in store order. */
  function FindDiseases(catalog: seq<Disease>, names: seq<string>): (found: seq<Disease>)
    ensures |found| <= |catalog|
    ensures forall d :: d in found <==> d in catalog && d.name in names
  {
    if catalog == [] then []
    else
      var last := catalog[|catalog| - 1];
      FindDiseases(catalog[..|catalog| - 1], names) + (if last.name in names then [last] else [])
  }

  /** `foundDiseases.map((d) => d.id)` */
  function Ids(found: seq<Disease>): (ids: seq<int>)
    ensures |ids| == |found|
    ensures forall i :: 0 <= i < |found| ==> ids[i] == found[i].id
  {
    seq(|found|, i requires 0 <= i < |found| => found[i].id)
  }

  /** `foundDiseases.map((d) => d.name)` */
  function Names(found: seq<Disease>): (names: seq<string>)
    ensures |names| == |found|
    ensures forall i :: 0 <= i < |found| ==> names[i] == found[i].name
  {
    seq(|found|, i requires 0 <= i < |found| => found[i].name)
  }

  /** `prisma.diseaseIngredient.findMany({where: {diseaseId: {in: ids}, type: kind}})`:
      the relations of the given kind whose disease is one of `ids`, in the
      order they are listed. */
  function FetchRelations(table: seq<DiseaseRelation>, ids: seq<int>, kind: RelationKind): (rs: seq<DiseaseRelation>)
    ensures |rs| <= |table|
    ensures forall x :: x in rs <==> x in table && x.disease.id in ids && x.kind == kind
  {
    if table == [] then []
    else
      var last := table[|table| - 1];
      FetchRelations(table[..|table| - 1], ids, kind) + (if last.disease.id in ids && last.kind == kind then [last] else [])
  }

  /** What the endpoint answers for a request body with `diseases` (`None`
      when it is missing or not an array) and `filter`. */
  function GuideReply(diseases: Option<seq<string>>, filter: Param,
                      catalog: seq<Disease>, table: seq<DiseaseRelation>): (reply: Reply<Guide>)
    ensures reply.BadRequest? <==> diseases.None? || diseases.value == []
    ensures reply.NotFound? <==>
              diseases.Some? && diseases.value != [] &&
              forall d :: d in catalog ==> d.name !in LowerAll(diseases.value)
    ensures reply.NotFound? ==> reply.requested == LowerAll(diseases.value)
    ensures reply.Success? ==>
              && reply.body.diseases != []
              && (forall n :: n in reply.body.diseases <==>
                    n in LowerAll(diseases.value) && exists d :: d in catalog && d.name == n)
              && (reply.body.avoid.Some? <==> Presence(filter).avoid)
              && (reply.body.beneficial.Some? <==> Presence(filter).beneficial)
    ensures reply.Success? && reply.body.avoid.Some? ==>
              reply.body.avoid.value ==
                Aggregate(FetchRelations(table, Ids(FindDiseases(catalog, LowerAll(diseases.value))), Avoid))
    ensures reply.Success? && reply.body.beneficial.Some? ==>
              reply.body.beneficial.value ==
                Aggregate(FetchRelations(table, Ids(FindDiseases(catalog, LowerAll(diseases.value))), Beneficial))
  {
    if diseases.None? || diseases.value == [] then BadRequest
    else
      var names := LowerAll(diseases.value);
      var found := FindDiseases(catalog, names);
      if found == [] then
        assert forall d :: d in catalog ==> d.name !in names;
        NotFound(names)
      else
        assert found[0] in found;
        NamesOfFound(catalog, names);
        var ids := Ids(found);
        var shown := Presence(filter);
        Success(Guide(
          Names(found),
          if shown.avoid then Some(Aggregate(FetchRelations(table, ids, Avoid))) else None,
          if shown.beneficial then Some(Aggregate(FetchRelations(table, ids, Beneficial))) else None))
  }

  /** The request handler: the validation and lookups, the two folds, then
      the `let response` object whose list keys are set by the filter. */
  method GetDiseaseGuide(diseases: Option<seq<string>>, filter: Param,
                         catalog: seq<Disease>, table: seq<DiseaseRelation>)
    returns (reply: Reply<Guide>)
    ensures reply == GuideReply(diseases, filter, catalog, table)
  {
    if diseases.None? || |diseases.value| == 0 {
      return BadRequest;
    }
    var diseaseNames := LowerAll(diseases.value);
    var foundDiseases := FindDiseases(catalog, diseaseNames);
    if |foundDiseases| == 0 {
      return NotFound(diseaseNames);
    }
    var diseaseIds := Ids(foundDiseases);
    var avoidRelations := FetchRelations(table, diseaseIds, Avoid);
    var beneficialRelations := FetchRelations(table, diseaseIds, Beneficial);
    var avoid := Merge(avoidRelations);
    var beneficial := Merge(beneficialRelations);
    var response := Guide(Names(foundDiseases), None, None);
    if Falsy(filter) || filter == Text("all") {
      response := response.(avoid := Some(avoid), beneficial := Some(beneficial));
    } else if filter == Text("avoid") {
      response := response.(avoid := Some(avoid));
    } else if filter == Text("beneficial") {
      response := response.(beneficial := Some(beneficial));
    }
    reply := Success(response);
  }

  /** The store's keys: disease ids are unique, and every relation's disease
      is a stored disease. */
  predicate StoreIntegrity(catalog: seq<Disease>, table: seq<DiseaseRelation>)
  {
    && (forall i, j :: 0 <= i < j < |catalog| ==> catalog[i].id != catalog[j].id)
    && (forall x :: x in table ==> x.disease in catalog)
  }

  /** In a consistent store, the records of a successful reply only name
      found diseases: every entry of an `affectedDiseases` list, in either
      list, is in the reply's `diseases`. */
  lemma GuideListsFromFoundDiseases(diseases: Option<seq<string>>, filter: Param,
                                    catalog: seq<Disease>, table: seq<DiseaseRelation>)
    requires StoreIntegrity(catalog, table)
    ensures var reply := GuideReply(diseases, filter, catalog, table);
            reply.Success? && reply.body.avoid.Some? ==>
              forall i, n :: 0 <= i < |reply.body.avoid.value| && n in reply.body.avoid.value[i].affectedDiseases ==>
                n in reply.body.diseases
    ensures var reply := GuideReply(diseases, filter, catalog, table);
            reply.Success? && reply.body.beneficial.Some? ==>
              forall i, n :: 0 <= i < |reply.body.beneficial.value| && n in reply.body.beneficial.value[i].affectedDiseases ==>
                n in reply.body.diseases
  {
    var reply := GuideReply(diseases, filter, catalog, table);
    if reply.Success? {
      var names := LowerAll(diseases.value);
      var found := FindDiseases(catalog, names);
      var ids := Ids(found);
      var g := reply.body;
      assert g.diseases == Names(found);
      if g.avoid.Some? {
        var out := Aggregate(FetchRelations(table, ids, Avoid));
        assert g.avoid.value == out;
        forall i, n | 0 <= i < |out| && n in out[i].affectedDiseases
          ensures n in g.diseases
        {
          AffectedIsFound(catalog, names, table, Avoid, i, n);
        }
      }
      if g.beneficial.Some? {
        var out := Aggregate(FetchRelations(table, ids, Beneficial));
        assert g.beneficial.value == out;
        forall i, n | 0 <= i < |out| && n in out[i].affectedDiseases
          ensures n in g.diseases
        {
          AffectedIsFound(catalog, names, table, Beneficial, i, n);
        }
      }
    }
  }

  /** The names of the found diseases are the requested names that are stored. */
  lemma NamesOfFound(catalog: seq<Disease>, names: seq<string>)
    ensures forall n :: n in Names(FindDiseases(catalog, names)) <==>
              n in names && exists d :: d in catalog && d.name == n
  {
    var found := FindDiseases(catalog, names);
    forall n | n in names && exists d :: d in catalog && d.name == n
      ensures n in Names(found)
    {
      var d :| d in catalog && d.name == n;
      var k :| 0 <= k < |found| && found[k] == d;
      assert Names(found)[k] == n;
    }
    forall n | n in Names(found)
      ensures n in names && exists d :: d in catalog && d.name == n
    {
      var k :| 0 <= k < |found| && Names(found)[k] == n;
      assert found[k] in found;
    }
  }

  /** Every disease named by a record of a fold over fetched relations is
      one of the found diseases. */
  lemma AffectedIsFound(catalog: seq<Disease>, names: seq<string>, table: seq<DiseaseRelation>,
                        kind: RelationKind, i: nat, n: string)
    requires StoreIntegrity(catalog, table)
    requires var out := Aggregate(FetchRelations(table, Ids(FindDiseases(catalog, names)), kind));
             i < |out| && n in out[i].affectedDiseases
    ensures n in Names(FindDiseases(catalog, names))
  {
    var rs := FetchRelations(table, Ids(FindDiseases(catalog, names)), kind);
    AffectedFromRelations(rs, i, n);
    var x :| x in rs && x.disease.name == n;
    FetchedDiseaseIsFound(catalog, names, table, kind, x);
  }

  /** A fetched relation's disease is one of the found diseases. */
  lemma FetchedDiseaseIsFound(catalog: seq<Disease>, names: seq<string>, table: seq<DiseaseRelation>,
                              kind: RelationKind, x: DiseaseRelation)
    requires StoreIntegrity(catalog, table)
    requires x in FetchRelations(table, Ids(FindDiseases(catalog, names)), kind)
    ensures x.disease.name in Names(FindDiseases(catalog, names))
  {
    var found := FindDiseases(catalog, names);
    var ids := Ids(found);
    var k :| 0 <= k < |ids| && ids[k] == x.disease.id;
    assert found[k] in found;
    var a :| 0 <= a < |catalog| && catalog[a] == found[k];
    var b :| 0 <= b < |catalog| && catalog[b] == x.disease;
    assert a == b;
    assert Names(found)[k] == x.disease.name;
  }
}
