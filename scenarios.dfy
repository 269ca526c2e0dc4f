/** Worked examples on rows of the sample data the repository seeds its store
    with. Database ids are chosen here; the store assigns its own. */
module Scenarios {
  import opened Common
  import opened MergeByTarget
  import opened DiseaseController
  import opened IngredientController

  const diabetes := Disease(1, "diabetes")
  const hypertension := Disease(2, "hypertension")

  const milk := Ingredient(1, "milk", "dairy")
  const citrus := Ingredient(2, "citrus", "fruit")
  const spinach := Ingredient(4, "spinach", "vegetable")
  const bacon := Ingredient(5, "bacon", "meat")

  const baconForHypertension := DiseaseRelation(
    hypertension, bacon, Avoid,
    "Very high sodium content increases blood pressure", 5,
    [Source("American Heart Association, 2023", Some("https://heart.org/sodium"))])

  const baconForDiabetes := DiseaseRelation(
    diabetes, bacon, Avoid,
    "High in saturated fats and sodium", 4,
    [Source("ADA Nutrition Guidelines, 2023", None)])

  /** Bacon is to be avoided for both diabetes and hypertension. Listed by
      severity, the hypertension relation comes first; the two merge into
      one record with the larger severity, both reasons, both diseases and
      only the first relation's source. */
  lemma BaconMerges()
    ensures Aggregate([baconForHypertension, baconForDiabetes]) ==
            [GuideRecord(
               "bacon",
               baconForHypertension.reason + "; " + baconForDiabetes.reason,
               5,
               ["hypertension", "diabetes"],
               [SourceView("American Heart Association, 2023", Some("https://heart.org/sodium"))])]
  {
    var first, second := baconForHypertension, baconForDiabetes;
    var r := TwoRelationsOneRecord(first, second);
    SodiumReasonHasNoCapitalH();
    NotContainsByFirstChar(first.reason, second.reason);
    assert first.sources[1..] == [];
    assert r.sources == [FormatSource(first.sources[0])];
    assert r.affectedDiseases == [first.disease.name, second.disease.name];
  }

  /** No capital H where the diabetes reason could start inside the
      hypertension reason. */
  lemma SodiumReasonHasNoCapitalH()
    ensures 'H' !in baconForHypertension.reason[..17]
  {
    assert baconForHypertension.reason[..17] == "Very high sodium ";
  }

  /** Two relations naming the same ingredient fold into one record: the
      first opens it, the second extends it. */
  lemma TwoRelationsOneRecord(first: DiseaseRelation, second: DiseaseRelation) returns (r: GuideRecord)
    requires Key(first) == Key(second)
    ensures Aggregate([first, second]) == [r]
    ensures r == Extended(Opened(first), second)
  {
    AggregateOpens([], first);
    assert [] + [first] == [first];
    assert Mentions([first], Key(first));
    AggregateExtends([first], second);
    assert [first] + [second] == [first, second];
    r := Extended(Opened(first), second);
  }

  /** A relation whose reason already occurs in the merged reason adds its
      disease but leaves the reason as it is. */
  lemma RepeatedReasonIsNotAppended()
    ensures var again := baconForDiabetes.(disease := hypertension);
            var out := Aggregate([baconForDiabetes, again]);
            |out| == 1 && out[0].reason == baconForDiabetes.reason &&
            out[0].affectedDiseases == ["diabetes", "hypertension"] && out[0].severity == 4
  {
    var again := baconForDiabetes.(disease := hypertension);
    var r := TwoRelationsOneRecord(baconForDiabetes, again);
    ContainsSuffix("", again.reason);
    assert "" + again.reason == again.reason;
  }

  /** Asking about an unknown disease answers 404 with the lower-cased names. */
  lemma UnknownDiseaseNotFound()
    ensures GuideReply(Some(["Gout"]), Absent, [diabetes, hypertension], [baconForDiabetes]) ==
            NotFound(["gout"])
  {
    assert LowerAll(["Gout"]) == [Lower("Gout")];
    assert Lower("Gout") == "gout";
  }

  const milkCitrus := Pairing(
    milk, citrus, "May cause digestion issues and stomach discomfort", 3,
    [Source("Nutrition Journal, 2020", Some("https://example.com/nutrition-milk-citrus"))])

  const milkSpinach := Pairing(
    milk, spinach, "Iron absorption may be reduced", 2,
    [Source("American Journal of Clinical Nutrition, 2019", Some("https://example.com/iron-absorption"))])

  const pantry := [milk, citrus, spinach]

  /** Citrus has an interaction but no beneficial pairing: with
      `filter=beneficial` the reply carries an empty `beneficial` list and no
      `avoid` key at all. */
  lemma CitrusBeneficialOnly()
    ensures CompatReply("Citrus", Text("beneficial"), pantry, [milkCitrus, milkSpinach], []) ==
            Success(Compat("citrus", "fruit", None, Some([])))
  {
    assert Lower("Citrus") == "citrus";
    assert FindIngredient(pantry, "citrus") == Some(citrus) by {
      assert pantry[1..] == [citrus, spinach];
    }
    assert Presence(Text("beneficial")) == Shown(false, true);
  }

  /** Spinach is side B of its interaction with milk, so the record names milk. */
  lemma SpinachSeesMilk()
    ensures CompatReply("spinach", Text("avoid"), pantry, [milkCitrus, milkSpinach], []) ==
            Success(Compat("spinach", "vegetable", Some([FormatPairing(milkSpinach, spinach.id)]), None))
  {
    SpinachSteps();
  }

  lemma SpinachSteps()
    ensures Lower("spinach") == "spinach"
    ensures FindIngredient(pantry, "spinach") == Some(spinach)
    ensures Involving([milkCitrus, milkSpinach], spinach.id) == [milkSpinach]
    ensures FormatPairings([milkSpinach], spinach.id) == [FormatPairing(milkSpinach, spinach.id)]
  {
    LowerKeepsLower("spinach");
    assert FindIngredient(pantry, "spinach") == Some(spinach) by {
      assert pantry[1..] == [citrus, spinach];
      assert pantry[1..][1..] == [spinach];
    }
    assert Involving([milkCitrus, milkSpinach], spinach.id) == [milkSpinach] by {
      assert [milkCitrus, milkSpinach][..1] == [milkCitrus];
      assert [milkCitrus][..0] == [];
    }
    assert FormatPairings([milkSpinach], spinach.id) == [FormatPairing(milkSpinach, spinach.id)] by {
      assert [milkSpinach][1..] == [];
    }
  }

  /** The record spinach's interaction contributes names milk and keeps the
      reason, the severity and the source with its url. */
  lemma SpinachRecord()
    ensures FormatPairing(milkSpinach, spinach.id) ==
            CompatRecord("milk", "Iron absorption may be reduced", 2,
              [SourceView("American Journal of Clinical Nutrition, 2019", Some("https://example.com/iron-absorption"))])
  {
    assert milkSpinach.sources[1..] == [];
  }

  /** An unknown filter value shows neither list. */
  lemma UnknownFilterShowsNeither()
    ensures CompatReply("milk", Text("everything"), pantry, [milkCitrus, milkSpinach], []) ==
            Success(Compat("milk", "dairy", None, None))
  {
    LowerKeepsLower("milk");
    assert FindIngredient(pantry, "milk") == Some(milk);
    assert Presence(Text("everything")) == Shown(false, false);
  }
}
