/** The merge-by-ingredient fold of the disease guide: the relations of one
    kind (AVOID, or BENEFICIAL) between the requested diseases and their
    ingredients are folded into one record per ingredient name, kept in an
    insertion-ordered map. The same fold runs once per kind.

    `Aggregate` says declaratively what the fold yields: one record per
    distinct ingredient, in first-seen order, built from the group of
    relations naming that ingredient. `Merge` is the loop that builds it the
    way the controller does, and is proved equal to `Aggregate`. */
module MergeByTarget {
  import opened Common

  datatype Disease = Disease(id: int, name: string)

  datatype RelationKind = Avoid | Beneficial

  /** A disease-ingredient relation as fetched with its disease, its
      ingredient and its sources. */
  datatype DiseaseRelation = DiseaseRelation(
    disease: Disease,
    ingredient: Ingredient,
    kind: RelationKind,
    reason: string,
    severity: int,
    sources: seq<Source>)

  /** One entry of the `avoid` or `beneficial` list of a disease guide. */
  datatype GuideRecord = GuideRecord(
    food: string,
    reason: string,
    severity: int,
    affectedDiseases: seq<string>,
    sources: seq<SourceView>)

  /** The map key of a relation: its ingredient's name. */
  function Key(r: DiseaseRelation): string
  {
    r.ingredient.name
  }

  // ---------------------------------------------------------------------------
  // Specification of the fold

  /** Some relation of `rs` names ingredient `k`. */
  predicate Mentions(rs: seq<DiseaseRelation>, k: string)
  {
    rs != [] && (Mentions(rs[..|rs| - 1], k) || Key(rs[|rs| - 1]) == k)
  }

  /** The relations of `rs` whose ingredient is `k`, in input order. */
  function EdgesFor(rs: seq<DiseaseRelation>, k: string): (g: seq<DiseaseRelation>)
    ensures |g| <= |rs|
    ensures g != [] <==> Mentions(rs, k)
  {
    if rs == [] then []
    else EdgesFor(rs[..|rs| - 1], k) + (if Key(rs[|rs| - 1]) == k then [rs[|rs| - 1]] else [])
  }

  /** Appending one relation to the input. */
  lemma Snoc(rs: seq<DiseaseRelation>, e: DiseaseRelation, k: string)
    ensures EdgesFor(rs + [e], k) == EdgesFor(rs, k) + (if Key(e) == k then [e] else [])
    ensures Mentions(rs + [e], k) == (Mentions(rs, k) || Key(e) == k)
  {
    assert (rs + [e])[..|rs|] == rs;
  }

  /** Appending a relation that names another ingredient changes nothing for `k`. */
  lemma SnocOther(rs: seq<DiseaseRelation>, e: DiseaseRelation, k: string)
    requires Key(e) != k
    ensures EdgesFor(rs + [e], k) == EdgesFor(rs, k)
    ensures Mentions(rs + [e], k) == Mentions(rs, k)
  {
    Snoc(rs, e, k);
    assert EdgesFor(rs, k) + [] == EdgesFor(rs, k);
  }

  /** The group of `k` holds exactly the relations of `rs` naming `k`. */
  lemma {:induction false} EdgesForMembers(rs: seq<DiseaseRelation>, k: string)
    ensures forall x :: x in EdgesFor(rs, k) <==> x in rs && Key(x) == k
  {
    if rs != [] {
      var init, last := rs[..|rs| - 1], rs[|rs| - 1];
      assert rs == init + [last];
      EdgesForMembers(init, k);
      Snoc(init, last, k);
    }
  }

  /** The distinct ingredient names of `rs`, in order of first appearance:
      the iteration order of the controller's `Map`. */
  function FirstSeen(rs: seq<DiseaseRelation>): (ks: seq<string>)
    ensures |ks| <= |rs|
    ensures forall k :: k in ks <==> Mentions(rs, k)
    ensures forall i, j :: 0 <= i < j < |ks| ==> ks[i] != ks[j]
  {
    if rs == [] then []
    else
      var init, last := rs[..|rs| - 1], rs[|rs| - 1];
      var ks := FirstSeen(init);
      assert forall k :: Mentions(rs, k) == (Mentions(init, k) || Key(last) == k);
      if Key(last) in ks then ks else ks + [Key(last)]
  }

  /** The position of the first relation naming ingredient `k`. */
  function FirstIndex(rs: seq<DiseaseRelation>, k: string): (p: nat)
    requires Mentions(rs, k)
    ensures p < |rs| && Key(rs[p]) == k
    ensures forall q :: 0 <= q < p ==> Key(rs[q]) != k
    ensures EdgesFor(rs, k)[0] == rs[p]
  {
    var init, last := rs[..|rs| - 1], rs[|rs| - 1];
    Snoc(init, last, k);
    assert rs == init + [last];
    if Mentions(init, k) then
      FirstIndex(init, k)
    else
      NotMentioned(init, k);
      |rs| - 1
  }

  /** No relation of an input that does not mention `k` names `k`. */
  lemma {:induction false} NotMentioned(rs: seq<DiseaseRelation>, k: string)
    requires !Mentions(rs, k)
    ensures forall q :: 0 <= q < |rs| ==> Key(rs[q]) != k
  {
    if rs != [] {
      var init := rs[..|rs| - 1];
      NotMentioned(init, k);
      assert forall q :: 0 <= q < |init| ==> rs[q] == init[q];
    }
  }

  /** The largest severity of a non-empty group (`Math.max` folded over it). */
  function MaxSeverity(g: seq<DiseaseRelation>): (m: int)
    requires g != []
    ensures forall i :: 0 <= i < |g| ==> g[i].severity <= m
    ensures exists i :: 0 <= i < |g| && g[i].severity == m
  {
    if |g| == 1 then g[0].severity
    else
      var init, last := g[..|g| - 1], g[|g| - 1];
      assert forall i :: 0 <= i < |init| ==> g[i] == init[i];
      Max(MaxSeverity(init), last.severity)
  }

  /** One reason step of the fold: append `"; " + reason` unless `reason`
      already occurs in the accumulated text. */
  function AppendReason(acc: string, reason: string): (r: string)
    ensures acc <= r
    ensures Contains(r, reason)
    ensures Contains(acc, reason) ==> r == acc
    ensures !Contains(acc, reason) ==> r == acc + "; " + reason
  {
    ContainsSuffix(acc + "; ", reason);
    if Contains(acc, reason) then acc else acc + "; " + reason
  }

  /** The reason text the fold accumulates over a non-empty group. */
  function MergedReason(g: seq<DiseaseRelation>): (r: string)
    requires g != []
    ensures g[0].reason <= r
  {
    if |g| == 1 then g[0].reason
    else AppendReason(MergedReason(g[..|g| - 1]), g[|g| - 1].reason)
  }

  /** The merged reason contains the reason of every relation of the group. */
  lemma {:induction false} MergedReasonContainsAll(g: seq<DiseaseRelation>)
    requires g != []
    ensures forall i :: 0 <= i < |g| ==> Contains(MergedReason(g), g[i].reason)
  {
    if |g| == 1 {
      ContainsSuffix("", g[0].reason);
      assert "" + g[0].reason == g[0].reason;
    } else {
      var init, last := g[..|g| - 1], g[|g| - 1];
      MergedReasonContainsAll(init);
      var acc := MergedReason(init);
      var r := AppendReason(acc, last.reason);
      assert MergedReason(g) == r;
      forall i | 0 <= i < |g| ensures Contains(r, g[i].reason) {
        if i < |init| {
          assert g[i] == init[i];
          ContainsExtends(acc, r, init[i].reason);
        } else {
          assert g[i] == last;
        }
      }
    }
  }

  /** The disease name of every relation of a group, in order. */
  function DiseaseNames(g: seq<DiseaseRelation>): (names: seq<string>)
    ensures |names| == |g|
    ensures forall i :: 0 <= i < |g| ==> names[i] == g[i].disease.name
  {
    seq(|g|, i requires 0 <= i < |g| => g[i].disease.name)
  }

  /** The record the fold builds for ingredient `k` from its group `g`. */
  function RecordFor(k: string, g: seq<DiseaseRelation>): (r: GuideRecord)
    requires g != []
    ensures r.food == k
    ensures g[0].reason <= r.reason
    ensures |r.affectedDiseases| == |g|
    ensures r.sources == FormatSources(g[0].sources)
  {
    GuideRecord(k, MergedReason(g), MaxSeverity(g), DiseaseNames(g), FormatSources(g[0].sources))
  }

  /** What the fold yields, as `Array.from(map.values())` returns it. */
  function Aggregate(rs: seq<DiseaseRelation>): (out: seq<GuideRecord>)
    ensures |out| == |FirstSeen(rs)| <= |rs|
    ensures forall i :: 0 <= i < |out| ==> out[i].food == FirstSeen(rs)[i]
    ensures forall i, j :: 0 <= i < j < |out| ==> out[i].food != out[j].food
  {
    var ks := FirstSeen(rs);
    seq(|ks|, i requires 0 <= i < |ks| => RecordFor(ks[i], EdgesFor(rs, ks[i])))
  }

  /** The record of the `i`-th ingredient, by its group. */
  lemma AggregateAt(rs: seq<DiseaseRelation>, i: nat)
    requires i < |Aggregate(rs)|
    ensures Mentions(rs, Aggregate(rs)[i].food)
    ensures Aggregate(rs)[i] == RecordFor(Aggregate(rs)[i].food, EdgesFor(rs, Aggregate(rs)[i].food))
  {
  }

  // ---------------------------------------------------------------------------
  // How the specification changes when one relation is appended

  /** The record a relation opens for an ingredient not seen before. */
  function Opened(e: DiseaseRelation): GuideRecord
  {
    GuideRecord(e.ingredient.name, e.reason, e.severity, [e.disease.name], FormatSources(e.sources))
  }

  /** A record opened from one relation is the record of a group of one. */
  lemma OpenedIsSingleGroup(e: DiseaseRelation)
    ensures Opened(e) == RecordFor(Key(e), [e])
  {
    assert DiseaseNames([e]) == [e.disease.name];
  }

  /** The record `r` extended by a further relation `e` with the same ingredient. */
  function Extended(r: GuideRecord, e: DiseaseRelation): (r': GuideRecord)
    ensures r'.food == r.food && r'.sources == r.sources
    ensures r'.affectedDiseases == r.affectedDiseases + [e.disease.name]
    ensures r'.severity >= r.severity && r'.severity >= e.severity
    ensures r'.severity == r.severity || r'.severity == e.severity
    ensures r.reason <= r'.reason && Contains(r'.reason, e.reason)
    ensures Contains(r.reason, e.reason) ==> r'.reason == r.reason
    ensures !Contains(r.reason, e.reason) ==> r'.reason == r.reason + "; " + e.reason
  {
    r.(affectedDiseases := r.affectedDiseases + [e.disease.name],
       severity := Max(r.severity, e.severity),
       reason := AppendReason(r.reason, e.reason))
  }

  /** A relation naming an ingredient not seen before opens a new record,
      initialised from that relation alone, at the end of the order. */
  lemma OpenStep(rs: seq<DiseaseRelation>, e: DiseaseRelation)
    requires !Mentions(rs, Key(e))
    ensures FirstSeen(rs + [e]) == FirstSeen(rs) + [Key(e)]
    ensures Mentions(rs + [e], Key(e))
    ensures RecordFor(Key(e), EdgesFor(rs + [e], Key(e))) == Opened(e)
  {
    Snoc(rs, e, Key(e));
    assert (rs + [e])[..|rs|] == rs;
    assert EdgesFor(rs + [e], Key(e)) == [e];
    assert DiseaseNames([e]) == [e.disease.name];
  }

  /** A relation naming an ingredient already seen extends that ingredient's
      record: one more disease, the larger severity, the reason step. */
  lemma ExtendStep(rs: seq<DiseaseRelation>, e: DiseaseRelation)
    requires Mentions(rs, Key(e))
    ensures FirstSeen(rs + [e]) == FirstSeen(rs)
    ensures Mentions(rs + [e], Key(e))
    ensures RecordFor(Key(e), EdgesFor(rs + [e], Key(e))) == Extended(RecordFor(Key(e), EdgesFor(rs, Key(e))), e)
  {
    Snoc(rs, e, Key(e));
    assert (rs + [e])[..|rs|] == rs;
    var g := EdgesFor(rs, Key(e));
    var g' := g + [e];
    assert g'[..|g'| - 1] == g;
    assert DiseaseNames(g') == DiseaseNames(g) + [e.disease.name];
    assert MaxSeverity(g') == Max(MaxSeverity(g), e.severity);
    assert MergedReason(g') == AppendReason(MergedReason(g), e.reason);
  }

  /** The records before a newly opened one are unchanged. */
  lemma AggregateOpensAt(rs: seq<DiseaseRelation>, e: DiseaseRelation, t: nat)
    requires !Mentions(rs, Key(e))
    requires t < |Aggregate(rs)|
    ensures t < |Aggregate(rs + [e])| && Aggregate(rs + [e])[t] == Aggregate(rs)[t]
  {
    OpenStep(rs, e);
    var ks := FirstSeen(rs);
    assert ks[t] in ks;
    SnocOther(rs, e, ks[t]);
  }

  /** The fold's output after one more relation naming a new ingredient:
      one more record, opened from that relation, at the end. */
  lemma AggregateOpens(rs: seq<DiseaseRelation>, e: DiseaseRelation)
    requires !Mentions(rs, Key(e))
    ensures Aggregate(rs + [e]) == Aggregate(rs) + [Opened(e)]
  {
    OpenStep(rs, e);
    var n := |FirstSeen(rs)|;
    var a, b := Aggregate(rs + [e]), Aggregate(rs) + [Opened(e)];
    assert |a| == n + 1 == |b|;
    forall t | 0 <= t < n ensures a[t] == b[t] {
      AggregateOpensAt(rs, e, t);
    }
    assert a[n] == b[n];
  }

  /** The fold's output after one more relation naming an ingredient already
      seen: the same records in the same order, that ingredient's extended. */
  lemma AggregateExtends(rs: seq<DiseaseRelation>, e: DiseaseRelation)
    requires Mentions(rs, Key(e))
    ensures |Aggregate(rs + [e])| == |Aggregate(rs)|
    ensures forall t :: 0 <= t < |Aggregate(rs)| ==>
              Aggregate(rs + [e])[t] ==
                if Aggregate(rs)[t].food == Key(e) then Extended(Aggregate(rs)[t], e) else Aggregate(rs)[t]
  {
    ExtendStep(rs, e);
    var ks := FirstSeen(rs);
    forall t | 0 <= t < |ks|
      ensures Aggregate(rs + [e])[t] ==
                if Aggregate(rs)[t].food == Key(e) then Extended(Aggregate(rs)[t], e) else Aggregate(rs)[t]
    {
      assert ks[t] in ks;
      if ks[t] != Key(e) {
        SnocOther(rs, e, ks[t]);
      }
    }
  }

  // ---------------------------------------------------------------------------
  // The fold as the controller runs it

  /** `keys` (in insertion order) and `records` (from key to record) are the
      controller's `Map` after the fold has consumed `prefix`. */
  ghost predicate Folded(keys: seq<string>, records: map<string, GuideRecord>, prefix: seq<DiseaseRelation>)
  {
    && keys == FirstSeen(prefix)
    && (forall k :: k in records <==> k in keys)
    && (forall k :: k in records ==> Mentions(prefix, k) && records[k] == RecordFor(k, EdgesFor(prefix, k)))
  }

  /** Storing the right record under `e`'s ingredient keeps `Folded`. */
  lemma FoldedStep(keys: seq<string>, records: map<string, GuideRecord>, prefix: seq<DiseaseRelation>,
                   e: DiseaseRelation, keys': seq<string>, v: GuideRecord)
    requires Folded(keys, records, prefix)
    requires keys' == FirstSeen(prefix + [e]) && (forall k :: k in keys' <==> k in keys || k == Key(e))
    requires Mentions(prefix + [e], Key(e)) && v == RecordFor(Key(e), EdgesFor(prefix + [e], Key(e)))
    ensures Folded(keys', records[Key(e) := v], prefix + [e])
  {
    var records' := records[Key(e) := v];
    forall k | k in records'
      ensures Mentions(prefix + [e], k) && records'[k] == RecordFor(k, EdgesFor(prefix + [e], k))
    {
      if k != Key(e) {
        assert k in records && records'[k] == records[k];
        FoldedOther(prefix, e, k, records[k]);
      }
    }
    assert forall k :: k in records' <==> k in keys';
  }

  /** The record stored under an ingredient other than `e`'s stays right. */
  lemma FoldedOther(prefix: seq<DiseaseRelation>, e: DiseaseRelation, k: string, r: GuideRecord)
    requires k != Key(e)
    requires Mentions(prefix, k) && r == RecordFor(k, EdgesFor(prefix, k))
    ensures Mentions(prefix + [e], k) && r == RecordFor(k, EdgesFor(prefix + [e], k))
  {
    SnocOther(prefix, e, k);
  }

  /** The body of the `forEach` callback: open a record for a new ingredient,
      or extend the existing one. */
  method Absorb(keys: seq<string>, records: map<string, GuideRecord>, ghost prefix: seq<DiseaseRelation>,
                relation: DiseaseRelation)
    returns (keys': seq<string>, records': map<string, GuideRecord>)
    requires Folded(keys, records, prefix)
    ensures Folded(keys', records', prefix + [relation])
  {
    var key := relation.ingredient.name;
    if key !in records {
      OpenStep(prefix, relation);
      records' := records[key := GuideRecord(
        relation.ingredient.name,
        relation.reason,
        relation.severity,
        [relation.disease.name],
        FormatSources(relation.sources))];
      keys' := keys + [key];
    } else {
      ExtendStep(prefix, relation);
      var existing := records[key];
      var reason := existing.reason;
      if !Contains(reason, relation.reason) {
        reason := reason + "; " + relation.reason;
      }
      records' := records[key := existing.(
        affectedDiseases := existing.affectedDiseases + [relation.disease.name],
        severity := Max(existing.severity, relation.severity),
        reason := reason)];
      keys' := keys;
    }
    FoldedStep(keys, records, prefix, relation, keys', records'[key]);
    assert records' == records[key := records'[key]];
  }

  /** `Array.from(map.values())`: the stored records in key order. */
  method Values(keys: seq<string>, records: map<string, GuideRecord>) returns (out: seq<GuideRecord>)
    requires forall k :: k in keys ==> k in records
    ensures |out| == |keys|
    ensures forall t :: 0 <= t < |keys| ==> out[t] == records[keys[t]]
  {
    out := [];
    for j := 0 to |keys|
      invariant |out| == j
      invariant forall t :: 0 <= t < j ==> out[t] == records[keys[t]]
    {
      out := out + [records[keys[j]]];
    }
  }

  /** `relations.forEach(...)` into an insertion-ordered map, then its values. */
  method Merge(rs: seq<DiseaseRelation>) returns (out: seq<GuideRecord>)
    ensures out == Aggregate(rs)
  {
    var keys: seq<string> := [];
    var records: map<string, GuideRecord> := map[];
    var i := 0;
    while i < |rs|
      invariant 0 <= i <= |rs|
      invariant Folded(keys, records, rs[..i])
    {
      assert rs[..i + 1] == rs[..i] + [rs[i]];
      keys, records := Absorb(keys, records, rs[..i], rs[i]);
      i := i + 1;
    }
    assert rs[..i] == rs;
    out := Values(keys, records);
  }

  // ---------------------------------------------------------------------------
  // Properties of the fold

  /** Every relation's ingredient has a record, and every record comes from
      some relation. */
  lemma AggregateCoversIngredients(rs: seq<DiseaseRelation>)
    ensures forall x :: x in rs ==> exists i :: 0 <= i < |Aggregate(rs)| && Aggregate(rs)[i].food == Key(x)
    ensures forall i :: 0 <= i < |Aggregate(rs)| ==> exists x :: x in rs && Key(x) == Aggregate(rs)[i].food
  {
    var out, ks := Aggregate(rs), FirstSeen(rs);
    forall x | x in rs ensures exists i :: 0 <= i < |out| && out[i].food == Key(x) {
      EdgesForMembers(rs, Key(x));
      var i :| 0 <= i < |ks| && ks[i] == Key(x);
      assert out[i].food == Key(x);
    }
    forall i | 0 <= i < |out| ensures exists x :: x in rs && Key(x) == out[i].food {
      var p := FirstIndex(rs, ks[i]);
      assert rs[p] in rs;
    }
  }

  /** A record's severity is the largest severity among the relations naming
      its ingredient. */
  lemma SeverityIsMaximum(rs: seq<DiseaseRelation>, i: nat)
    requires i < |Aggregate(rs)|
    ensures var r := Aggregate(rs)[i];
            forall x :: x in rs && Key(x) == r.food ==> x.severity <= r.severity
    ensures var r := Aggregate(rs)[i];
            exists x :: x in rs && Key(x) == r.food && x.severity == r.severity
  {
    var r := Aggregate(rs)[i];
    var g := EdgesFor(rs, r.food);
    AggregateAt(rs, i);
    EdgesForMembers(rs, r.food);
    forall x | x in rs && Key(x) == r.food ensures x.severity <= r.severity {
      var j :| 0 <= j < |g| && g[j] == x;
    }
    var j :| 0 <= j < |g| && g[j].severity == MaxSeverity(g);
    assert g[j] in g;
  }

  /** A record's reason contains the reason of every relation naming its
      ingredient, and starts with the reason of the first one. */
  lemma ReasonCoversAll(rs: seq<DiseaseRelation>, i: nat)
    requires i < |Aggregate(rs)|
    ensures var r := Aggregate(rs)[i];
            forall x :: x in rs && Key(x) == r.food ==> Contains(r.reason, x.reason)
    ensures var r := Aggregate(rs)[i];
            rs[FirstIndex(rs, r.food)].reason <= r.reason
  {
    var r := Aggregate(rs)[i];
    var g := EdgesFor(rs, r.food);
    AggregateAt(rs, i);
    EdgesForMembers(rs, r.food);
    MergedReasonContainsAll(g);
    forall x | x in rs && Key(x) == r.food ensures Contains(r.reason, x.reason) {
      var j :| 0 <= j < |g| && g[j] == x;
    }
  }

  /** A record's sources are those of the first relation naming its
      ingredient, formatted; later relations contribute none. Its disease
      list has one entry per relation naming the ingredient, in input order,
      starting with that first relation's disease. */
  lemma FirstRelationFixesSources(rs: seq<DiseaseRelation>, i: nat)
    requires i < |Aggregate(rs)|
    ensures var r := Aggregate(rs)[i];
            r.sources == FormatSources(rs[FirstIndex(rs, r.food)].sources)
    ensures var r := Aggregate(rs)[i];
            r.affectedDiseases == DiseaseNames(EdgesFor(rs, r.food)) &&
            r.affectedDiseases[0] == rs[FirstIndex(rs, r.food)].disease.name
  {
    AggregateAt(rs, i);
  }

  /** Every entry of a record's `affectedDiseases` list is the disease of a
      relation naming the record's ingredient. */
  lemma AffectedFromRelations(rs: seq<DiseaseRelation>, i: nat, n: string)
    requires i < |Aggregate(rs)| && n in Aggregate(rs)[i].affectedDiseases
    ensures exists x :: x in rs && Key(x) == Aggregate(rs)[i].food && x.disease.name == n
  {
    var food := Aggregate(rs)[i].food;
    var g := EdgesFor(rs, food);
    AggregateAt(rs, i);
    EdgesForMembers(rs, food);
    var j :| 0 <= j < |g| && g[j].disease.name == n;
    assert g[j] in g;
  }

  /** Records appear in the order in which their ingredients first appear in
      the input; nothing is re-sorted after merging. */
  lemma {:induction false} FirstSeenOrder(rs: seq<DiseaseRelation>, i: nat, j: nat)
    requires i < j < |FirstSeen(rs)|
    ensures FirstIndex(rs, FirstSeen(rs)[i]) < FirstIndex(rs, FirstSeen(rs)[j])
  {
    var init, last := rs[..|rs| - 1], rs[|rs| - 1];
    assert rs == init + [last];
    var ks0, ks := FirstSeen(init), FirstSeen(rs);
    Snoc(init, last, ks[i]);
    Snoc(init, last, ks[j]);
    if Mentions(init, Key(last)) {
      ExtendStep(init, last);
      FirstSeenOrder(init, i, j);
    } else {
      OpenStep(init, last);
      if j < |ks0| {
        assert ks[i] == ks0[i] && ks[j] == ks0[j];
        FirstSeenOrder(init, i, j);
      } else {
        assert ks[i] in ks0;
      }
    }
  }

  /** Sum of the group sizes of the first `n` keys of `ks`. */
  function GroupSizes(ks: seq<string>, rs: seq<DiseaseRelation>, n: nat): nat
    requires n <= |ks|
  {
    if n == 0 then 0 else GroupSizes(ks, rs, n - 1) + |EdgesFor(rs, ks[n - 1])|
  }

  /** Total length of the `affectedDiseases` lists of the first `n` records. */
  function TotalAffected(out: seq<GuideRecord>, n: nat): nat
    requires n <= |out|
  {
    if n == 0 then 0 else TotalAffected(out, n - 1) + |out[n - 1].affectedDiseases|
  }

  lemma {:induction false} GroupSizesSnoc(ks: seq<string>, rs: seq<DiseaseRelation>, e: DiseaseRelation, n: nat)
    requires n <= |ks|
    requires forall i, j :: 0 <= i < j < |ks| ==> ks[i] != ks[j]
    ensures GroupSizes(ks, rs + [e], n) == GroupSizes(ks, rs, n) + (if Key(e) in ks[..n] then 1 else 0)
  {
    if n > 0 {
      GroupSizesSnoc(ks, rs, e, n - 1);
      Snoc(rs, e, ks[n - 1]);
      assert ks[..n] == ks[..n - 1] + [ks[n - 1]];
      assert ks[n - 1] !in ks[..n - 1];
    }
  }

  lemma {:induction false} GroupSizesAppend(ks: seq<string>, k: string, rs: seq<DiseaseRelation>, n: nat)
    requires n <= |ks|
    ensures GroupSizes(ks + [k], rs, n) == GroupSizes(ks, rs, n)
  {
    if n > 0 {
      GroupSizesAppend(ks, k, rs, n - 1);
    }
  }

  lemma {:induction false} GroupSizesOfFirstSeen(rs: seq<DiseaseRelation>)
    ensures GroupSizes(FirstSeen(rs), rs, |FirstSeen(rs)|) == |rs|
  {
    if rs != [] {
      var init, last := rs[..|rs| - 1], rs[|rs| - 1];
      assert rs == init + [last];
      var ks := FirstSeen(init);
      GroupSizesOfFirstSeen(init);
      GroupSizesSnoc(ks, init, last, |ks|);
      assert ks[..|ks|] == ks;
      if Mentions(init, Key(last)) {
        ExtendStep(init, last);
      } else {
        OpenStep(init, last);
        GroupSizesAppend(ks, Key(last), rs, |ks|);
        Snoc(init, last, Key(last));
      }
    }
  }

  lemma AffectedLength(rs: seq<DiseaseRelation>, i: nat)
    requires i < |Aggregate(rs)|
    ensures |Aggregate(rs)[i].affectedDiseases| == |EdgesFor(rs, FirstSeen(rs)[i])|
  {
    AggregateAt(rs, i);
  }

  /** Records whose lists are as long as their keys' groups have list
      lengths that add up to the group sizes. */
  lemma {:induction false} AffectedSumsAgree(out: seq<GuideRecord>, ks: seq<string>,
                                             rs: seq<DiseaseRelation>, n: nat)
    requires n <= |out| == |ks|
    requires forall i {:trigger out[i]} :: 0 <= i < |out| ==> |out[i].affectedDiseases| == |EdgesFor(rs, ks[i])|
    ensures TotalAffected(out, n) == GroupSizes(ks, rs, n)
  {
    if n > 0 {
      AffectedSumsAgree(out, ks, rs, n - 1);
      assert |out[n - 1].affectedDiseases| == |EdgesFor(rs, ks[n - 1])|;
    }
  }

  lemma TotalAffectedIsGroupSizes(rs: seq<DiseaseRelation>, n: nat)
    requires n <= |Aggregate(rs)|
    ensures TotalAffected(Aggregate(rs), n) == GroupSizes(FirstSeen(rs), rs, n)
  {
    var out := Aggregate(rs);
    forall i | 0 <= i < |out|
      ensures |out[i].affectedDiseases| == |EdgesFor(rs, FirstSeen(rs)[i])|
    {
      AffectedLength(rs, i);
    }
    AffectedSumsAgree(out, FirstSeen(rs), rs, n);
  }

  /** Every relation contributes exactly one entry to exactly one
      `affectedDiseases` list: the lists' lengths add up to the number of
      relations. */
  lemma AffectedDiseasesConserved(rs: seq<DiseaseRelation>)
    ensures TotalAffected(Aggregate(rs), |Aggregate(rs)|) == |rs|
  {
    TotalAffectedIsGroupSizes(rs, |Aggregate(rs)|);
    GroupSizesOfFirstSeen(rs);
  }
}
