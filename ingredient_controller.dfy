/** The two ingredient endpoints.

    `GET /api/ingredients/:name/compatibility` looks the ingredient up by its
    lower-cased name, fetches the interactions (pairings to avoid) and the
    beneficial pairings that involve it, and turns every pairing into one
    record about the ingredient on the other side.

    `GET /api/ingredients/search?q=` lists at most ten ingredients whose name
    contains the lower-cased query, in ascending name order.

    The store is passed in as sequences: `catalog` is the ingredient table,
    `interactions` and `benefits` the two pairing tables with both sides and
    their sources attached, listed in the order of the queries' `orderBy`. */
module IngredientController {
  import opened Common

  /** A symmetric pairing of two ingredients: a row of the interaction table
      or of the benefit table. */
  datatype Pairing = Pairing(
    ingredientA: Ingredient,
    ingredientB: Ingredient,
    reason: string,
    severity: int,
    sources: seq<Source>)

  /** One entry of the `avoid` or `beneficial` list of a compatibility reply. */
  datatype CompatRecord = CompatRecord(food: string, reason: string, severity: int, sources: seq<SourceView>)

  /** The JSON body of a successful compatibility request. A `None` list is a
      key the response object does not carry. */
  datatype Compat = Compat(
    ingredient: string,
    category: string,
    avoid: Option<seq<CompatRecord>>,
    beneficial: Option<seq<CompatRecord>>)

  // ---------------------------------------------------------------------------
  // Compatibility

  /** The side of pairing `p` that is not ingredient `self`: side B when side
      A is `self`, and side A otherwise, even when neither side is `self`. */
  function OtherSide(p: Pairing, self: int): (other: Ingredient)
    ensures other == p.ingredientA || other == p.ingredientB
    ensures p.ingredientA.id != p.ingredientB.id && (p.ingredientA.id == self || p.ingredientB.id == self) ==>
              other.id != self
    ensures p.ingredientA.id != self && p.ingredientB.id != self ==> other == p.ingredientA
    ensures p.ingredientA.id == self ==> other == p.ingredientB
  {
    if p.ingredientA.id == self then p.ingredientB else p.ingredientA
  }

  /** The record one pairing contributes. */
  function FormatPairing(p: Pairing, self: int): (r: CompatRecord)
    ensures r.food == p.ingredientA.name || r.food == p.ingredientB.name
    ensures p.ingredientA.id != self && p.ingredientB.id == self ==> r.food == p.ingredientA.name
    ensures p.ingredientA.id == self ==> r.food == p.ingredientB.name
    ensures r.reason == p.reason && r.severity == p.severity
    ensures p.ingredientA.id != self && p.ingredientB.id != self ==> r.food == p.ingredientA.name
    ensures r.sources == FormatSources(p.sources)
  {
    CompatRecord(OtherSide(p, self).name, p.reason, p.severity, FormatSources(p.sources))
  }

  /** `pairings.map(...)`: one record per pairing, in order, naming the other
      side and copying reason and severity. */
  function FormatPairings(ps: seq<Pairing>, self: int): (out: seq<CompatRecord>)
    ensures |out| == |ps|
    ensures forall i :: 0 <= i < |ps| ==>
              && out[i].food == OtherSide(ps[i], self).name
              && out[i].reason == ps[i].reason
              && out[i].severity == ps[i].severity
              && out[i].sources == FormatSources(ps[i].sources)
  {
    if ps == [] then [] else [FormatPairing(ps[0], self)] + FormatPairings(ps[1..], self)
  }

  /** Formatting works pairing by pairing: nothing is merged or dropped
      across pairings, so formatting a concatenation concatenates. */
  lemma {:induction false} FormatPairingsAppend(ps: seq<Pairing>, qs: seq<Pairing>, self: int)
    ensures FormatPairings(ps + qs, self) == FormatPairings(ps, self) + FormatPairings(qs, self)
  {
    if ps != [] {
      assert (ps + qs)[1..] == ps[1..] + qs;
      FormatPairingsAppend(ps[1..], qs, self);
    }
  }

  /** The pairings involving ingredient `id` on either side, in order. */
  function Involving(ps: seq<Pairing>, id: int): (rs: seq<Pairing>)
    ensures |rs| <= |ps|
    ensures forall p :: p in rs <==> p in ps && (p.ingredientA.id == id || p.ingredientB.id == id)
  {
    if ps == [] then []
    else
      var last := ps[|ps| - 1];
      Involving(ps[..|ps| - 1], id) + (if last.ingredientA.id == id || last.ingredientB.id == id then [last] else [])
  }

  /** `prisma.ingredient.findUnique({where: {name}})`. */
  function FindIngredient(catalog: seq<Ingredient>, name: string): (found: Option<Ingredient>)
    ensures found.Some? <==> exists g :: g in catalog && g.name == name
    ensures found.Some? ==> found.value in catalog && found.value.name == name
  {
    if catalog == [] then None
    else if catalog[0].name == name then Some(catalog[0])
    else FindIngredient(catalog[1..], name)
  }

  /** What the compatibility endpoint answers for path parameter `name` and
      query parameter `filter`. */
  function CompatReply(name: string, filter: Param, catalog: seq<Ingredient>,
                       interactions: seq<Pairing>, benefits: seq<Pairing>): (reply: Reply<Compat>)
    ensures reply.BadRequest? <==> name == ""
    ensures reply.NotFound? <==> name != "" && forall g :: g in catalog ==> g.name != Lower(name)
    ensures reply.NotFound? ==> reply.requested == [name]
    ensures reply.Success? ==>
              && reply.body.ingredient == Lower(name)
              && (exists g :: g in catalog && g.name == Lower(name) && g.category == reply.body.category)
              && (reply.body.avoid.Some? <==> Presence(filter).avoid)
              && (reply.body.beneficial.Some? <==> Presence(filter).beneficial)
    ensures reply.Success? && reply.body.avoid.Some? ==>
              var id := FindIngredient(catalog, Lower(name)).value.id;
              reply.body.avoid.value == FormatPairings(Involving(interactions, id), id)
    ensures reply.Success? && reply.body.beneficial.Some? ==>
              var id := FindIngredient(catalog, Lower(name)).value.id;
              reply.body.beneficial.value == FormatPairings(Involving(benefits, id), id)
  {
    if name == "" then BadRequest
    else
      var found := FindIngredient(catalog, Lower(name));
      if found.None? then NotFound([name])
      else
        var ingredient := found.value;
        var shown := Presence(filter);
        Success(Compat(
          ingredient.name,
          ingredient.category,
          if shown.avoid then Some(FormatPairings(Involving(interactions, ingredient.id), ingredient.id)) else None,
          if shown.beneficial then Some(FormatPairings(Involving(benefits, ingredient.id), ingredient.id)) else None))
  }

  /** The ingredient table's keys: ids and names are unique. */
  predicate Keyed(catalog: seq<Ingredient>)
  {
    forall i, j :: 0 <= i < j < |catalog| ==> catalog[i].id != catalog[j].id && catalog[i].name != catalog[j].name
  }

  /** Both sides of every pairing are stored ingredients, and no ingredient
      is paired with itself. */
  predicate WellFormedPairings(catalog: seq<Ingredient>, ps: seq<Pairing>)
  {
    forall p :: p in ps ==>
      p.ingredientA in catalog && p.ingredientB in catalog && p.ingredientA.id != p.ingredientB.id
  }

  /** The lists of a successful reply have one record per pairing involving
      the ingredient, and in a well-formed store no record names the
      ingredient itself. */
  lemma CompatListsNameOthers(name: string, filter: Param, catalog: seq<Ingredient>,
                              interactions: seq<Pairing>, benefits: seq<Pairing>)
    requires Keyed(catalog)
    requires WellFormedPairings(catalog, interactions) && WellFormedPairings(catalog, benefits)
    requires CompatReply(name, filter, catalog, interactions, benefits).Success?
    ensures var c := CompatReply(name, filter, catalog, interactions, benefits).body;
            c.avoid.Some? ==>
              forall i :: 0 <= i < |c.avoid.value| ==> c.avoid.value[i].food != c.ingredient
    ensures var c := CompatReply(name, filter, catalog, interactions, benefits).body;
            c.beneficial.Some? ==>
              forall i :: 0 <= i < |c.beneficial.value| ==> c.beneficial.value[i].food != c.ingredient
  {
    var c := CompatReply(name, filter, catalog, interactions, benefits).body;
    var self := FindIngredient(catalog, Lower(name)).value;
    if c.avoid.Some? {
      var ps := Involving(interactions, self.id);
      assert c.avoid.value == FormatPairings(ps, self.id);
      forall i | 0 <= i < |ps| ensures FormatPairings(ps, self.id)[i].food != self.name {
        OtherIsAnother(catalog, interactions, self, ps[i]);
      }
    }
    if c.beneficial.Some? {
      var ps := Involving(benefits, self.id);
      assert c.beneficial.value == FormatPairings(ps, self.id);
      forall i | 0 <= i < |ps| ensures FormatPairings(ps, self.id)[i].food != self.name {
        OtherIsAnother(catalog, benefits, self, ps[i]);
      }
    }
  }

  /** In a well-formed store, the other side of a pairing involving `self`
      has a different name. */
  lemma OtherIsAnother(catalog: seq<Ingredient>, ps: seq<Pairing>, self: Ingredient, p: Pairing)
    requires Keyed(catalog) && WellFormedPairings(catalog, ps)
    requires self in catalog && p in ps && (p.ingredientA.id == self.id || p.ingredientB.id == self.id)
    ensures OtherSide(p, self.id).name != self.name
  {
    var other := OtherSide(p, self.id);
    var a :| 0 <= a < |catalog| && catalog[a] == self;
    var b :| 0 <= b < |catalog| && catalog[b] == other;
    assert a != b;
  }

  // ---------------------------------------------------------------------------
  // Search

  /** A search hit: the selected `name` and `category` columns. */
  datatype Listing = Listing(name: string, category: string)

  /** The JSON body of a successful search: the query as given, and the hits. */
  datatype SearchBody = SearchBody(query: string, results: seq<Listing>)

  function ListingOf(g: Ingredient): Listing
  {
    Listing(g.name, g.category)
  }

  /** Name order: lexicographic by character code. */
  predicate NameLe(a: string, b: string)
    ensures a <= b ==> NameLe(a, b)
  {
    a == [] || (b != [] && (a[0] < b[0] || (a[0] == b[0] && NameLe(a[1..], b[1..]))))
  }

  /** Two names ordered both ways are equal. */
  lemma {:induction false} NameLeAntisymmetric(a: string, b: string)
    requires NameLe(a, b) && NameLe(b, a)
    ensures a == b
  {
    if a != [] && b != [] {
      NameLeAntisymmetric(a[1..], b[1..]);
      assert a == [a[0]] + a[1..] && b == [b[0]] + b[1..];
    }
  }

  lemma {:induction false} NameLeTotal(a: string, b: string)
    ensures NameLe(a, b) || NameLe(b, a)
  {
    if a != [] && b != [] && a[0] == b[0] {
      NameLeTotal(a[1..], b[1..]);
    }
  }

  lemma {:induction false} NameLeTransitive(a: string, b: string, c: string)
    requires NameLe(a, b) && NameLe(b, c)
    ensures NameLe(a, c)
  {
    if a != [] && a[0] == b[0] && b[0] == c[0] {
      NameLeTransitive(a[1..], b[1..], c[1..]);
    }
  }

  predicate SortedByName(s: seq<Listing>)
  {
    forall i, j :: 0 <= i < j < |s| ==> NameLe(s[i].name, s[j].name)
  }

  /** Insertion into a list sorted by name. */
  function Insert(x: Listing, s: seq<Listing>): (r: seq<Listing>)
    requires SortedByName(s)
    ensures SortedByName(r)
    ensures multiset(r) == multiset(s) + multiset{x}
  {
    if s == [] then [x]
    else if NameLe(x.name, s[0].name) then
      BelowHead(x, s);
      SortedCons(x, s);
      [x] + s
    else
      NameLeTotal(x.name, s[0].name);
      assert s == [s[0]] + s[1..];
      var r' := Insert(x, s[1..]);
      BelowHead(s[0], s[1..]);
      BelowAll(s[0], x, s[1..], r');
      SortedCons(s[0], r');
      [s[0]] + r'
  }

  /** A listing no later than the head of a sorted list is no later than
      any of its elements. */
  lemma BelowHead(h: Listing, s: seq<Listing>)
    requires SortedByName(s)
    requires s != [] ==> NameLe(h.name, s[0].name)
    ensures forall y | y in s :: NameLe(h.name, y.name)
  {
    forall y | y in s ensures NameLe(h.name, y.name) {
      var j :| 0 <= j < |s| && s[j] == y;
      if j > 0 { NameLeTransitive(h.name, s[0].name, s[j].name); }
    }
  }

  /** A bound on `x` and on the elements of `t` bounds every element of a
      list holding exactly those. */
  lemma BelowAll(h: Listing, x: Listing, t: seq<Listing>, r: seq<Listing>)
    requires multiset(r) == multiset(t) + multiset{x}
    requires NameLe(h.name, x.name) && forall u | u in t :: NameLe(h.name, u.name)
    ensures forall y | y in r :: NameLe(h.name, y.name)
  {
    forall y | y in r ensures NameLe(h.name, y.name) {
      assert y in multiset(r);
      if y != x {
        assert y in multiset(t);
      }
    }
  }

  /** A listing no later than every element of a sorted list can go in front. */
  lemma SortedCons(h: Listing, s: seq<Listing>)
    requires SortedByName(s)
    requires forall y | y in s :: NameLe(h.name, y.name)
    ensures SortedByName([h] + s)
  {
    forall i, j | 0 <= i < j < |[h] + s| ensures NameLe(([h] + s)[i].name, ([h] + s)[j].name) {
      assert ([h] + s)[j] == s[j - 1];
      if i > 0 {
        assert ([h] + s)[i] == s[i - 1];
      } else {
        assert s[j - 1] in s;
      }
    }
  }

  /** `orderBy: {name: "asc"}`. */
  function SortByName(s: seq<Listing>): (r: seq<Listing>)
    ensures SortedByName(r)
    ensures multiset(r) == multiset(s)
  {
    if s == [] then []
    else
      assert s == [s[0]] + s[1..];
      Insert(s[0], SortByName(s[1..]))
  }

  /** `where: {name: {contains: needle}}`: the listings of the ingredients whose
      name contains `needle`, in store order. */
  function Matching(catalog: seq<Ingredient>, needle: string): (ms: seq<Listing>)
    ensures forall g :: g in catalog && Contains(g.name, needle) ==> ListingOf(g) in ms
    ensures forall l :: l in ms ==> Contains(l.name, needle) && exists g :: g in catalog && ListingOf(g) == l
  {
    if catalog == [] then []
    else
      var last := catalog[|catalog| - 1];
      var init := catalog[..|catalog| - 1];
      assert forall g :: g in catalog ==> g in init || g == last;
      Matching(init, needle) + (if Contains(last.name, needle) then [ListingOf(last)] else [])
  }

  /** The hits of a search for `needle`: the matches in name order, at most ten. */
  function SearchResults(needle: string, catalog: seq<Ingredient>): (rs: seq<Listing>)
    ensures |rs| <= 10
    ensures SortedByName(rs)
  {
    var sorted := SortByName(Matching(catalog, needle));
    if |sorted| <= 10 then sorted else sorted[..10]
  }

  /** The hits are matches, and they are the first ten matches in name order:
      a matching ingredient left out means ten hits were found, none of them
      after it in name order. */
  lemma SearchIsFirstTenMatches(needle: string, catalog: seq<Ingredient>)
    ensures var rs := SearchResults(needle, catalog);
            forall l :: l in rs ==> Contains(l.name, needle) && exists g :: g in catalog && ListingOf(g) == l
    ensures var rs := SearchResults(needle, catalog);
            forall g :: g in catalog && Contains(g.name, needle) && ListingOf(g) !in rs ==>
              |rs| == 10 && NameLe(rs[9].name, g.name)
  {
    var ms := Matching(catalog, needle);
    var sorted := SortByName(ms);
    var rs := SearchResults(needle, catalog);
    forall l | l in rs ensures l in ms {
      assert l in sorted;
      assert l in multiset(sorted);
    }
    forall g | g in catalog && Contains(g.name, needle) && ListingOf(g) !in rs
      ensures |rs| == 10 && NameLe(rs[9].name, g.name)
    {
      assert ListingOf(g) in multiset(ms);
      var k :| 0 <= k < |sorted| && sorted[k] == ListingOf(g);
      assert k >= 10;
    }
  }

  /** What the search endpoint answers for query parameter `q`. */
  function SearchReply(q: Param, catalog: seq<Ingredient>): (reply: Reply<SearchBody>)
    ensures !reply.NotFound?
    ensures reply.BadRequest? <==> !(q.Text? && q.text != "")
    ensures reply.Success? ==> reply.body.query == q.text && |reply.body.results| <= 10
    ensures reply.Success? ==> reply.body.results == SearchResults(Lower(q.text), catalog)
  {
    if !(q.Text? && q.text != "") then BadRequest
    else Success(SearchBody(q.text, SearchResults(Lower(q.text), catalog)))
  }
}
