/** Entities of the nutrition database and the small pieces of JavaScript
    behaviour (falsiness, `String.prototype.includes`, `toLowerCase`,
    `url || null`) that both controllers rely on. */
module Common {

  datatype Option<T> = None | Some(value: T)

  /** What a controller answers: HTTP 400, HTTP 404 (with the names it was
      asked for) or a JSON body. The catch-all 500 answer is not modelled. */
  datatype Reply<T> = BadRequest | NotFound(requested: seq<string>) | Success(body: T)

  /** A stored ingredient; `name` is unique in the store. */
  datatype Ingredient = Ingredient(id: int, name: string, category: string)

  /** A stored citation; `title` is its `label` column (`label` is a Dafny keyword), `url` is nullable. */
  datatype Source = Source(title: string, url: Option<string>)

  /** A citation as it appears in a response: `{label, url: s.url || null}`. */
  datatype SourceView = SourceView(title: string, url: Option<string>)

  function Max(a: int, b: int): (m: int)
    ensures m >= a && m >= b
    ensures m == a || m == b
  {
    if a >= b then a else b
  }

  // ---------------------------------------------------------------------------
  // Citations

  /** `url || null`: a missing url and an empty url (falsy) both become null. */
  function FormatSource(s: Source): (v: SourceView)
    ensures v.title == s.title
    ensures v.url.Some? <==> s.url.Some? && s.url.value != ""
    ensures v.url.Some? ==> v.url == s.url
  {
    SourceView(s.title, if s.url.Some? && s.url.value != "" then s.url else None)
  }

  /** `sources.map(...)`: one view per stored source, in order. */
  function FormatSources(ss: seq<Source>): (vs: seq<SourceView>)
    ensures |vs| == |ss|
    ensures forall i :: 0 <= i < |ss| ==> vs[i].title == ss[i].title
    ensures forall i :: 0 <= i < |ss| ==>
              (vs[i].url.Some? <==> ss[i].url.Some? && ss[i].url.value != "")
    ensures forall i :: 0 <= i < |ss| ==> vs[i].url.Some? ==> vs[i].url == ss[i].url
  {
    if ss == [] then [] else [FormatSource(ss[0])] + FormatSources(ss[1..])
  }

  // ---------------------------------------------------------------------------
  // Strings

  /** `s.includes(t)`: `t` occurs in `s` as a contiguous substring
      (the empty string occurs in every string). */
  predicate Contains(s: string, t: string)
  {
    exists i | 0 <= i <= |s| :: OccursAt(s, t, i)
  }

  /** `includes` never finds a longer string, always finds the empty string,
      and finds a string in itself. */
  lemma ContainsBasics(s: string, t: string)
    ensures Contains(s, t) ==> |t| <= |s|
    ensures Contains(s, [])
    ensures Contains(s, s)
  {
    assert OccursAt(s, [], 0);
    assert s[0..|s|] == s;
    assert OccursAt(s, s, 0);
  }

  /** `t` occurs in `s` starting at position `i`. */
  predicate OccursAt(s: string, t: string, i: int)
  {
    0 <= i && i + |t| <= |s| && s[i..i + |t|] == t
  }

  /** A substring of a string is a substring of every extension of it. */
  lemma ContainsExtends(s: string, s': string, t: string)
    requires s <= s'
    requires Contains(s, t)
    ensures Contains(s', t)
  {
    var i :| 0 <= i <= |s| && OccursAt(s, t, i);
    assert s[..|s|] == s'[..|s|];
    assert s'[i..i + |t|] == s[i..i + |t|];
    assert OccursAt(s', t, i);
  }

  /** A string is a substring of any string ending with it. */
  lemma ContainsSuffix(s: string, t: string)
    ensures Contains(s + t, t)
  {
    assert (s + t)[|s|..|s| + |t|] == t;
    assert OccursAt(s + t, t, |s|);
  }

  /** A non-empty string `t` is not a substring of `s` when its first
      character occurs nowhere in `s` that an occurrence of `t` could start. */
  lemma NotContainsByFirstChar(s: string, t: string)
    requires t != []
    requires |t| <= |s| ==> t[0] !in s[..|s| - |t| + 1]
    ensures !Contains(s, t)
  {
    forall i | 0 <= i && i + |t| <= |s|
      ensures !OccursAt(s, t, i)
    {
      assert s[i..i + |t|][0] == s[i] == s[..|s| - |t| + 1][i];
    }
  }

  function LowerChar(c: char): char
  {
    if 'A' <= c <= 'Z' then (c as int + 32) as char else c
  }

  /** `s.toLowerCase()`, restricted to the ASCII letters. */
  function Lower(s: string): (r: string)
    ensures |r| == |s|
    ensures forall i :: 0 <= i < |s| ==> !('A' <= r[i] <= 'Z')
    ensures forall i :: 0 <= i < |s| && !('A' <= s[i] <= 'Z') ==> r[i] == s[i]
    ensures forall i :: 0 <= i < |s| && 'A' <= s[i] <= 'Z' ==> r[i] as int == s[i] as int + 32
  {
    seq(|s|, i requires 0 <= i < |s| => LowerChar(s[i]))
  }

  /** Lower-casing a string without upper-case letters changes nothing, so
      lower-casing is idempotent. */
  lemma LowerKeepsLower(s: string)
    requires forall i :: 0 <= i < |s| ==> !('A' <= s[i] <= 'Z')
    ensures Lower(s) == s
  {
  }

  /** `names.map(d => d.toLowerCase())`. */
  function LowerAll(names: seq<string>): (r: seq<string>)
    ensures |r| == |names|
    ensures forall i :: 0 <= i < |names| ==> r[i] == Lower(names[i])
  {
    if names == [] then [] else [Lower(names[0])] + LowerAll(names[1..])
  }

  // ---------------------------------------------------------------------------
  // Request parameters

  /** A request parameter (`filter`, `q`) as JavaScript sees it: missing, a
      string, or some other value (a JSON number, boolean, null, array or
      object, or a repeated query parameter) that is only ever checked for
      truthiness. */
  datatype Param = Absent | Text(text: string) | NonText(truthy: bool)

  /** `!p` */
  predicate Falsy(f: Param)
    ensures f.Text? ==> (Falsy(f) <==> f.text == "")
    ensures f.NonText? ==> (Falsy(f) <==> !f.truthy)
    ensures f.Absent? ==> Falsy(f)
  {
    f.Absent? || f == Text("") || f == NonText(false)
  }

  /** Which of the `avoid` and `beneficial` keys a response carries. */
  datatype Shown = Shown(avoid: bool, beneficial: bool)

  /** The `if (!filter || filter === "all") … else if … else if …` chain,
      which has no final `else`. */
  function Presence(f: Param): (sh: Shown)
    ensures sh.avoid <==> Falsy(f) || f == Text("all") || f == Text("avoid")
    ensures sh.beneficial <==> Falsy(f) || f == Text("all") || f == Text("beneficial")
    ensures !Falsy(f) && !(f.Text? && f.text in ["all", "avoid", "beneficial"]) ==>
              sh == Shown(false, false)
  {
    if Falsy(f) || f == Text("all") then Shown(true, true)
    else if f == Text("avoid") then Shown(true, false)
    else if f == Text("beneficial") then Shown(false, true)
    else Shown(false, false)
  }
}
