/** The RSS queries of one search: which feeds a filter asks for, how a full feed is split, and how a query is written. */
module RssQueries {
  import opened Basics

  /** A numeric id as it stands in the catalogue page. */
  type Id = string

  datatype Result<+T> = Ok(value: T) | Err(error: QueryError)

  datatype QueryError = CityNotFound | CategoryNotFound(choice: string) | EmptyCatalog

  /** Search labels in normalized form, each with its id. */
  datatype Catalog = Catalog(cities: map<string, Id>, formats: map<string, Id>, categories: map<string, Id>)

  /** `city` is empty when no city is chosen; labels are normalized. */
  datatype Filters = Filters(city: string, categories: seq<string>)

  datatype Query = Query(tur: Option<Id>, kategori: Option<Id>, sehir: Option<Id>)

  // ---------- base queries ----------

  predicate CityKnown(filters: Filters, catalog: Catalog) {
    filters.city == "" || filters.city in catalog.cities
  }

  function CityId(filters: Filters, catalog: Catalog): Option<Id>
    requires CityKnown(filters, catalog)
  {
    if filters.city == "" then None else Some(catalog.cities[filters.city])
  }

  function Lookup(ids: map<string, Id>, choice: string): Option<Id> {
    if choice in ids then Some(ids[choice]) else None
  }

  /** `tiyatro` also stands for the stage format. */
  function StageId(choice: string, catalog: Catalog): Option<Id> {
    if choice == "tiyatro" then Lookup(catalog.formats, "sahne sanatlari") else None
  }

  predicate Known(choice: string, catalog: Catalog) {
    Lookup(catalog.formats, choice).Some? || Lookup(catalog.categories, choice).Some? || StageId(choice, catalog).Some?
  }

  function FormatQuery(id: Option<Id>, city: Option<Id>): set<Query> {
    if id.Some? then {Query(id, None, city)} else {}
  }

  function CategoryQuery(id: Option<Id>, city: Option<Id>): set<Query> {
    if id.Some? then {Query(None, id, city)} else {}
  }

  /** The queries one selected category stands for. */
  function Selected(choice: string, catalog: Catalog, city: Option<Id>): set<Query> {
    FormatQuery(Lookup(catalog.formats, choice), city) + CategoryQuery(Lookup(catalog.categories, choice), city)
    + FormatQuery(StageId(choice, catalog), city)
  }

  /** Everything the catalogue offers. */
  function Everything(catalog: Catalog, city: Option<Id>): set<Query> {
    {Query(None, None, city)}
    + (set id | id in catalog.formats.Values :: Query(Some(id), None, city))
    + (set id | id in catalog.categories.Values :: Query(None, Some(id), city))
  }

  /** `Set.add` on an insertion-ordered set. */
  method Add(queries: seq<Query>, q: Query) returns (r: seq<Query>)
    requires Distinct(queries)
    ensures Distinct(r) && r != [] && forall other :: other in r <==> other in queries || other == q
  {
    if q in queries { return queries; }
    r := queries + [q];
    assert r[..|queries|] == queries;
  }

  /** `[...new Set(...)]`, in some order. */
  method Listed(queries: set<Query>) returns (r: seq<Query>)
    ensures Distinct(r) && forall q :: q in r <==> q in queries
  {
    r := [];
    var rest := queries;
    while rest != {}
      invariant Distinct(r) && forall q :: q in queries <==> q in r || q in rest
      decreases |rest|
    {
      var q :| q in rest;
      r := Add(r, q);
      rest := rest - {q};
    }
  }

  ghost function SelectedByAny(labels: seq<string>, catalog: Catalog, city: Option<Id>): set<Query> {
    if labels == [] then {}
    else SelectedByAny(labels[..|labels| - 1], catalog, city) + Selected(labels[|labels| - 1], catalog, city)
  }

  /** One turn of the loop over the selected categories. */
  method AddSelected(urls: seq<Query>, choice: string, catalog: Catalog, city: Option<Id>) returns (r: seq<Query>, matched: bool)
    requires Distinct(urls)
    ensures Distinct(r) && forall q :: q in r <==> q in urls || q in Selected(choice, catalog, city)
    ensures forall q :: q in r <==> q in urls || (q.sehir == city && IsFor(choice, catalog, q))
    ensures matched == Known(choice, catalog) == !IsUnknown(choice, catalog) && (matched ==> r != [])
  {
    r, matched := urls, false;
    var formatId, categoryId := Lookup(catalog.formats, choice), Lookup(catalog.categories, choice);
    if formatId.Some? {
      r := Add(r, Query(formatId, None, city));
      matched := true;
    }
    if categoryId.Some? {
      r := Add(r, Query(None, categoryId, city));
      matched := true;
    }
    var stageId := StageId(choice, catalog);
    if stageId.Some? {
      r := Add(r, Query(stageId, None, city));
      matched := true;
    }
  }

  method SelectedQueries(choices: seq<string>, catalog: Catalog, city: Option<Id>) returns (r: Result<seq<Query>>)
    ensures r.Err? <==> exists choice :: choice in choices && !Known(choice, catalog)
    ensures r.Err? ==> r.error.CategoryNotFound?
    ensures r.Err? ==>
      exists i :: 0 <= i < |choices| && choices[i] == r.error.choice && !Known(r.error.choice, catalog)
                  && forall j | 0 <= j < i :: Known(choices[j], catalog)
    ensures r.Ok? ==> Distinct(r.value) && (choices != [] ==> r.value != [])
    ensures r.Ok? ==> forall q :: q in r.value <==> q in SelectedByAny(choices, catalog, city)
  {
    var urls: seq<Query> := [];
    for i := 0 to |choices|
      invariant Distinct(urls) && (i > 0 ==> urls != [])
      invariant forall q :: q in urls <==> q in SelectedByAny(choices[..i], catalog, city)
      invariant forall j | 0 <= j < i :: Known(choices[j], catalog)
    {
      var matched;
      urls, matched := AddSelected(urls, choices[i], catalog, city);
      assert choices[..i + 1][..i] == choices[..i];
      if !matched { return Err(CategoryNotFound(choices[i])); }
    }
    assert choices[..|choices|] == choices;
    r := Ok(urls);
  }

  /** A query that a category stands for: its format, its category, or for `tiyatro` the stage format. */
  predicate IsFor(choice: string, catalog: Catalog, q: Query) {
    || (q.kategori.None? && choice in catalog.formats && q.tur == Some(catalog.formats[choice]))
    || (q.tur.None? && choice in catalog.categories && q.kategori == Some(catalog.categories[choice]))
    || (q.kategori.None? && choice == "tiyatro" && "sahne sanatlari" in catalog.formats
        && q.tur == Some(catalog.formats["sahne sanatlari"]))
  }

  /** A category that nothing in the catalogue stands for. */
  predicate IsUnknown(choice: string, catalog: Catalog) {
    && choice !in catalog.formats && choice !in catalog.categories
    && !(choice == "tiyatro" && "sahne sanatlari" in catalog.formats)
  }

  /** A query the catalogue offers: for everything, for one format or for one category. */
  ghost predicate IsOffered(catalog: Catalog, q: Query) {
    || (q.tur.None? && q.kategori.None?)
    || (q.kategori.None? && q.tur.Some? && exists name :: name in catalog.formats && catalog.formats[name] == q.tur.value)
    || (q.tur.None? && q.kategori.Some? && exists name :: name in catalog.categories && catalog.categories[name] == q.kategori.value)
  }

  /** What a filter asks for, on the catalogue's own maps, and always in the chosen city. */
  ghost predicate AsksFor(filters: Filters, catalog: Catalog, q: Query) {
    && (filters.city == "" ==> q.sehir == None)
    && (filters.city != "" ==> filters.city in catalog.cities && q.sehir == Some(catalog.cities[filters.city]))
    && if filters.categories == [] then IsOffered(catalog, q)
       else exists choice :: choice in filters.categories && IsFor(choice, catalog, q)
  }

  lemma OfferedIsEverything(filters: Filters, catalog: Catalog, q: Query)
    requires CityKnown(filters, catalog)
    ensures q in Everything(catalog, CityId(filters, catalog)) <==> q.sehir == CityId(filters, catalog) && IsOffered(catalog, q)
  {
    assert forall id :: id in catalog.formats.Values <==> exists name :: name in catalog.formats && catalog.formats[name] == id;
    assert forall id :: id in catalog.categories.Values <==> exists name :: name in catalog.categories && catalog.categories[name] == id;
  }

  lemma SelectedIsFor(choice: string, catalog: Catalog, city: Option<Id>, q: Query)
    ensures q in Selected(choice, catalog, city) <==> q.sehir == city && IsFor(choice, catalog, q)
  {
  }

  lemma {:induction false} SelectedMeaning(labels: seq<string>, catalog: Catalog, city: Option<Id>, q: Query)
    ensures q in SelectedByAny(labels, catalog, city) <==>
      q.sehir == city && exists choice :: choice in labels && IsFor(choice, catalog, q)
  {
    if labels != [] {
      var n := |labels| - 1;
      hide Selected, IsFor;
      SelectedMeaning(labels[..n], catalog, city, q);
      SelectedIsFor(labels[n], catalog, city, q);
      assert labels == labels[..n] + [labels[n]];
    }
  }

  /** `rssUrlsForCatalog`: no query is ever wider than the filter, and a filter that matches nothing is an error. */
  method BaseQueries(filters: Filters, catalog: Catalog) returns (r: Result<seq<Query>>)
    ensures r.Err? <==>
      || (filters.city != "" && filters.city !in catalog.cities)
      || (filters.categories == [] && catalog.formats == map[] && catalog.categories == map[])
      || exists choice :: choice in filters.categories && IsUnknown(choice, catalog)
    ensures r.Err? && r.error == CityNotFound <==> filters.city != "" && filters.city !in catalog.cities
    ensures r == Err(EmptyCatalog) ==> filters.categories == [] && catalog.formats == map[] && catalog.categories == map[]
    ensures r.Err? && r.error.CategoryNotFound? ==>
      exists i :: 0 <= i < |filters.categories| && filters.categories[i] == r.error.choice && IsUnknown(r.error.choice, catalog)
                  && forall j | 0 <= j < i :: !IsUnknown(filters.categories[j], catalog)
    ensures r.Ok? ==> Distinct(r.value) && r.value != [] && forall q :: q in r.value <==> AsksFor(filters, catalog, q)
  {
    hide Selected, Everything, IsOffered, IsFor, Distinct;
    if filters.city != "" && filters.city !in catalog.cities { return Err(CityNotFound); }
    var city := CityId(filters, catalog);
    if |filters.categories| == 0 {
      if |catalog.formats| + |catalog.categories| == 0 { return Err(EmptyCatalog); }
      var all := Listed(Everything(catalog, city));
      forall q ensures q in all <==> AsksFor(filters, catalog, q) { OfferedIsEverything(filters, catalog, q); }
      EverythingIsSomething(catalog, city);
      return Ok(all);
    }
    r := SelectedQueries(filters.categories, catalog, city);
    forall q ensures q in SelectedByAny(filters.categories, catalog, city) <==> AsksFor(filters, catalog, q) {
      SelectedMeaning(filters.categories, catalog, city, q);
    }
  }

  lemma EverythingIsSomething(catalog: Catalog, city: Option<Id>)
    ensures Query(None, None, city) in Everything(catalog, city)
  {
  }

  /** Every base query asks for the chosen city and for one id at most, and with categories selected for one of theirs. */
  lemma BaseQueriesKeepTheFilter(filters: Filters, catalog: Catalog, q: Query)
    requires AsksFor(filters, catalog, q)
    ensures q.sehir == (if filters.city == "" then None else Some(catalog.cities[filters.city]))
    ensures q.tur.None? || q.kategori.None?
    ensures filters.categories != [] ==> q.tur.Some? || q.kategori.Some?
  {
  }

  // ---------- splitting a full feed ----------

  /** `partitionRssUrl`: a format by every category, a category by every format; nothing else is split. */
  function Partitions(q: Query, catalog: Catalog): set<Query> {
    if q.tur.Some? == q.kategori.Some? then {}
    else if q.tur.Some? then set id | id in catalog.categories.Values :: Query(q.tur, Some(id), q.sehir)
    else set id | id in catalog.formats.Values :: Query(Some(id), q.kategori, q.sehir)
  }

  /** A query for one format or one category, with every id of the other kind added in turn. */
  ghost predicate IsPart(q: Query, catalog: Catalog, part: Query) {
    && part.sehir == q.sehir && part.tur.Some? && part.kategori.Some?
    && if q.tur.Some? && q.kategori.None? then
         part.tur == q.tur && exists name :: name in catalog.categories && catalog.categories[name] == part.kategori.value
       else if q.tur.None? && q.kategori.Some? then
         part.kategori == q.kategori && exists name :: name in catalog.formats && catalog.formats[name] == part.tur.value
       else false
  }

  lemma PartitionsAreParts(q: Query, catalog: Catalog, part: Query)
    ensures part in Partitions(q, catalog) <==> IsPart(q, catalog, part)
  {
    assert forall id :: id in catalog.formats.Values <==> exists name :: name in catalog.formats && catalog.formats[name] == id;
    assert forall id :: id in catalog.categories.Values <==> exists name :: name in catalog.categories && catalog.categories[name] == id;
  }

  /** Splitting keeps the city and the selected id, and what it gives names two ids and is not split again. */
  lemma PartitionsRefine(q: Query, catalog: Catalog, part: Query)
    requires part in Partitions(q, catalog)
    ensures part.sehir == q.sehir && part.tur.Some? && part.kategori.Some?
    ensures (q.tur.Some? ==> part.tur == q.tur) && (q.kategori.Some? ==> part.kategori == q.kategori)
    ensures forall other :: Partitions(part, other) == {}
  {
  }

  /** A format split by a category is the category split by the format. */
  lemma SplitsMeet(f: Id, c: Id, catalog: Catalog, city: Option<Id>)
    requires f in catalog.formats.Values && c in catalog.categories.Values
    ensures
      Partitions(Query(Some(f), None, city), catalog) * Partitions(Query(None, Some(c), city), catalog)
      == {Query(Some(f), Some(c), city)}
  {
    assert Query(Some(f), Some(c), city) in Partitions(Query(Some(f), None, city), catalog);
    assert Query(Some(f), Some(c), city) in Partitions(Query(None, Some(c), city), catalog);
  }

  // ---------- the query as it is written ----------

  const BASE := "https://etkinlik.io/rss/sorgu"

  predicate Digits(s: string) {
    |s| > 0 && forall i | 0 <= i < |s| :: '0' <= s[i] <= '9'
  }

  predicate Numeric(id: Option<Id>) {
    id.Some? ==> Digits(id.value)
  }

  predicate AreNumeric(ids: map<string, Id>) {
    forall name | name in ids :: Digits(ids[name])
  }

  /** Every id of the catalogue page is matched as digits. */
  predicate IsNumeric(catalog: Catalog) {
    AreNumeric(catalog.cities) && AreNumeric(catalog.formats) && AreNumeric(catalog.categories)
  }

  lemma DigitsMeaning(s: string)
    ensures Digits(s) <==> s != "" && forall c | c in s :: c in "0123456789"
  {
    forall c: char ensures c in "0123456789" <==> '0' <= c <= '9' { DigitChars(c); }
    assert forall i | 0 <= i < |s| :: s[i] in s;
  }

  lemma DigitChars(c: char)
    ensures c in "0123456789" <==> '0' <= c <= '9'
  {
    var digits := "0123456789";
    assert forall i | 0 <= i < 10 :: digits[i] == '0' + i as char;
    if '0' <= c <= '9' { assert digits[c as int - '0' as int] == c; }
  }

  predicate HasNumericIds(q: Query) {
    Numeric(q.tur) && Numeric(q.kategori) && Numeric(q.sehir)
  }

  lemma BaseQueriesAreNumeric(filters: Filters, catalog: Catalog, q: Query)
    requires IsNumeric(catalog) && AsksFor(filters, catalog, q)
    ensures HasNumericIds(q)
  {
  }

  lemma PartsAreNumeric(q: Query, catalog: Catalog, part: Query)
    requires IsNumeric(catalog) && HasNumericIds(q) && IsPart(q, catalog, part)
    ensures HasNumericIds(part)
  {
  }

  function Field(name: string, id: Option<Id>, rest: string): string {
    if id.None? then rest else name + "=" + id.value + Tail(rest)
  }

  function Params(q: Query): string {
    Field("turIds", q.tur, Field("kategoriIds", q.kategori, Field("sehirIds", q.sehir, "")))
  }

  function Render(q: Query): string {
    if Params(q) == "" then BASE else BASE + "?" + Params(q)
  }

  /** One field, and what follows it. */
  lemma FieldText(name: string, id: Id, rest: string)
    ensures Field(name, Some(id), rest) == name + "=" + id + (if rest == "" then "" else "&" + rest)
    ensures Field(name, None, rest) == rest
  {
  }

  lemma RenderText(q: Query, params: string)
    requires Params(q) == params && params != ""
    ensures Render(q) == BASE + "?" + params
  {
  }

  /** The URL of a query for everything, as it is sent. */
  lemma RenderedCity(sehir: Id)
    ensures Render(Query(None, None, None)) == BASE
    ensures Render(Query(None, None, Some(sehir))) == BASE + "?" + ("sehirIds" + "=" + sehir)
  {
    FieldText("sehirIds", sehir, "");
    assert "sehirIds" + "=" + sehir + "" == "sehirIds" + "=" + sehir;
    hide Field, Tail;
  }

  /** Of a query for one format or one category. */
  lemma RenderedOneId(name: string, id: Id, sehir: Option<Id>)
    requires name == "turIds" || name == "kategoriIds"
    ensures
      var q := if name == "turIds" then Query(Some(id), None, sehir) else Query(None, Some(id), sehir);
      Render(q) == BASE + "?" + (name + "=" + id + if sehir.None? then "" else "&" + ("sehirIds" + "=" + sehir.value))
  {
    var q := if name == "turIds" then Query(Some(id), None, sehir) else Query(None, Some(id), sehir);
    var city := Field("sehirIds", sehir, "");
    if sehir.Some? {
      FieldText("sehirIds", sehir.value, "");
      assert "sehirIds" + "=" + sehir.value + "" == "sehirIds" + "=" + sehir.value;
    }
    FieldText(name, id, city);
    assert Params(q) == Field(name, Some(id), city);
    RenderText(q, Params(q));
    hide Field, Tail, Params, Render;
  }

  /** And of one part of a full feed. */
  lemma RenderedTwoIds(tur: Id, kategori: Id, sehir: Option<Id>)
    ensures Render(Query(Some(tur), Some(kategori), sehir))
            == BASE + "?" + ("turIds" + "=" + tur + "&" + ("kategoriIds" + "=" + kategori
                             + if sehir.None? then "" else "&" + ("sehirIds" + "=" + sehir.value)))
  {
    var q := Query(Some(tur), Some(kategori), sehir);
    var city := Field("sehirIds", sehir, "");
    if sehir.Some? {
      FieldText("sehirIds", sehir.value, "");
      assert "sehirIds" + "=" + sehir.value + "" == "sehirIds" + "=" + sehir.value;
    }
    var category := Field("kategoriIds", Some(kategori), city);
    FieldText("kategoriIds", kategori, city);
    FieldText("turIds", tur, category);
    assert Params(q) == Field("turIds", Some(tur), category);
    RenderText(q, Params(q));
    hide Field, Tail, Params, Render;
    assert "turIds" + "=" + tur + ("&" + category) == "turIds" + "=" + tur + "&" + category;
  }

  lemma ConcatHead(a: string, r: string)
    ensures a == "" ==> a + r == r
    ensures a != "" ==> (a + r)[0] == a[0] && (a + r)[1..] == a[1..] + r
  {
  }

  lemma {:induction false} DigitsEnd(a: string, b: string, r: string, s: string)
    requires forall i | 0 <= i < |a| :: '0' <= a[i] <= '9'
    requires forall i | 0 <= i < |b| :: '0' <= b[i] <= '9'
    requires (r == "" || r[0] == '&') && (s == "" || s[0] == '&') && a + r == b + s
    ensures a == b && r == s
  {
    ConcatHead(a, r);
    ConcatHead(b, s);
    if a != "" && b != "" {
      DigitsEnd(a[1..], b[1..], r, s);
      assert a == [a[0]] + a[1..] && b == [b[0]] + b[1..];
    }
  }

  function Tail(rest: string): string {
    if rest == "" then "" else "&" + rest
  }

  lemma FieldHead(name: string, id: Option<Id>, rest: string)
    requires name != ""
    ensures id.Some? ==> Field(name, id, rest) != "" && Field(name, id, rest)[0] == name[0]
    ensures id.Some? ==> Field(name, id, rest)[|name| + 1..] == id.value + Tail(rest)
    ensures Tail(rest) == "" || (Tail(rest)[0] == '&' && Tail(rest)[1..] == rest)
  {
    if id.Some? {
      assert Field(name, id, rest) == (name + "=") + (id.value + Tail(rest));
    }
  }

  lemma FieldIsInjective(name: string, a: Option<Id>, b: Option<Id>, r: string, s: string)
    requires name != "" && Numeric(a) && Numeric(b)
    requires (r == "" || r[0] != name[0]) && (s == "" || s[0] != name[0])
    requires Field(name, a, r) == Field(name, b, s)
    ensures a == b && r == s
  {
    FieldHead(name, a, r);
    FieldHead(name, b, s);
    if a.Some? && b.Some? {
      DigitsEnd(a.value, b.value, Tail(r), Tail(s));
    }
  }

  /** Two queries with numeric ids are written alike only when they are the same query. */
  lemma RenderIsInjective(p: Query, q: Query)
    requires HasNumericIds(p) && HasNumericIds(q)
    ensures Render(p) == Render(q) <==> p == q
  {
    if Render(p) == Render(q) {
      if Params(p) != "" {
        assert Render(p)[|BASE|..] == "?" + Params(p);
      }
      if Params(q) != "" {
        assert Render(q)[|BASE|..] == "?" + Params(q);
      }
      assert ("?" + Params(p))[1..] == Params(p) && ("?" + Params(q))[1..] == Params(q);
      assert BASE[|BASE|..] == "";
      assert Params(p) == Params(q);
      var p3, q3 := Field("sehirIds", p.sehir, ""), Field("sehirIds", q.sehir, "");
      var p2, q2 := Field("kategoriIds", p.kategori, p3), Field("kategoriIds", q.kategori, q3);
      FieldIsInjective("turIds", p.tur, q.tur, p2, q2);
      FieldIsInjective("kategoriIds", p.kategori, q.kategori, p3, q3);
      FieldIsInjective("sehirIds", p.sehir, q.sehir, "", "");
    }
  }
}
