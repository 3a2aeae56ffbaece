/** The personal context the legacy recommendation engine adds to a request
    (recommendation.py, `generate_recommendations`): the user's preferences,
    at most two per type, the user's favourite movies and the movies the
    user has already rated. */
module LegacyContext {
  import opened Wrappers
  import opened Text
  import opened Seqs

  /** One row of `get_user_preferences`. */
  datatype Preference = Preference(kind: string, value: string)

  /** One row of `get_user_ratings`, as this file reads it. */
  datatype RatedMovie = RatedMovie(title: string, rating: int)

  const PreferencesIntro := "\n\nUser preferences (consider moderately): "
  const FavoritesIntro := "\n\nUser's favorite movies: "
  const ExclusionIntro := "\n\nDO NOT recommend these already rated movies: "

  // ---------------------------------------------------------------------------
  // Grouping the preferences by type

  function Kinds(prefs: seq<Preference>): (ks: seq<string>)
    ensures |ks| == |prefs| && forall k :: 0 <= k < |prefs| ==> ks[k] == prefs[k].kind
  {
    seq(|prefs|, k requires 0 <= k < |prefs| => prefs[k].kind)
  }

  /** The preference types in the order they first appear, as the keys of `pref_by_type`. */
  function KindsInOrder(prefs: seq<Preference>): seq<string> {
    AppendNew([], Kinds(prefs))
  }

  /** The values of one type, in order. */
  function ValuesOf(prefs: seq<Preference>, kind: string): seq<string> {
    if prefs == [] then []
    else ValuesOf(prefs[..|prefs| - 1], kind) + (if prefs[|prefs| - 1].kind == kind then [prefs[|prefs| - 1].value] else [])
  }

  /** The kept preferences of the types `kinds`: the first two values of each. */
  function KeptFor(prefs: seq<Preference>, kinds: seq<string>): seq<Preference> {
    if kinds == [] then []
    else
      var kind := kinds[|kinds| - 1];
      KeptFor(prefs, kinds[..|kinds| - 1]) + OfKind(kind, PyTake(ValuesOf(prefs, kind), 2))
  }

  function OfKind(kind: string, values: seq<string>): (ps: seq<Preference>)
    ensures |ps| == |values| && forall k :: 0 <= k < |values| ==> ps[k] == Preference(kind, values[k])
  {
    seq(|values|, k requires 0 <= k < |values| => Preference(kind, values[k]))
  }

  /** The preferences that reach the request, type by type. */
  function Kept(prefs: seq<Preference>): seq<Preference> {
    KeptFor(prefs, KindsInOrder(prefs))
  }

  /** `f"{pref_type}: {value}"` */
  function PreferenceText(p: Preference): string {
    p.kind + ": " + p.value
  }

  function Texts(ps: seq<Preference>): (ts: seq<string>)
    ensures |ts| == |ps| && forall k :: 0 <= k < |ps| ==> ts[k] == PreferenceText(ps[k])
  {
    seq(|ps|, k requires 0 <= k < |ps| => PreferenceText(ps[k]))
  }

  /** `limited_preferences`, built as the source builds it: the preferences
      grouped by type in a dictionary, then the first two values of each
      type, in the order the types first appeared. */
  method LimitPreferences(prefs: seq<Preference>) returns (limited: seq<string>)
    ensures limited == Texts(Kept(prefs))
  {
    var byKind, order := GroupByKind(prefs);
    limited := [];
    for j := 0 to |order|
      invariant limited == Texts(KeptFor(prefs, order[..j]))
    {
      assert order[..j + 1][..j] == order[..j];
      var kind := order[j];
      limited := AddValues(limited, kind, PyTake(byKind[kind], 2));
      TextsAppend(KeptFor(prefs, order[..j]), OfKind(kind, PyTake(byKind[kind], 2)));
    }
    assert order[..|order|] == order;
  }

  /** `pref_by_type`: the values of each type, and the types in the order
      they were first inserted. */
  method GroupByKind(prefs: seq<Preference>) returns (byKind: map<string, seq<string>>, order: seq<string>)
    ensures order == KindsInOrder(prefs)
    ensures forall k :: k in order ==> k in byKind && byKind[k] == ValuesOf(prefs, k)
  {
    byKind := map[];
    order := [];
    for i := 0 to |prefs|
      invariant Grouped(byKind, order, prefs[..i])
    {
      var p := prefs[i];
      assert prefs[..i + 1] == prefs[..i] + [p];
      GroupedStep(byKind, order, prefs[..i], p);
      var values := if p.kind in byKind then byKind[p.kind] else [];
      if p.kind !in byKind {
        order := order + [p.kind];
      }
      byKind := byKind[p.kind := values + [p.value]];
    }
    assert prefs[..|prefs|] == prefs;
  }

  /** `byKind` and `order` are the grouping of `ps`. */
  ghost predicate Grouped(byKind: map<string, seq<string>>, order: seq<string>, ps: seq<Preference>) {
    && order == AppendNew([], Kinds(ps))
    && (forall k :: k in byKind <==> k in order)
    && (forall k :: k in byKind ==> byKind[k] == ValuesOf(ps, k))
  }

  lemma GroupedStep(byKind: map<string, seq<string>>, order: seq<string>, ps: seq<Preference>, p: Preference)
    requires Grouped(byKind, order, ps)
    ensures var before := if p.kind in byKind then byKind[p.kind] else [];
      Grouped(byKind[p.kind := before + [p.value]], if p.kind in byKind then order else order + [p.kind], ps + [p])
  {
    var ps' := ps + [p];
    var before := if p.kind in byKind then byKind[p.kind] else [];
    var byKind' := byKind[p.kind := before + [p.value]];
    var order' := if p.kind in byKind then order else order + [p.kind];
    KindsSnoc(ps, p);
    AppendNewSnoc([], Kinds(ps), p.kind);
    assert order' == AppendNew([], Kinds(ps'));
    if p.kind !in byKind {
      NewKindHasNoValues(ps, p.kind);
    }
    forall k | k in byKind'
      ensures byKind'[k] == ValuesOf(ps', k)
    {
      ValuesOfSnoc(ps, p, k);
    }
  }

  lemma KindsSnoc(ps: seq<Preference>, p: Preference)
    ensures Kinds(ps + [p]) == Kinds(ps) + [p.kind]
  {
  }

  lemma ValuesOfSnoc(ps: seq<Preference>, p: Preference, kind: string)
    ensures ValuesOf(ps + [p], kind) == ValuesOf(ps, kind) + (if p.kind == kind then [p.value] else [])
  {
    assert (ps + [p])[..|ps|] == ps;
  }

  lemma NewKindHasNoValues(ps: seq<Preference>, kind: string)
    requires kind !in AppendNew([], Kinds(ps))
    ensures ValuesOf(ps, kind) == []
  {
    KindListedIffValued(ps, kind);
  }

  /** The inner loop: one text per value, appended in order. */
  method AddValues(limited: seq<string>, kind: string, values: seq<string>) returns (r: seq<string>)
    ensures r == limited + Texts(OfKind(kind, values))
  {
    r := limited;
    for i := 0 to |values|
      invariant r == limited + Texts(OfKind(kind, values[..i]))
    {
      assert OfKind(kind, values[..i + 1]) == OfKind(kind, values[..i]) + [Preference(kind, values[i])];
      TextsAppend(OfKind(kind, values[..i]), [Preference(kind, values[i])]);
      r := r + [PreferenceText(Preference(kind, values[i]))];
    }
    assert values[..|values|] == values;
  }

  lemma TextsAppend(a: seq<Preference>, b: seq<Preference>)
    ensures Texts(a + b) == Texts(a) + Texts(b)
  {
  }

  // ---------------------------------------------------------------------------
  // What the grouping keeps

  lemma {:induction false} ValuesOfAppend(a: seq<Preference>, b: seq<Preference>, kind: string)
    ensures ValuesOf(a + b, kind) == ValuesOf(a, kind) + ValuesOf(b, kind)
    decreases |b|
  {
    if b != [] {
      var init := b[..|b| - 1];
      assert (a + b)[..|a + b| - 1] == a + init;
      ValuesOfAppend(a, init, kind);
    } else {
      assert a + b == a;
    }
  }

  lemma {:induction false} ValuesOfOfKind(kind: string, values: seq<string>, other: string)
    ensures ValuesOf(OfKind(kind, values), other) == if kind == other then values else []
    decreases |values|
  {
    if values != [] {
      var init := values[..|values| - 1];
      assert OfKind(kind, values)[..|values| - 1] == OfKind(kind, init);
      ValuesOfOfKind(kind, init, other);
    }
  }

  /** Over distinct types, every listed type keeps its first two values and
      every other type keeps none. */
  lemma {:induction false} KeptForValues(prefs: seq<Preference>, kinds: seq<string>, kind: string)
    requires NoDuplicates(kinds)
    ensures ValuesOf(KeptFor(prefs, kinds), kind) == if kind in kinds then PyTake(ValuesOf(prefs, kind), 2) else []
    decreases |kinds|
  {
    if kinds != [] {
      var init := kinds[..|kinds| - 1];
      var last := kinds[|kinds| - 1];
      assert NoDuplicates(init);
      KeptForValues(prefs, init, kind);
      ValuesOfAppend(KeptFor(prefs, init), OfKind(last, PyTake(ValuesOf(prefs, last), 2)), kind);
      ValuesOfOfKind(last, PyTake(ValuesOf(prefs, last), 2), kind);
      assert kinds == init + [last];
      if kind == last {
        assert kind !in init;
      }
    }
  }

  /** A type appears in the preferences exactly when it has a value. */
  lemma {:induction false} KindListedIffValued(prefs: seq<Preference>, kind: string)
    ensures kind in Kinds(prefs) <==> ValuesOf(prefs, kind) != []
    decreases |prefs|
  {
    if prefs != [] {
      var init := prefs[..|prefs| - 1];
      KindListedIffValued(init, kind);
      assert Kinds(prefs) == Kinds(init) + [prefs[|prefs| - 1].kind];
    }
  }

  /** The request sees, for every preference type, exactly its first two
      values in their original order, and nothing else. */
  lemma KeptIsFirstTwoPerKind(prefs: seq<Preference>, kind: string)
    ensures ValuesOf(Kept(prefs), kind) == PyTake(ValuesOf(prefs, kind), 2)
  {
    AppendNewKeepsNoDuplicates([], Kinds(prefs));
    KeptForValues(prefs, KindsInOrder(prefs), kind);
    KindListedIffValued(prefs, kind);
    if kind !in KindsInOrder(prefs) {
      assert kind !in Kinds(prefs);
    } else {
      var k :| 0 <= k < |KindsInOrder(prefs)| && KindsInOrder(prefs)[k] == kind;
    }
  }

  // ---------------------------------------------------------------------------
  // The enhanced request

  predicate IsFavorite(r: RatedMovie) {
    r.rating >= 8
  }

  /** `[r for r in ratings if r['rating'] >= 8][:3]` */
  function Favorites(ratings: seq<RatedMovie>): (fs: seq<RatedMovie>)
    ensures |fs| <= 3 && forall k :: 0 <= k < |fs| ==> IsFavorite(fs[k]) && fs[k] in ratings
  {
    PyTake(Filter(ratings, IsFavorite), 3)
  }

  /** `f"{title}: {rating}/10"` */
  function FavoriteText(r: RatedMovie): string {
    r.title + ": " + IntToString(r.rating) + "/10"
  }

  function FavoriteTexts(fs: seq<RatedMovie>): (ts: seq<string>)
    ensures |ts| == |fs| && forall k :: 0 <= k < |fs| ==> ts[k] == FavoriteText(fs[k])
  {
    seq(|fs|, k requires 0 <= k < |fs| => FavoriteText(fs[k]))
  }

  function Titles(ratings: seq<RatedMovie>): (ts: seq<string>)
    ensures |ts| == |ratings| && forall k :: 0 <= k < |ratings| ==> ts[k] == ratings[k].title
  {
    seq(|ratings|, k requires 0 <= k < |ratings| => ratings[k].title)
  }

  /** The exclusion note: the first ten rated titles, comma-separated. */
  function ExclusionNote(ratings: seq<RatedMovie>): string {
    ExclusionIntro + Join(", ", PyTake(Titles(ratings), 10))
  }

  /** The preferences note, empty when no preference is kept. */
  function PreferencesNote(prefs: seq<Preference>): string {
    var limited := Texts(Kept(prefs));
    if limited != [] then PreferencesIntro + Join(" ", limited) else ""
  }

  /** The favourites note, empty when the user has no favourite. */
  function FavoritesNote(ratings: seq<RatedMovie>): string {
    var favs := Favorites(ratings);
    if favs != [] then FavoritesIntro + Join(" ", FavoriteTexts(favs)) else ""
  }

  /** The request with the preferences note and the favourites note, when they apply. */
  function WithPreferences(enriched: string, prefs: seq<Preference>, ratings: seq<RatedMovie>): (r: string)
    ensures StartsWith(r, enriched)
  {
    var r := enriched + PreferencesNote(prefs) + FavoritesNote(ratings);
    assert r[..|enriched|] == enriched;
    r
  }

  /** `enhanced_query`: the enriched request; for a user (a truthy id) the
      preferences and favourites notes; then, when the user has rated
      movies, the note naming at most ten of them. The ratings and the
      preferences are only read for a user. */
  function EnhancedQuery(enriched: string, userId: Option<int>, prefs: seq<Preference>, ratings: seq<RatedMovie>): (r: string)
    ensures StartsWith(r, enriched)
    ensures userId.None? || userId == Some(0) ==> r == enriched
    ensures userId.Some? && userId.value != 0 && ratings != [] ==> EndsWith(r, ExclusionNote(ratings))
    ensures userId.Some? && userId.value != 0 && ratings == [] ==> r == WithPreferences(enriched, prefs, [])
  {
    if userId.None? || userId.value == 0 then enriched
    else
      var q := WithPreferences(enriched, prefs, ratings);
      if ratings != [] then
        var r := q + ExclusionNote(ratings);
        assert r[|r| - |ExclusionNote(ratings)|..] == ExclusionNote(ratings);
        assert r[..|enriched|] == q[..|enriched|];
        r
      else q
  }

  /** The exclusion note never names more than ten movies: its list is the
      first titles the user rated, at most ten of them. */
  lemma ExclusionNamesAtMostTen(ratings: seq<RatedMovie>)
    ensures var shown := PyTake(Titles(ratings), 10);
      |shown| <= 10 && shown == Titles(ratings)[..|shown|]
      && ExclusionNote(ratings) == ExclusionIntro + Join(", ", shown)
  {
  }

  /** The favourites are the first three movies rated 8 or more, in rating order. */
  lemma {:induction false} FavoritesAreFirstHighlyRated(ratings: seq<RatedMovie>)
    ensures Favorites(ratings) == PyTake(Filter(ratings, IsFavorite), 3)
    ensures |Filter(ratings, IsFavorite)| >= 3 ==> |Favorites(ratings)| == 3
    ensures |Filter(ratings, IsFavorite)| < 3 ==> Favorites(ratings) == Filter(ratings, IsFavorite)
  {
  }
}
