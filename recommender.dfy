/** The recommendation pipeline: score every catalog product against the user's profile,
    rank by score and report the ids of the best top_n products. */
module Recommender {
  import opened Records
  import opened Similarity
  import opened Profiles
  import opened Ranking

  /** The weights of the category signal and of the description signal. */
  const CategoryWeight: real := 0.6
  const DescriptionWeight: real := 0.4

  /** category_score: 1 when the product's category is one of the profile's categories, else 0. */
  function CategoryScore(p: Product, categories: seq<string>): (r: real)
    ensures r == 0.0 || r == 1.0
  {
    if p.category.Some? && p.category.value in categories then 1.0 else 0.0
  }

  /** final_similarity of one product: the weighted sum of its category score and of the
      similarity of its description to the profile text. */
  function Score(p: Product, text: string, categories: seq<string>): (r: Result<real>)
    ensures r.Failure? <==> Similarity.Similarity(OrEmpty(p.description), text).Failure?
    ensures r.Failure? ==> r.error == DivisionByZero
    ensures r.Success? ==> 0.0 <= r.value <= 1.0
    ensures r.Success? && CategoryScore(p, categories) == 1.0 ==> CategoryWeight <= r.value
    ensures r.Success? && CategoryScore(p, categories) == 0.0 ==> r.value <= DescriptionWeight
  {
    match Similarity.Similarity(OrEmpty(p.description), text)
    case Failure(e) => Failure(e)
    case Success(d) => Success(CategoryScore(p, categories) * CategoryWeight + d * DescriptionWeight)
  }

  /** The score of each product against the profile text and categories. */
  function ScoreAgainst(text: string, categories: seq<string>): Product -> Result<real> {
    p => Score(p, text, categories)
  }

  /** Every product of ps paired with its score, in order; the failure of the first product
      whose score fails otherwise. */
  function ScoreAll(ps: seq<Product>, score: Product -> Result<real>): (r: Result<seq<Scored>>)
    ensures r.Success? <==> forall k :: 0 <= k < |ps| ==> score(ps[k]).Success?
    ensures r.Failure? ==> exists k :: 0 <= k < |ps| && score(ps[k]) == Failure(r.error) &&
                                       forall j :: 0 <= j < k ==> score(ps[j]).Success?
    ensures r.Success? ==> |r.value| == |ps|
    ensures r.Success? ==> forall k :: 0 <= k < |ps| ==> r.value[k] == Scored(ps[k], score(ps[k]).value)
  {
    if ps == [] then Success([])
    else
      var init, last := ps[..|ps| - 1], ps[|ps| - 1];
      var rest := ScoreAll(init, score);
      assert forall k :: 0 <= k < |init| ==> init[k] == ps[k];
      if rest.Failure? then rest
      else if score(last).Failure? then Failure(score(last).error)
      else Success(rest.value + [Scored(last, score(last).value)])
  }

  /** Every entry of a successful ScoreAll is a product of ps with that product's score. */
  lemma ScoredEntries(ps: seq<Product>, score: Product -> Result<real>)
    requires ScoreAll(ps, score).Success?
    ensures forall x :: x in ScoreAll(ps, score).value ==> x.product in ps && score(x.product) == Success(x.similarity)
  {
    var scored := ScoreAll(ps, score).value;
    forall x | x in scored
      ensures x.product in ps && score(x.product) == Success(x.similarity)
    {
      var j :| 0 <= j < |scored| && scored[j] == x;
      assert ps[j] == x.product;
    }
  }

  /** What recommend returns for the catalog, the fetched favourites records favData and top_n. */
  function Recommendation(catalog: seq<Product>, favData: seq<Product>, topN: int): (r: Result<seq<Scored>>)
    ensures r == Failure(NoFavourites) <==> Join(Descriptions(Favourites(favData))) == ""
    ensures r.Failure? ==> r.error == NoFavourites || r.error == DivisionByZero
  {
    var favs := Favourites(favData);
    var text := Join(Descriptions(favs));
    if text == "" then Failure(NoFavourites)
    else
      match ScoreAll(catalog, ScoreAgainst(text, Categories(favs)))
      case Failure(e) => Failure(e)
      case Success(scored) => Success(Rank(scored, topN))
  }

  /** The scoring loop of recommend: each catalog product with its score, in catalog order,
      stopping at the first product whose score fails. */
  method ScoreCatalog(catalog: seq<Product>, text: string, categories: seq<string>)
    returns (r: Result<seq<Scored>>)
    ensures r == ScoreAll(catalog, ScoreAgainst(text, categories))
  {
    var results: seq<Scored> := [];
    for i := 0 to |catalog|
      invariant ScoreAll(catalog[..i], ScoreAgainst(text, categories)) == Success(results)
    {
      assert catalog[..i + 1][..i] == catalog[..i];
      var p := catalog[i];
      var score := Score(p, text, categories);
      if score.Failure? {
        return Failure(score.error);
      }
      results := results + [Scored(p, score.value)];
    }
    assert catalog[..|catalog|] == catalog;
    r := Success(results);
  }

  /** The ranking step of recommend: the scored list sorted in place, then cut to top_n. */
  method RankScored(scored: seq<Scored>, topN: int) returns (r: seq<Scored>)
    ensures r == Rank(scored, topN)
  {
    var ranked := new Scored[|scored|](k requires 0 <= k < |scored| => scored[k]);
    assert ranked[..] == scored;
    SortDescending(ranked);
    r := Slice(ranked[..], topN);
  }

  /** recommend, with the fetched catalog and favourites records passed in. */
  method Recommend(catalog: seq<Product>, favData: seq<Product>, topN: int) returns (r: Result<seq<Scored>>)
    ensures r == Recommendation(catalog, favData, topN)
  {
    var profile := BuildUserProfile(favData);
    if profile.None? || profile.value.text == "" {
      return Failure(NoFavourites);
    }
    var scored := ScoreCatalog(catalog, profile.value.text, profile.value.categories);
    match scored
    case Failure(e) =>
      r := Failure(e);
    case Success(results) =>
      var ranked := RankScored(results, topN);
      r := Success(ranked);
  }

  /** The products_id of every recommended record, in order, None for a JSON null; a failure
      if a record has no products_id key. */
  function ProductIds(recs: seq<Scored>): (r: Result<seq<Option<int>>>)
    ensures r.Success? <==> forall k :: 0 <= k < |recs| ==> recs[k].product.productId.Some?
    ensures r.Failure? ==> r.error == MissingProductId
    ensures r.Success? ==> |r.value| == |recs|
    ensures r.Success? ==> forall k :: 0 <= k < |recs| ==> r.value[k] == recs[k].product.productId.value
  {
    if recs == [] then Success([])
    else
      match ProductIds(recs[..|recs| - 1])
      case Failure(e) => Failure(e)
      case Success(init) =>
        match recs[|recs| - 1].product.productId
        case None => Failure(MissingProductId)
        case Some(id) => Success(init + [id])
  }

  /** A record whose products_id is JSON null contributes a null id; it is not an error. */
  lemma NullIdIsReported(recs: seq<Scored>, k: nat)
    requires k < |recs| && recs[k].product.productId == Some(None)
    requires forall j :: 0 <= j < |recs| ==> recs[j].product.productId.Some?
    ensures ProductIds(recs).Success? && ProductIds(recs).value[k] == None
  {
  }

  /** get_recommendations: the ids of the recommended products, or the failure of recommend. */
  method GetRecommendations(catalog: seq<Product>, favData: seq<Product>, topN: int) returns (r: Result<seq<Option<int>>>)
    ensures Recommendation(catalog, favData, topN).Failure? ==>
              r == Failure(Recommendation(catalog, favData, topN).error)
    ensures Recommendation(catalog, favData, topN).Success? ==>
              r == ProductIds(Recommendation(catalog, favData, topN).value)
  {
    var recs := Recommend(catalog, favData, topN);
    match recs
    case Failure(e) => r := Failure(e);
    case Success(rs) => r := ProductIds(rs);
  }

  /** A product matches the profile's categories exactly when it has a non-empty category that
      some favourite also has. */
  lemma CategoryScoreOfProfile(p: Product, favs: seq<Product>)
    ensures CategoryScore(p, Categories(favs)) == 1.0 <==>
              OrEmpty(p.category) != "" &&
              exists k :: 0 <= k < |favs| && OrEmpty(favs[k].category) == OrEmpty(p.category)
  {
    CategoriesMembers(favs);
  }

  /** With weights 0.6 and 0.4, a product in a favourite category always scores higher than
      one outside them, whatever the descriptions. */
  lemma CategoryMatchOutranks(p: Product, q: Product, text: string, categories: seq<string>)
    requires Score(p, text, categories).Success? && Score(q, text, categories).Success?
    requires CategoryScore(p, categories) == 1.0 && CategoryScore(q, categories) == 0.0
    ensures Score(p, text, categories).value > Score(q, text, categories).value
  {
  }

  /** A product in a favourite category whose three-word description shares two words with
      a three-word profile text scores 0.6 + 0.4 * 2/3 = 13/15. */
  lemma ScoreWithTwoSharedWords(p: Product, categories: seq<string>, u: string, v: string, w1: string, w2: string)
    requires p.category.Some? && p.category.value in categories
    requires p.description == Some(u + " " + v + " " + w1)
    requires Words(u) == [u] && Words(v) == [v] && Words(w1) == [w1] && Words(w2) == [w2]
    requires u != v && u != w1 && u != w2 && v != w1 && v != w2 && w1 != w2
    ensures Score(p, u + " " + v + " " + w2, categories) == Success(13.0 / 15.0)
  {
    SimilarityOfTwoSharedWords(u, v, w1, w2);
  }

  /** recommend fails with NoFavourites exactly when no favourite has a non-empty description,
      which includes the case of no favourite at all. */
  lemma NoFavouritesIffNoDescription(catalog: seq<Product>, favData: seq<Product>, topN: int)
    ensures Recommendation(catalog, favData, topN) == Failure(NoFavourites) <==>
              forall p :: p in Favourites(favData) ==> OrEmpty(p.description) == ""
  {
    var favs := Favourites(favData);
    ProfileTextIsEmpty(favs);
    assert (forall p :: p in favs ==> OrEmpty(p.description) == "") <==>
           (forall k :: 0 <= k < |favs| ==> OrEmpty(favs[k].description) == "");
  }

  /** When no record of the favourites data has fav equal to 1, recommend fails with NoFavourites. */
  lemma NoFavouriteRecords(catalog: seq<Product>, favData: seq<Product>, topN: int)
    requires forall k :: 0 <= k < |favData| ==> !IsFavourite(favData[k])
    ensures Recommendation(catalog, favData, topN) == Failure(NoFavourites)
  {
    FavouritesEmpty(favData);
  }

  /** recommend fails with DivisionByZero exactly when the favourites' descriptions are all
      blank but not all empty, and some catalog product has a blank, non-empty description. */
  lemma DivisionByZeroIffBlank(catalog: seq<Product>, favData: seq<Product>, topN: int)
    ensures var favs := Favourites(favData);
      Recommendation(catalog, favData, topN) == Failure(DivisionByZero) <==>
        && (exists p :: p in favs && OrEmpty(p.description) != "")
        && (forall p :: p in favs ==> IsBlank(OrEmpty(p.description)))
        && (exists p :: p in catalog && OrEmpty(p.description) != "" && IsBlank(OrEmpty(p.description)))
  {
    var favs := Favourites(favData);
    var text, categories := Join(Descriptions(favs)), Categories(favs);
    assert text == "" <==> forall p :: p in favs ==> OrEmpty(p.description) == "" by {
      ProfileTextIsEmpty(favs);
      assert forall p :: p in favs ==> exists k :: 0 <= k < |favs| && favs[k] == p;
    }
    assert IsBlank(text) <==> forall p :: p in favs ==> IsBlank(OrEmpty(p.description)) by {
      ProfileTextIsBlank(favs);
      assert forall p :: p in favs ==> exists k :: 0 <= k < |favs| && favs[k] == p;
    }
    if text != "" {
      // A product's score fails exactly when its description is non-empty and blank, as the text is.
      var scoring := ScoreAgainst(text, categories);
      assert ScoreAll(catalog, scoring).Failure? <==> exists k :: 0 <= k < |catalog| && scoring(catalog[k]).Failure?;
      assert forall p :: scoring(p) == Score(p, text, categories);
    }
  }

  /** On success, recommend returns a prefix of a descending rearrangement of the scored catalog:
      best first, equal scores in catalog order, min(top_n, |catalog|) entries for top_n >= 0,
      each a catalog product with its score, and no product it leaves out scores more than one
      it returns. */
  lemma RecommendationRanked(catalog: seq<Product>, favData: seq<Product>, topN: int)
    requires Recommendation(catalog, favData, topN).Success?
    ensures var favs := Favourites(favData);
      var text, categories := Join(Descriptions(favs)), Categories(favs);
      var scored := ScoreAll(catalog, ScoreAgainst(text, categories)).value;
      var out := Recommendation(catalog, favData, topN).value;
      && out <= Descending(scored)
      && multiset(Descending(scored)) == multiset(scored)
      && SortedByScore(out)
      && (forall v :: WithScore(out, v) <= WithScore(scored, v))
      && (topN >= 0 ==> |out| == Min(topN, |catalog|))
      && (topN < 0 ==> |out| == (if |catalog| + topN > 0 then |catalog| + topN else 0))
      && (forall k :: 0 <= k < |out| ==>
            out[k].product in catalog && Score(out[k].product, text, categories) == Success(out[k].similarity))
      && multiset(out) <= multiset(scored)
      && (forall x, k :: x in multiset(scored) - multiset(out) && 0 <= k < |out| ==>
            x.similarity <= out[k].similarity)
  {
    var favs := Favourites(favData);
    var text, categories := Join(Descriptions(favs)), Categories(favs);
    var scoring := ScoreAgainst(text, categories);
    var scored := ScoreAll(catalog, scoring).value;
    var out := Recommendation(catalog, favData, topN).value;
    assert out == Rank(scored, topN);
    RankProperties(scored, topN);
    RankKeepsBest(scored, topN);
    ScoredEntries(catalog, scoring);
    forall k | 0 <= k < |out|
      ensures out[k].product in catalog && Score(out[k].product, text, categories) == Success(out[k].similarity)
    {
      assert out[k] in multiset(scored);
      assert scoring(out[k].product) == Score(out[k].product, text, categories);
    }
  }

  /** An empty catalog, as a failed catalog fetch gives, yields no recommendation. */
  lemma EmptyCatalog(favData: seq<Product>, topN: int)
    requires Join(Descriptions(Favourites(favData))) != ""
    ensures Recommendation([], favData, topN) == Success([])
  {
  }
}
