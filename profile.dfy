/** The user profile: the favourites filter and the profile built from the favourites. */
module Profiles {
  import opened Records
  import opened Similarity

  /** A record the favourites endpoint flags as a favourite: its fav field equals 1. */
  predicate IsFavourite(p: Product) {
    p.fav == Some(1)
  }

  /** The favourite records of data, in their original order. */
  function Favourites(data: seq<Product>): seq<Product> {
    if data == [] then []
    else
      var last := data[|data| - 1];
      Favourites(data[..|data| - 1]) + (if IsFavourite(last) then [last] else [])
  }

  /** The non-empty descriptions of favs, in order. */
  function Descriptions(favs: seq<Product>): seq<string> {
    if favs == [] then []
    else
      var desc := OrEmpty(favs[|favs| - 1].description);
      Descriptions(favs[..|favs| - 1]) + (if desc != "" then [desc] else [])
  }

  /** The non-empty category names of favs, in order, duplicates kept. */
  function Categories(favs: seq<Product>): seq<string> {
    if favs == [] then []
    else
      var cat := OrEmpty(favs[|favs| - 1].category);
      Categories(favs[..|favs| - 1]) + (if cat != "" then [cat] else [])
  }

  /** The profile of a user: one text made of the favourites' descriptions, and their categories. */
  datatype Profile = Profile(text: string, categories: seq<string>)

  /** Filtering a concatenation filters each part, keeping their order. */
  lemma {:induction false} FavouritesAppend(a: seq<Product>, b: seq<Product>)
    ensures Favourites(a + b) == Favourites(a) + Favourites(b)
    decreases |b|
  {
    if b == [] {
      assert a + b == a;
    } else {
      var b' := b[..|b| - 1];
      assert (a + b)[..|a + b| - 1] == a + b';
      FavouritesAppend(a, b');
    }
  }

  /** The filter keeps every favourite record as often as it occurs, and nothing else. */
  lemma {:induction false} FavouritesCount(data: seq<Product>)
    ensures forall p :: multiset(Favourites(data))[p] == if IsFavourite(p) then multiset(data)[p] else 0
  {
    if data != [] {
      var init := data[..|data| - 1];
      FavouritesCount(init);
      assert data == init + [data[|data| - 1]];
    }
  }

  /** A record is among the favourites exactly when it is in data and flagged as a favourite. */
  lemma FavouritesMembers(data: seq<Product>)
    ensures forall p :: p in Favourites(data) <==> p in data && IsFavourite(p)
  {
    FavouritesCount(data);
    forall p ensures p in Favourites(data) <==> p in data && IsFavourite(p) {
      assert p in Favourites(data) <==> multiset(Favourites(data))[p] > 0;
      assert p in data <==> multiset(data)[p] > 0;
    }
  }

  /** There are no favourites exactly when no record has fav equal to 1. */
  lemma {:induction false} FavouritesEmpty(data: seq<Product>)
    ensures Favourites(data) == [] <==> forall k :: 0 <= k < |data| ==> !IsFavourite(data[k])
  {
    if data != [] {
      var init := data[..|data| - 1];
      FavouritesEmpty(init);
      assert forall k :: 0 <= k < |init| ==> init[k] == data[k];
    }
  }

  lemma {:induction false} DescriptionsAppend(a: seq<Product>, b: seq<Product>)
    ensures Descriptions(a + b) == Descriptions(a) + Descriptions(b)
    decreases |b|
  {
    if b == [] {
      assert a + b == a;
    } else {
      var b' := b[..|b| - 1];
      assert (a + b)[..|a + b| - 1] == a + b';
      DescriptionsAppend(a, b');
    }
  }

  lemma {:induction false} CategoriesAppend(a: seq<Product>, b: seq<Product>)
    ensures Categories(a + b) == Categories(a) + Categories(b)
    decreases |b|
  {
    if b == [] {
      assert a + b == a;
    } else {
      var b' := b[..|b| - 1];
      assert (a + b)[..|a + b| - 1] == a + b';
      CategoriesAppend(a, b');
    }
  }

  /** The descriptions kept are exactly the non-empty descriptions of the favourites. */
  lemma {:induction false} DescriptionsMembers(favs: seq<Product>)
    ensures forall d :: d in Descriptions(favs) <==> d != "" && exists k :: 0 <= k < |favs| && OrEmpty(favs[k].description) == d
  {
    if favs != [] {
      var init := favs[..|favs| - 1];
      DescriptionsMembers(init);
      forall d ensures d in Descriptions(favs) <==> d != "" && exists k :: 0 <= k < |favs| && OrEmpty(favs[k].description) == d {
        if d in Descriptions(init) {
          var k :| 0 <= k < |init| && OrEmpty(init[k].description) == d;
          assert favs[k] == init[k];
        }
        if d != "" && exists k :: 0 <= k < |favs| && OrEmpty(favs[k].description) == d {
          var k :| 0 <= k < |favs| && OrEmpty(favs[k].description) == d;
          if k < |init| {
            assert init[k] == favs[k];
          }
        }
      }
    }
  }

  /** The categories kept are exactly the non-empty category names of the favourites. */
  lemma {:induction false} CategoriesMembers(favs: seq<Product>)
    ensures forall c :: c in Categories(favs) <==> c != "" && exists k :: 0 <= k < |favs| && OrEmpty(favs[k].category) == c
  {
    if favs != [] {
      var init := favs[..|favs| - 1];
      CategoriesMembers(init);
      forall c ensures c in Categories(favs) <==> c != "" && exists k :: 0 <= k < |favs| && OrEmpty(favs[k].category) == c {
        if c in Categories(init) {
          var k :| 0 <= k < |init| && OrEmpty(init[k].category) == c;
          assert favs[k] == init[k];
        }
        if c != "" && exists k :: 0 <= k < |favs| && OrEmpty(favs[k].category) == c {
          var k :| 0 <= k < |favs| && OrEmpty(favs[k].category) == c;
          if k < |init| {
            assert init[k] == favs[k];
          }
        }
      }
    }
  }

  /** The profile text is empty exactly when no favourite has a non-empty description. */
  lemma ProfileTextIsEmpty(favs: seq<Product>)
    ensures Join(Descriptions(favs)) == "" <==> forall k :: 0 <= k < |favs| ==> OrEmpty(favs[k].description) == ""
  {
    var ds := Descriptions(favs);
    DescriptionsMembers(favs);
    assert forall j :: 0 <= j < |ds| ==> ds[j] in ds;
    JoinIsEmpty(ds);
    if ds != [] {
      assert ds[0] in ds;
    }
    if exists k :: 0 <= k < |favs| && OrEmpty(favs[k].description) != "" {
      var k :| 0 <= k < |favs| && OrEmpty(favs[k].description) != "";
      assert OrEmpty(favs[k].description) in ds;
    }
  }

  lemma ProfileTokenFromDescription(favs: seq<Product>, k: nat, t: string)
    requires k < |favs| && t in Tokens(OrEmpty(favs[k].description))
    ensures t in Tokens(Join(Descriptions(favs)))
  {
    var ds := Descriptions(favs);
    var d := OrEmpty(favs[k].description);
    assert d != "";
    DescriptionsMembers(favs);
    assert d in ds;
    var j :| 0 <= j < |ds| && ds[j] == d;
    TokensOfJoin(ds);
  }

  lemma DescriptionFromProfileToken(favs: seq<Product>, t: string) returns (k: nat)
    requires t in Tokens(Join(Descriptions(favs)))
    ensures k < |favs| && t in Tokens(OrEmpty(favs[k].description))
  {
    var ds := Descriptions(favs);
    TokensOfJoin(ds);
    var j :| 0 <= j < |ds| && t in Tokens(ds[j]);
    assert ds[j] in ds;
    DescriptionsMembers(favs);
    k :| 0 <= k < |favs| && OrEmpty(favs[k].description) == ds[j];
  }

  /** The tokens of the profile text are exactly the tokens of the favourites' descriptions. */
  lemma ProfileTokens(favs: seq<Product>)
    ensures forall t :: t in Tokens(Join(Descriptions(favs))) <==>
              exists k :: 0 <= k < |favs| && t in Tokens(OrEmpty(favs[k].description))
  {
    forall t ensures t in Tokens(Join(Descriptions(favs))) <==> exists k :: 0 <= k < |favs| && t in Tokens(OrEmpty(favs[k].description)) {
      if t in Tokens(Join(Descriptions(favs))) {
        var k := DescriptionFromProfileToken(favs, t);
      }
      if exists k :: 0 <= k < |favs| && t in Tokens(OrEmpty(favs[k].description)) {
        var k :| 0 <= k < |favs| && t in Tokens(OrEmpty(favs[k].description));
        ProfileTokenFromDescription(favs, k, t);
      }
    }
  }

  /** The profile text is blank exactly when every favourite description is. */
  lemma ProfileTextIsBlank(favs: seq<Product>)
    ensures IsBlank(Join(Descriptions(favs))) <==> forall k :: 0 <= k < |favs| ==> IsBlank(OrEmpty(favs[k].description))
  {
    var text := Join(Descriptions(favs));
    ProfileTokens(favs);
    NoTokensIffBlank(text);
    forall k | 0 <= k < |favs| {
      NoTokensIffBlank(OrEmpty(favs[k].description));
    }
    if !IsBlank(text) {
      var t :| t in Tokens(text);
    }
  }

  /** get_favorites over the fetched records data: the loop that keeps the records whose fav is 1. */
  method GetFavourites(data: seq<Product>) returns (favs: seq<Product>)
    ensures favs == Favourites(data)
  {
    favs := [];
    for i := 0 to |data|
      invariant favs == Favourites(data[..i])
    {
      assert data[..i + 1][..i] == data[..i];
      if data[i].fav == Some(1) {
        favs := favs + [data[i]];
      }
    }
    assert data[..|data|] == data;
  }

  /** build_user_profile, with the fetched favourites records data passed in: no profile
      without favourites, otherwise the space-joined non-empty descriptions and the
      non-empty categories of the favourites, in order. */
  method BuildUserProfile(data: seq<Product>) returns (r: Option<Profile>)
    ensures r.None? <==> Favourites(data) == []
    ensures r.Some? ==> r.value.text == Join(Descriptions(Favourites(data)))
    ensures r.Some? ==> r.value.categories == Categories(Favourites(data))
  {
    var favourites := GetFavourites(data);
    if favourites == [] {
      return None;
    }
    var texts: seq<string> := [];
    var categories: seq<string> := [];
    for i := 0 to |favourites|
      invariant texts == Descriptions(favourites[..i])
      invariant categories == Categories(favourites[..i])
    {
      assert favourites[..i + 1][..i] == favourites[..i];
      var desc := OrEmpty(favourites[i].description);
      var cat := OrEmpty(favourites[i].category);
      if desc != "" {
        texts := texts + [desc];
      }
      if cat != "" {
        categories := categories + [cat];
      }
    }
    assert favourites[..|favourites|] == favourites;
    r := Some(Profile(Join(texts), categories));
  }
}
